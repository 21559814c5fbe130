/**
 End to end: what holds in every state that any interleaving of host, loop and emitters reaches.
 */
module EndToEnd {
  import opened Wrappers

  import opened Envelope
  import opened Framing
  import opened Ndjson
  import opened Handlers
  import opened Dispatcher
  import opened SessionLaws
  import opened MethodAnswers
  import opened WriteLock
  import opened Harness
  import opened Concurrent
  import opened ConcurrentLaws
  import opened Histories

  /** The completed messages that the host has not read. */
  function Unseen(s: Sys): seq<Outgoing> {
    var done := Completed(s.io);
    if s.seen <= |done| then done[s.seen..] else []
  }

  lemma UnseenSlice(s: Sys)
    requires s.seen <= |Completed(s.io)|
    ensures Unseen(s) == Completed(s.io)[s.seen..]
  {
  }

  /**
   The IDs of calls that are under way outside the host: answers it has not read, the answer the
   loop is writing, the request in the loop's hand, and those the loop has not read.
   */
  function InFlight(s: Sys): seq<int> {
    Ids(Answers(Unseen(s))) + Ids(PhaseAnswers(s.io.Pc(0))) + InTransit(s.loop, s.queue)
  }

  lemma InFlightIs(s: Sys)
    requires s.seen <= |Completed(s.io)|
    ensures InFlight(s) == OutTransit(s.io, s.seen) + InTransit(s.loop, s.queue)
  {
  }

  lemma Reached(cfg: Config, run: seq<Action>, s: Sys)
    requires cfg.codec.Valid() && Reach(cfg, run) == Some(s)
    ensures Good(cfg, s) && History(cfg, s) && s.seen <= |Completed(s.io)|
    ensures InFlight(s) == OutTransit(s.io, s.seen) + InTransit(s.loop, s.queue)
  {
    hide *;
    ReachableGood(cfg, run);
    ReachableHistory(cfg, run);
    Parts(cfg, s);
    InFlightIs(s);
  }

  // ----- Calls and answers ------------------------------------------------------------------

  /** The call with this ID gets no answer: it was read after cancellation, or its result does not marshal. */
  ghost predicate CallLost(cfg: Config, s: Sys, id: int)
    requires 1 <= id <= |s.sent|
  {
    || (s.cancelled && s.dropped == [s.sent[id - 1]])
    || (s.handled == s.sent && Unanswerable(cfg.ext, id - 1, s.sent[id - 1]))
  }

  lemma DroppedIsLast(cfg: Config, s: Sys)
    requires Accounted(s.sent, s.handled, s.loop, s.dropped, s.queue) && LoopPhase(s.loop, s.io.Pc(0), s.dropped)
    requires Dropped(s.dropped, s.cancelled) && s.dropped != [] && s.queue == []
    ensures s.sent != [] && s.dropped == [s.sent[|s.sent| - 1]] && s.cancelled
  {
    assert s.dropped == [s.dropped[0]];
  }

  /** Lost, as the histories record it, is the call's own fate. */
  lemma LostMeans(cfg: Config, s: Sys, id: int)
    requires History(cfg, s) && s.host == Awaiting(id) && (s.lost ==> s.queue == [])
    requires Accounted(s.sent, s.handled, s.loop, s.dropped, s.queue) && LoopPhase(s.loop, s.io.Pc(0), s.dropped)
    ensures 1 <= id == |s.sent| && s.sent[id - 1].id == id && (s.lost <==> CallLost(cfg, s, id))
  {
    hide Unanswerable, ShutdownLast, SendingLast, StoppedBecause, AllSentFit;
    if s.dropped != [] {
      DroppedIsLast(cfg, s);
    }
  }

  lemma NothingQueued(s: Sys)
    requires InFlight(s) == []
    ensures s.queue == [] && !s.loop.Handling? && Answers(Unseen(s)) == [] && Answers(PendingOf(s.loop)) == []
    ensures PhaseAnswers(s.io.Pc(0)) == []
  {
    hide Answers, Unseen, PhaseAnswers;
    NoIds();
    assert |Ids(Answers(Unseen(s)))| == 0 && |Ids(PhaseAnswers(s.io.Pc(0)))| == 0;
    assert |LoopIds(s.loop)| == 0 && |RequestIds(s.queue)| == 0;
  }

  lemma MatchedMeans(host: Host, lost: bool, transit: seq<int>)
    requires Matched(host, lost, transit)
    ensures host != Stuck && (host.HostIdle? ==> !lost && transit == [])
    ensures host.Awaiting? ==> transit == if lost then [] else [host.id]
  {
  }

  /**
   End-to-end matching. The assertions of the host never fail; between calls nothing of an earlier
   call is left anywhere; and during a call its own ID is under way, once, and no other, if and only
   if the call is not lost.
   */
  lemma ResponsesMatchCalls(cfg: Config, run: seq<Action>, s: Sys)
    requires cfg.codec.Valid() && Reach(cfg, run) == Some(s)
    ensures match s.host
            case Stuck => false
            case HostIdle => InFlight(s) == []
            case Awaiting(id) =>
              && 1 <= id == |s.sent| && s.sent[id - 1].id == id
              && InFlight(s) == if CallLost(cfg, s, id) then [] else [id]
  {
    hide *;
    Reached(cfg, run, s);
    Parts(cfg, s);
    MatchedMeans(s.host, s.lost, InFlight(s));
    if s.lost {
      NothingQueued(s);
    }
    if s.host.Awaiting? {
      LostMeans(cfg, s, s.host.id);
    }
  }

  // ..... A call of each kind that gets no answer

  lemma ReachNext(cfg: Config, run: seq<Action>, s: Sys, a: Action)
    requires Reach(cfg, run) == Some(s) && CanDo(cfg, s, a)
    ensures Reach(cfg, run + [a]) == Some(Do(cfg, s, a))
  {
    hide CanDo, Do;
    assert (run + [a])[..|run|] == run;
  }

  /** A first call, and what the input is then. */
  lemma FirstCall(cfg: Config, name: string, params: Option<Raw>) returns (s: Sys)
    requires cfg.codec.Valid() && |cfg.codec.encodeRequest(Request(name, params, 1))| < cfg.extLimit
    ensures var req := Request(name, params, 1);
            && Reach(cfg, [HostCall(name, params)]) == Some(s)
            && s == INITIAL.(nextID := 1, host := Awaiting(1), input := s.input, queue := [req], sent := [req])
            && LF in s.input
  {
    var req, a := Request(name, params, 1), HostCall(name, params);
    s := INITIAL.(nextID := 1, host := Awaiting(1), input := [] + cfg.codec.encodeRequest(req) + [LF], queue := [req],
                  sent := [req]);
    assert NextCall(INITIAL, name, params) == req;
    assert s.input[|cfg.codec.encodeRequest(req)|] == LF;
    assert Reach(cfg, []) == Some(INITIAL);
    assert CanDo(cfg, INITIAL, a) && Do(cfg, INITIAL, a) == s;
    hide CanDo, Do;
    ReachNext(cfg, [], INITIAL, a);
    assert [] + [a] == [a];
  }

  lemma CanLoopRead(cfg: Config, s: Sys)
    requires s.loop.Reading? && s.io.Pc(0).Idle? && LF in s.input
    ensures CanDo(cfg, s, LoopRead)
  {
  }

  lemma CanCancel(cfg: Config, s: Sys)
    ensures CanDo(cfg, s, Cancel) && Do(cfg, s, Cancel) == s.(cancelled := true)
  {
  }

  /** Any request that is read after cancellation is lost, with any codec and any extension. */
  lemma CancelledCallIsLost(codec: Codec, ext: Extension, name: string, params: Option<Raw>)
    returns (cfg: Config, run: seq<Action>, s: Sys)
    requires codec.Valid()
    ensures cfg.codec == codec && cfg.ext == ext && Reach(cfg, run) == Some(s)
    ensures s.host == Awaiting(1) && s.sent == [Request(name, params, 1)]
    ensures s.cancelled && s.dropped == s.sent && CallLost(cfg, s, 1) && InFlight(s) == []
  {
    var req := Request(name, params, 1);
    cfg := Config(codec, ext, |codec.encodeRequest(req)| + 1, 2);
    var s1 := FirstCall(cfg, name, params);
    var s2 := s1.(cancelled := true);
    assert s2.loop.Reading? && s2.io.Pc(0).Idle?;
    hide *;
    CanCancel(cfg, s1);
    ReachNext(cfg, [HostCall(name, params)], s1, Cancel);
    var run2 := [HostCall(name, params)] + [Cancel];
    Reached(cfg, run2, s2);
    Parts(cfg, s2);
    CanLoopRead(cfg, s2);
    LoopReadShape(cfg, s2);
    run, s := run2 + [LoopRead], Do(cfg, s2, LoopRead);
    ReachNext(cfg, run2, s2, LoopRead);
    ResponsesMatchCalls(cfg, run, s);
    LostNow(cfg, s, 1);
  }

  lemma LostNow(cfg: Config, s: Sys, id: int)
    requires 1 <= id <= |s.sent|
    requires || (s.cancelled && s.dropped == [s.sent[id - 1]])
             || (s.handled == s.sent && Unanswerable(cfg.ext, id - 1, s.sent[id - 1]))
    ensures CallLost(cfg, s, id)
  {
    hide Unanswerable;
  }

  /** An extension without handlers, whose initialize result does not marshal. */
  function Silent(): Extension {
    Extension(_ => false, (_, _) => Registered(None), (_, _) => None, (_, _) => MethodFailed(""), (_, _) => [],
              _ => None, _ => Unmarshallable("unsupported value"))
  }

  lemma {:induction false} SilentInitializes(k: nat, n: nat)
    requires n <= |ORDER|
    ensures InitAfter(Silent(), k, n) == InitState(NO_REGISTRATIONS, None, [])
  {
    if n == 0 {
    } else {
      SilentInitializes(k, n - 1);
    }
  }

  lemma SilentIsUnanswerable()
    ensures Unanswerable(Silent(), 0, Request(METHOD_INITIALIZE, None, 1))
  {
    SilentInitializes(0, |ORDER|);
    hide InitAfter;
  }

  lemma CanServe(cfg: Config, s: Sys)
    requires s.loop.Handling? && s.io.Pc(0).Idle?
    ensures CanDo(cfg, s, Serve)
  {
  }

  /** An initialize whose result does not marshal is lost, with any codec. */
  lemma UnmarshallableInitializeIsLost(codec: Codec) returns (cfg: Config, run: seq<Action>, s: Sys)
    requires codec.Valid()
    ensures cfg.codec == codec && Reach(cfg, run) == Some(s)
    ensures s.host == Awaiting(1) && s.sent == [Request(METHOD_INITIALIZE, None, 1)]
    ensures s.handled == s.sent && CallLost(cfg, s, 1) && InFlight(s) == []
  {
    var req := Request(METHOD_INITIALIZE, None, 1);
    cfg := Config(codec, Silent(), |codec.encodeRequest(req)| + 1, 2);
    var s1 := FirstCall(cfg, METHOD_INITIALIZE, None);
    assert s1.loop.Reading? && s1.io.Pc(0).Idle? && !s1.cancelled;
    hide *;
    var run1 := [HostCall(METHOD_INITIALIZE, None)];
    Reached(cfg, run1, s1);
    Parts(cfg, s1);
    CanLoopRead(cfg, s1);
    LoopReadShape(cfg, s1);
    var run2, s2 := run1 + [LoopRead], Do(cfg, s1, LoopRead);
    ReachNext(cfg, run1, s1, LoopRead);
    Reached(cfg, run2, s2);
    Parts(cfg, s2);
    CanServe(cfg, s2);
    ServeShape(cfg, s2);
    run, s := run2 + [Serve], Do(cfg, s2, Serve);
    ReachNext(cfg, run2, s2, Serve);
    SilentIsUnanswerable();
    ResponsesMatchCalls(cfg, run, s);
    LostNow(cfg, s, 1);
  }

  // ..... The response read is the answer to the very request of the call

  /** Answers come from somewhere: every one is the reply to one of the handled requests. */
  lemma {:induction false} AnswersAreReplies(ext: Extension, codec: Codec, rs: seq<Request>, r: Response)
    returns (k: nat)
    requires r in Answers(Outputs(ext, codec, rs))
    ensures k < |rs| && Handle(ext, codec, k, rs[k]).response == Some(r)
    decreases |rs|
  {
    hide Handle;
    k := |rs| - 1;
    var before := rs[..k];
    assert before + [rs[k]] == rs;
    OutputsSnoc(ext, codec, before, rs[k]);
    if r in Answers(Outputs(ext, codec, before)) {
      k := AnswersAreReplies(ext, codec, before, r);
    } else {
      assert r in Reply(ext, codec, k, rs[k]);
    }
  }

  lemma AnswerIn(ms: seq<Outgoing>, i: nat)
    requires i < |ms| && ms[i].Resp?
    ensures ms[i].response in Answers(ms)
  {
    AnswersAppend(ms[..i], ms[i..]);
    AnswersAppend([ms[i]], ms[i + 1..]);
    assert ms[..i] + ms[i..] == ms && [ms[i]] + ms[i + 1..] == ms[i..];
    AnswersOfOne(ms[i]);
  }

  /** Only the loop responds. */
  lemma {:induction false} LoopAnswers(cfg: Config, es: seq<Entry>)
    requires forall i :: 0 <= i < |es| ==> Proper(cfg, es[i].writer, es[i].m)
    ensures Answers(Msgs(es)) == Answers(ByWriter(es, 0))
    decreases |es|
  {
    if es == [] {
    } else {
      var before, e := es[..|es| - 1], es[|es| - 1];
      assert es == before + [e] && Proper(cfg, e.writer, e.m);
      assert e.writer != 0 ==> AnswerOf(e.m) == [];
      LoopAnswers(cfg, before);
      hide *;
      MsgsSnoc(before, e);
      ByWriterSnoc(before, e, 0);
      AnswersSnoc(Msgs(before), e.m);
      AnswersSnoc(ByWriter(before, 0), e.m);
      Across(ByWriter(before, 0), [], []);
    }
  }

  lemma AcquiredProper(cfg: Config, io: Io)
    requires AllProper(cfg, io)
    ensures forall i :: 0 <= i < |io.acquired| ==> Proper(cfg, io.acquired[i].writer, io.acquired[i].m)
  {
    hide Proper;
  }

  lemma IssuedIs(codec: Codec, io: Io)
    requires Inv(codec, io)
    ensures ByWriter(io.issued, 0) == ByWriter(io.acquired, 0) + Waiting(io.Pc(0))
  {
    hide ByWriter, Waiting, Exclusive, Framed;
  }

  lemma AnsweredIs(cfg: Config, io: Io, loop: Loop, handled: seq<Request>)
    requires Answered(cfg, io, loop, handled)
    ensures ByWriter(io.issued, 0) + PendingOf(loop) == Outputs(cfg.ext, cfg.codec, handled)
  {
    hide ByWriter, PendingOf, Outputs;
  }

  /** What the loop has still to put on the wire. */
  function LeftToSend(s: Sys): seq<Outgoing> {
    Waiting(s.io.Pc(0)) + PendingOf(s.loop)
  }

  lemma LoopSends(cfg: Config, s: Sys)
    requires Good(cfg, s)
    ensures ByWriter(s.io.acquired, 0) + LeftToSend(s) == Outputs(cfg.ext, cfg.codec, s.handled)
    ensures Answers(Msgs(s.io.acquired)) == Answers(ByWriter(s.io.acquired, 0))
    ensures Answers(Msgs(s.io.acquired)) + Answers(LeftToSend(s)) == Answers(Outputs(cfg.ext, cfg.codec, s.handled))
  {
    assert LeftToSend(s) == Waiting(s.io.Pc(0)) + PendingOf(s.loop);
    hide *;
    Parts(cfg, s);
    IssuedIs(cfg.codec, s.io);
    AnsweredIs(cfg, s.io, s.loop, s.handled);
    AcquiredProper(cfg, s.io);
    LoopAnswers(cfg, s.io.acquired);
    Across(ByWriter(s.io.acquired, 0), Waiting(s.io.Pc(0)), PendingOf(s.loop));
    AnswersAppend(ByWriter(s.io.acquired, 0), LeftToSend(s));
  }

  lemma CompletedIsAcquired(codec: Codec, io: Io)
    requires Inv(codec, io)
    ensures Completed(io) <= Msgs(io.acquired) && |io.acquired| <= |Completed(io)| + 1 && InProgramOrder(io)
  {
    hide Framed, InProgramOrder;
  }

  /** A completed response answers one of the handled requests. */
  lemma CompletedAnswers(cfg: Config, s: Sys, i: nat) returns (k: nat)
    requires Good(cfg, s) && i < |Completed(s.io)| && Completed(s.io)[i].Resp?
    ensures k < |s.handled|
    ensures Handle(cfg.ext, cfg.codec, k, s.handled[k]).response == Some(Completed(s.io)[i].response)
  {
    hide *;
    Parts(cfg, s);
    CompletedIsAcquired(cfg.codec, s.io);
    LoopSends(cfg, s);
    assert Completed(s.io)[i] == Msgs(s.io.acquired)[i];
    AnswerIn(Msgs(s.io.acquired), i);
    k := AnswersAreReplies(cfg.ext, cfg.codec, s.handled, Completed(s.io)[i].response);
  }

  /** Requests are handled in the order of the calls, so the k-th one has ID k + 1. */
  lemma HandledIsSent(cfg: Config, s: Sys, k: nat)
    requires Good(cfg, s) && History(cfg, s) && k < |s.handled|
    ensures k < |s.sent| && s.handled[k] == s.sent[k] && s.handled[k].id == k + 1
  {
    assert s.sent == s.handled + InHand(s.loop) + s.dropped + s.queue;
  }

  /** What the extension answered to the last request sent. */
  ghost predicate IsOwnAnswer(cfg: Config, s: Sys, r: Response) {
    && s.sent != []
    && var k := |s.sent| - 1;
       && k < |s.handled| && s.handled[k] == s.sent[k] && r.id == s.sent[k].id
       && Handle(cfg.ext, cfg.codec, k, s.sent[k]).response == Some(r)
  }

  lemma MatchedResponse(host: Host, lost: bool, m: Outgoing, behind: seq<int>)
    requires host.Awaiting? && m.Resp? && Matched(host, lost, Ids(AnswerOf(m)) + behind)
    ensures m.response.id == host.id
  {
    MatchedNext(host, lost, m, behind);
  }

  lemma AwaitedIsLast(cfg: Config, s: Sys)
    requires History(cfg, s) && s.host.Awaiting?
    ensures 1 <= s.host.id == |s.sent|
  {
  }

  lemma OwnAnswer(cfg: Config, s: Sys, k: nat, r: Response)
    requires 1 <= r.id == |s.sent| && k < |s.sent| && k < |s.handled|
    requires s.handled[k] == s.sent[k] && s.handled[k].id == k + 1
    requires Handle(cfg.ext, cfg.codec, k, s.handled[k]).response == Some(r)
    ensures IsOwnAnswer(cfg, s, r)
  {
    OneAnswer(cfg.ext, cfg.codec, k, s.handled[k]);
    hide Handle, Unanswerable;
  }

  lemma NextResponseIsOwn(cfg: Config, s: Sys)
    requires Good(cfg, s) && History(cfg, s) && s.host.Awaiting?
    requires s.seen < |Completed(s.io)| && Completed(s.io)[s.seen].Resp?
    ensures Completed(s.io)[s.seen].response.id == s.host.id
    ensures IsOwnAnswer(cfg, s, Completed(s.io)[s.seen].response)
  {
    hide *;
    var m := Completed(s.io)[s.seen];
    Parts(cfg, s);
    TransitNext(s.io, s.seen);
    Across(Ids(AnswerOf(m)), OutTransit(s.io, s.seen + 1), InTransit(s.loop, s.queue));
    MatchedResponse(s.host, s.lost, m, OutTransit(s.io, s.seen + 1) + InTransit(s.loop, s.queue));
    AwaitedIsLast(cfg, s);
    var k := CompletedAnswers(cfg, s, s.seen);
    HandledIsSent(cfg, s, k);
    OwnAnswer(cfg, s, k, m.response);
  }

  lemma UnseenIs(s: Sys)
    requires s.seen < |Completed(s.io)|
    ensures Unseen(s) != [] && Unseen(s)[0] == Completed(s.io)[s.seen]
  {
  }

  /**
   What a call returns: the first response the host reads carries the ID of the call, and is what
   the extension answered to that very request; until then it only reads notifications.
   */
  lemma CallGetsItsAnswer(cfg: Config, run: seq<Action>, s: Sys)
    requires cfg.codec.Valid() && Reach(cfg, run) == Some(s) && CanDo(cfg, s, HostRead)
    ensures && s.host.Awaiting? && Unseen(s) != []
            && var s' := Do(cfg, s, HostRead);
            match Unseen(s)[0]
            case Notif(_) => s'.host == s.host
            case Resp(r) => r.id == s.host.id && IsOwnAnswer(cfg, s, r) && s'.host == HostIdle
  {
    hide *;
    Reached(cfg, run, s);
    Parts(cfg, s);
    HostReadShape(cfg, s);
    UnseenIs(s);
    HostAfterReading(s.host, Unseen(s)[0]);
    if Unseen(s)[0].Resp? {
      NextResponseIsOwn(cfg, s);
    }
  }

  lemma HostAfterReading(host: Host, m: Outgoing)
    requires host.Awaiting?
    ensures HostAfter(host, m) ==
            match m case Notif(_) => host case Resp(r) => if r.id == host.id then HostIdle else Stuck
  {
  }

  lemma {:induction false} NoAnswersIn(ms: seq<Outgoing>)
    requires forall i :: 0 <= i < |ms| ==> ms[i].Notif?
    ensures Answers(ms) == []
  {
    if ms == [] {
    } else {
      NoAnswersIn(ms[..|ms| - 1]);
    }
  }

  /** The first response among some messages. */
  lemma AnswersFrom(before: seq<Outgoing>, r: Response, after: seq<Outgoing>)
    requires forall i :: 0 <= i < |before| ==> before[i].Notif?
    ensures Answers(before + [Resp(r)] + after) == [r] + Answers(after)
  {
    NoAnswersIn(before);
    AnswersAppend(before + [Resp(r)], after);
    AnswersSnoc(before, Resp(r));
  }

  /** An answer that is in flight on the wire is that of the last call, and the only one. */
  lemma OnlyAnswer(cfg: Config, s: Sys, r: Response, rest: seq<Response>)
    requires s.host.Awaiting? && Matched(s.host, s.lost, InFlight(s)) && Answers(Unseen(s)) == [r] + rest
    ensures r.id == s.host.id && rest == []
  {
    hide Answers, Unseen;
    assert Ids([r] + rest)[0] == r.id;
    assert InFlight(s)[0] == r.id && |InFlight(s)| >= 1 + |rest|;
  }

  lemma CompletedAt(cfg: Config, s: Sys, before: seq<Outgoing>, r: Response, after: seq<Outgoing>)
    requires s.seen <= |Completed(s.io)| && Unseen(s) == before + [Resp(r)] + after
    ensures s.seen + |before| < |Completed(s.io)| && Completed(s.io)[s.seen + |before|] == Resp(r)
  {
    hide Completed;
    assert Completed(s.io)[s.seen + |before|] == Unseen(s)[|before|];
  }

  lemma FitsSuffix(cfg: Config, s: Sys)
    requires AllProper(cfg, s.io) && s.seen <= |Completed(s.io)|
    ensures AllFit(cfg.codec, cfg.hostLimit, Unseen(s))
  {
    CompletedFits(cfg, s.io);
    hide Completed, AllProper;
  }

  /**
   The same for a whole call of the harness, as soon as a response is on the wire and whatever is
   still to be written: the wait returns that response, which is the answer to this very request,
   having stored exactly the notifications before it, and what is left has no other response.
   */
  lemma CallReturns(cfg: Config, run: seq<Action>, s: Sys, before: seq<Outgoing>, r: Response, after: seq<Outgoing>,
                    later: bytes)
    requires cfg.codec.Valid() && Reach(cfg, run) == Some(s) && s.host.Awaiting?
    requires Unseen(s) == before + [Resp(r)] + after && forall i :: 0 <= i < |before| ==> before[i].Notif?
    ensures r.id == s.host.id && IsOwnAnswer(cfg, s, r) && Answers(after) == []
    ensures var a := Await(cfg.codec, cfg.hostLimit, s.host.id, s.stored, Unread(s) + later);
            && a.outcome == Ok(r) && ExtendedBy(s.stored, a.stored, before)
            && a.rest == Wire(cfg.codec, after) + (Partial(cfg.codec, s.io) + later)
  {
    hide *;
    Reached(cfg, run, s);
    Parts(cfg, s);
    AnswersFrom(before, r, after);
    OnlyAnswer(cfg, s, r, Answers(after));
    AwaitedIsLast(cfg, s);
    CompletedAt(cfg, s, before, r, after);
    var k := CompletedAnswers(cfg, s, s.seen + |before|);
    HandledIsSent(cfg, s, k);
    OwnAnswer(cfg, s, k, r);
    UnreadIs(cfg, s);
    UnseenSlice(s);
    FitsSuffix(cfg, s);
    Across(Wire(cfg.codec, Unseen(s)), Partial(cfg.codec, s.io), later);
    FirstResponseDecides(cfg.codec, cfg.hostLimit, s.host.id, s.stored, before, r, after,
                         Partial(cfg.codec, s.io) + later);
  }

  /** For a method request that answer is what its handler's outcome calls for. */
  lemma OwnAnswerIsHandlers(cfg: Config, s: Sys, r: Response)
    requires s.sent != [] && IsOwnAnswer(cfg, s, r) && !IsLifecycle(s.sent[|s.sent| - 1])
    ensures IsMethodAnswer(cfg.ext, cfg.codec, |s.sent| - 1, s.sent[|s.sent| - 1], r)
  {
    hide *;
    OwnIsResponse(cfg, s, r);
    MethodAnswer(cfg.ext, cfg.codec, |s.sent| - 1, s.sent[|s.sent| - 1]);
  }

  lemma OwnIsResponse(cfg: Config, s: Sys, r: Response)
    requires IsOwnAnswer(cfg, s, r)
    ensures s.sent != []
    ensures Handle(cfg.ext, cfg.codec, |s.sent| - 1, s.sent[|s.sent| - 1]).response == Some(r)
  {
    hide Handle;
  }

  // ----- Notifications ----------------------------------------------------------------------

  /** What is unread: the records not seen, which decode to their messages, then part of a line. */
  lemma UnreadDecodes(cfg: Config, run: seq<Action>, s: Sys)
    requires cfg.codec.Valid() && Reach(cfg, run) == Some(s)
    ensures var lines, part := Wire(cfg.codec, Unseen(s)), Partial(cfg.codec, s.io);
            && Unread(s) == lines + part && LF !in part
            && DecodeWire(cfg.codec, cfg.hostLimit, lines) == Some(Unseen(s))
  {
    hide Reach, Wire, DecodeWire, Partial, Good, IoGood, HostView, Unread;
    Reached(cfg, run, s);
    Parts(cfg, s);
    UnreadIs(cfg, s);
    PartialIsOpen(cfg.codec, s.io);
    CompletedFits(cfg, s.io);
    WireDecodes(cfg.codec, cfg.hostLimit, Unseen(s));
  }

  lemma StoredAndUnread(s: Sys, name: string)
    requires s.seen <= |Completed(s.io)| && Stored(s.drained, s.stored, Read(s.io, s.seen))
    ensures Get(s.drained, name) + Get(s.stored, name) + ParamsOf(Unseen(s), name) == ParamsOf(Completed(s.io), name)
  {
    assert Completed(s.io) == Read(s.io, s.seen) + Unseen(s) by {
      hide Completed;
    }
    hide *;
    StoredMeans(s.drained, s.stored, Read(s.io, s.seen), name);
    ParamsAppend(Read(s.io, s.seen), Unseen(s), name);
  }

  /**
   Conservation: for every method, what was drained, then what is stored, then what decodes from
   the unread output, is what was sent for that method in the order of lock acquisition, up to the
   one record being written; and each emitter's messages take the lock in the order it sent them.
   */
  lemma NotificationsConserved(cfg: Config, run: seq<Action>, s: Sys, name: string)
    requires cfg.codec.Valid() && Reach(cfg, run) == Some(s)
    ensures var unread := DecodeWire(cfg.codec, cfg.hostLimit, Wire(cfg.codec, Unseen(s)));
            && Unread(s) == Wire(cfg.codec, Unseen(s)) + Partial(cfg.codec, s.io)
            && unread.Some?
            && Get(s.drained, name) + Get(s.stored, name) + ParamsOf(unread.value, name) ==
               ParamsOf(Completed(s.io), name)
            && Completed(s.io) <= Msgs(s.io.acquired) && |s.io.acquired| <= |Completed(s.io)| + 1
            && InProgramOrder(s.io)
  {
    hide *;
    UnreadDecodes(cfg, run, s);
    Reached(cfg, run, s);
    Parts(cfg, s);
    StoredAndUnread(s, name);
    CompletedIsAcquired(cfg.codec, s.io);
  }

  // ----- What the loop writes ---------------------------------------------------------------

  /**
   Whatever the interleaving, what the loop has put in the order of lock acquisition, with what it
   has left to send, is what the sequential session writes for the requests handled so far:
   notifications of handlers and responses alike. So the answers are one each, in order, well
   formed. Every request sent is handled, in hand, dropped by cancellation, or still to be read; and
   none is handled after a shutdown request.
   */
  lemma LoopWritesTheSession(cfg: Config, run: seq<Action>, s: Sys)
    requires cfg.codec.Valid() && Reach(cfg, run) == Some(s)
    ensures ByWriter(s.io.acquired, 0) + LeftToSend(s) == Outputs(cfg.ext, cfg.codec, s.handled)
    ensures var answers := Answers(Msgs(s.io.acquired)) + Answers(LeftToSend(s));
            Ids(answers) == OwedIds(cfg.ext, s.handled) && AllWellFormed(answers)
    ensures s.sent == s.handled + InHand(s.loop) + s.dropped + s.queue
    ensures ShutdownLast(s.handled, s.loop)
  {
    hide *;
    Reached(cfg, run, s);
    Parts(cfg, s);
    LoopSends(cfg, s);
    OutputsAnswerOnce(cfg.ext, cfg.codec, s.handled);
    AccountedIs(s.sent, s.handled, s.loop, s.dropped, s.queue);
    HistoryParts(cfg, s);
  }

  lemma AccountedIs(sent: seq<Request>, handled: seq<Request>, l: Loop, dropped: seq<Request>, queue: seq<Request>)
    requires Accounted(sent, handled, l, dropped, queue)
    ensures sent == handled + InHand(l) + dropped + queue
  {
    hide InHand;
  }

  lemma HistoryParts(cfg: Config, s: Sys)
    requires History(cfg, s)
    ensures ShutdownLast(s.handled, s.loop) && SendingLast(s.handled, s.loop) && AllSentFit(cfg, s.sent)
    ensures StoppedBecause(s.loop, s.dropped, s.handled, s.queue, s.closed) && Dropped(s.dropped, s.cancelled)
    ensures LostIff(cfg.ext, s.lost, s.sent, s.handled, s.dropped)
  {
    hide ShutdownLast, SendingLast, AllSentFit, StoppedBecause, Dropped, LostIff;
  }

  // ..... Between calls

  lemma {:induction false} ByWriterAppend(a: seq<Entry>, b: seq<Entry>, w: nat)
    ensures ByWriter(a + b, w) == ByWriter(a, w) + ByWriter(b, w)
    decreases |b|
  {
    if b == [] {
      assert a + b == a;
    } else {
      var init, last := b[..|b| - 1], b[|b| - 1];
      assert b == init + [last];
      hide *;
      Across(a, init, [last]);
      ByWriterAppend(a, init, w);
      ByWriterSnoc(a + init, last, w);
      ByWriterSnoc(init, last, w);
      Across(ByWriter(a, w), ByWriter(init, w), if last.writer == w then [last.m] else []);
    }
  }

  /** If every answer is sent, the loop's output ends in one, unless the last request gets none. */
  lemma OutputsEndInAnswer(ext: Extension, codec: Codec, rs: seq<Request>)
    requires rs != [] ==> !Unanswerable(ext, |rs| - 1, rs[|rs| - 1])
    ensures var out := Outputs(ext, codec, rs);
            if rs == [] then out == [] else out != [] && out[|out| - 1].Resp?
  {
    if rs != [] {
      var k := |rs| - 1;
      OneAnswer(ext, codec, k, rs[k]);
      hide Handle, Unanswerable;
    }
  }

  lemma AnswersEnd(ms: seq<Outgoing>)
    ensures ms != [] && ms[|ms| - 1].Resp? ==> Answers(ms) != []
  {
  }

  lemma LastOf<T>(a: seq<T>, b: seq<T>)
    requires b != []
    ensures (a + b)[|a + b| - 1] == b[|b| - 1]
  {
  }

  /** What follows the part of the loop's output that is seen has no answer, so there is nothing. */
  lemma NothingLeft(ext: Extension, codec: Codec, rs: seq<Request>, before: seq<Outgoing>, left: seq<Outgoing>)
    requires Outputs(ext, codec, rs) == before + left && Answers(left) == []
    requires rs != [] ==> !Unanswerable(ext, |rs| - 1, rs[|rs| - 1])
    ensures left == []
  {
    hide *;
    AnswersEnd(left);
    if left != [] {
      LastOf(before, left);
      OutputsEndInAnswer(ext, codec, rs);
    }
  }

  /** The message being written, as a sequence of at most one. */
  function BeingWritten(io: Io): seq<Outgoing> {
    if WritingNow(io) then [io.Pc(io.lock.value).m] else []
  }

  lemma UnseenMsgs(io: Io, seen: nat)
    requires Exclusive(io) && seen <= |Completed(io)|
    ensures seen <= |io.acquired|
    ensures Msgs(io.acquired[seen..]) == Completed(io)[seen..] + BeingWritten(io)
  {
    if WritingNow(io) {
      InProgress(io);
    }
    assert Msgs(io.acquired) == Completed(io) + BeingWritten(io);
    hide *;
    assert Msgs(io.acquired[seen..]) == Msgs(io.acquired)[seen..];
    SliceAppend(Completed(io), BeingWritten(io), seen);
  }

  lemma BeingWrittenAnswers(cfg: Config, io: Io)
    requires AllProper(cfg, io) && PhaseAnswers(io.Pc(0)) == []
    ensures Answers(BeingWritten(io)) == []
  {
    if WritingNow(io) {
      var m := io.Pc(io.lock.value).m;
      assert Proper(cfg, io.lock.value, m) && AnswerOf(m) == [];
      AnswersOfOne(m);
    }
  }

  /** The entries behind what the host has seen hold no answer, if none is unread or being written. */
  lemma UnseenEntries(cfg: Config, s: Sys)
    requires Exclusive(s.io) && AllProper(cfg, s.io) && s.seen <= |Completed(s.io)|
    requires Answers(Unseen(s)) == [] && PhaseAnswers(s.io.Pc(0)) == []
    ensures s.seen <= |s.io.acquired|
    ensures Answers(ByWriter(s.io.acquired[s.seen..], 0)) == []
  {
    hide *;
    UnseenSlice(s);
    UnseenMsgs(s.io, s.seen);
    BeingWrittenAnswers(cfg, s.io);
    AnswersAppend(Unseen(s), BeingWritten(s.io));
    AcquiredProper(cfg, s.io);
    LoopAnswers(cfg, s.io.acquired[s.seen..]);
  }

  lemma LeftHasNoAnswer(s: Sys)
    requires PhaseAnswers(s.io.Pc(0)) == [] && Answers(PendingOf(s.loop)) == []
    ensures Answers(LeftToSend(s)) == []
  {
    AnswersAppend(Waiting(s.io.Pc(0)), PendingOf(s.loop));
    if s.io.Pc(0).Ready? {
      AnswersOfOne(s.io.Pc(0).m);
    }
    hide Answers;
  }

  lemma IdleMeans(cfg: Config, s: Sys)
    requires Good(cfg, s) && History(cfg, s) && s.host.HostIdle? && InFlight(s) == [] && !s.lost
    ensures s.handled == s.sent && s.dropped == []
    ensures s.handled != [] ==> !Unanswerable(cfg.ext, |s.handled| - 1, s.handled[|s.handled| - 1])
  {
    hide Unanswerable, IoGood, HostView, LoopView, LoopPhase, Matched, Stored, Answered, Numbered, AllSentFit,
      ShutdownLast, SendingLast, StoppedBecause, InFlight;
    NothingQueued(s);
  }

  /** The loop's messages among those seen, and what is left of its output behind them. */
  lemma LoopSplit(cfg: Config, s: Sys)
    requires Good(cfg, s) && s.seen <= |s.io.acquired|
    ensures var es := s.io.acquired;
            Outputs(cfg.ext, cfg.codec, s.handled) ==
            ByWriter(es[..s.seen], 0) + (ByWriter(es[s.seen..], 0) + LeftToSend(s))
  {
    hide *;
    var es := s.io.acquired;
    LoopSends(cfg, s);
    assert es == es[..s.seen] + es[s.seen..];
    ByWriterAppend(es[..s.seen], es[s.seen..], 0);
    Across(ByWriter(es[..s.seen], 0), ByWriter(es[s.seen..], 0), LeftToSend(s));
  }

  lemma BothEmpty<T>(a: seq<T>, b: seq<T>)
    requires a + b == []
    ensures a == [] && b == []
  {
    assert |a + b| == |a| + |b|;
  }

  lemma LastWriter(es: seq<Entry>, n: nat)
    requires n < |es|
    ensures es[|es| - 1].writer == 0 ==> ByWriter(es[n..], 0) != []
  {
    var rest := es[n..];
    assert rest[|rest| - 1] == es[|es| - 1];
  }

  /** A message that the loop is writing is its last, and not seen. */
  lemma WritingIsUnseen(io: Io, seen: nat)
    requires Exclusive(io) && seen <= |Completed(io)| && io.Pc(0).Writing()
    ensures seen < |io.acquired| && ByWriter(io.acquired[seen..], 0) != []
  {
    assert io.Pc(0).Holds() <==> io.lock == Some(0);
    InProgress(io);
    hide Completed, ByWriter;
    LastWriter(io.acquired, seen);
  }

  lemma PhaseOf(io: Io)
    requires !io.Pc(0).Writing() && Waiting(io.Pc(0)) == []
    ensures io.Pc(0).Idle? || io.Pc(0).Unlocking?
  {
  }

  /** With nothing of the loop's left behind what is seen, the loop is at most about to return. */
  lemma LoopIsDone(cfg: Config, s: Sys)
    requires Exclusive(s.io) && s.seen <= |Completed(s.io)| && s.seen <= |s.io.acquired|
    requires ByWriter(s.io.acquired[s.seen..], 0) == [] && LeftToSend(s) == []
    ensures PendingOf(s.loop) == [] && (s.io.Pc(0).Idle? || s.io.Pc(0).Unlocking?)
  {
    assert LeftToSend(s) == Waiting(s.io.Pc(0)) + PendingOf(s.loop);
    hide *;
    BothEmpty(Waiting(s.io.Pc(0)), PendingOf(s.loop));
    if s.io.Pc(0).Writing() {
      WritingIsUnseen(s.io, s.seen);
    } else {
      PhaseOf(s.io);
    }
  }

  lemma SeenMessages(s: Sys)
    requires s.seen <= |Completed(s.io)| && Completed(s.io) <= Msgs(s.io.acquired)
    ensures Read(s.io, s.seen) == Msgs(s.io.acquired[..s.seen])
  {
    hide Completed;
  }

  /** The host has read everything that the loop has written, and the loop is done with it. */
  ghost predicate CaughtUp(cfg: Config, s: Sys) {
    && s.handled == s.sent && s.seen <= |s.io.acquired|
    && ByWriter(s.io.acquired[..s.seen], 0) == Outputs(cfg.ext, cfg.codec, s.sent)
    && (forall name ::
          Get(s.drained, name) + Get(s.stored, name) == ParamsOf(Msgs(s.io.acquired[..s.seen]), name))
    && PendingOf(s.loop) == [] && (s.io.Pc(0).Idle? || s.io.Pc(0).Unlocking?)
  }

  lemma CaughtUpIs(cfg: Config, s: Sys)
    requires s.handled == s.sent && s.seen <= |Completed(s.io)| && Completed(s.io) <= Msgs(s.io.acquired)
    requires s.seen <= |s.io.acquired|
    requires ByWriter(s.io.acquired[..s.seen], 0) == Outputs(cfg.ext, cfg.codec, s.handled)
    requires Stored(s.drained, s.stored, Read(s.io, s.seen))
    requires PendingOf(s.loop) == [] && (s.io.Pc(0).Idle? || s.io.Pc(0).Unlocking?)
    ensures CaughtUp(cfg, s)
  {
    SeenMessages(s);
    hide Get, ParamsOf, ByWriter, Outputs, PendingOf, Completed, Msgs, Read;
  }

  /**
   Between calls the host has caught up with the loop, for every request sent so far: it has read
   each response, and in front of it all that the request's handlers emitted. All of these
   notifications are stored or drained, with those of the emitters, in lock order.
   */
  lemma BetweenCalls(cfg: Config, run: seq<Action>, s: Sys)
    requires cfg.codec.Valid() && Reach(cfg, run) == Some(s)
    ensures s.host.HostIdle? ==> CaughtUp(cfg, s)
  {
    hide *;
    Reached(cfg, run, s);
    Parts(cfg, s);
    MatchedMeans(s.host, s.lost, InFlight(s));
    if s.host.HostIdle? {
      IdleMeans(cfg, s);
      NothingQueued(s);
      UnseenEntries(cfg, s);
      LeftHasNoAnswer(s);
      LoopSplit(cfg, s);
      var seen, unseen := ByWriter(s.io.acquired[..s.seen], 0), ByWriter(s.io.acquired[s.seen..], 0);
      AnswersAppend(unseen, LeftToSend(s));
      NothingLeft(cfg.ext, cfg.codec, s.handled, seen, unseen + LeftToSend(s));
      Across(seen, [], []);
      BothEmpty(unseen, LeftToSend(s));
      LoopIsDone(cfg, s);
      CompletedIsAcquired(cfg.codec, s.io);
      CaughtUpIs(cfg, s);
    }
  }

  lemma CaughtUpLoop(cfg: Config, s: Sys)
    requires CaughtUp(cfg, s)
    ensures PendingOf(s.loop) == [] && (s.io.Pc(0).Idle? || s.io.Pc(0).Unlocking?)
  {
    hide PendingOf, ByWriter, Outputs, ParamsOf;
  }

  // ..... The session that the loop ran

  /** A context that is cancelled from the n-th read on, or never. */
  function CancelledAt(n: nat, ever: bool): nat -> bool {
    (k: nat) => ever && k >= n
  }

  lemma StoppedAt(sent: seq<Request>, handled: seq<Request>, dropped: seq<Request>, queue: seq<Request>, closed: bool)
    requires ShutdownLast(handled, Stopped) && StoppedBecause(Stopped, dropped, handled, queue, closed)
    requires sent == handled + (dropped + queue)
    ensures handled == sent[..|handled|]
    ensures StopsAfter(CancelledAt(|handled|, dropped != []), 0, sent, |handled|)
  {
    assert forall i :: 0 <= i < |handled| ==> sent[i] == handled[i];
    hide IsShutdown;
  }

  lemma StoppedWhere(cfg: Config, s: Sys)
    requires s.loop.Stopped? && ShutdownLast(s.handled, s.loop)
    requires StoppedBecause(s.loop, s.dropped, s.handled, s.queue, s.closed)
    requires Accounted(s.sent, s.handled, s.loop, s.dropped, s.queue)
    ensures s.handled == s.sent[..|s.handled|]
    ensures StopsAfter(CancelledAt(|s.handled|, s.dropped != []), 0, s.sent, |s.handled|)
  {
    assert InHand(s.loop) == [] && s.loop == Stopped;
    hide *;
    AccountedIs(s.sent, s.handled, s.loop, s.dropped, s.queue);
    Across(s.handled, s.dropped, s.queue);
    Across(s.handled, [], []);
    StoppedAt(s.sent, s.handled, s.dropped, s.queue, s.closed);
  }

  lemma SessionOfSent(cfg: Config, sent: seq<Request>, cancelled: nat -> bool, n: nat)
    requires cfg.codec.Valid() && StopsAfter(cancelled, 0, sent, n)
    requires forall i :: 0 <= i < |sent| ==> |cfg.codec.encodeRequest(sent[i])| < cfg.extLimit
    ensures var session := SessionOver(cfg.ext, cfg.codec, cfg.extLimit, cancelled, Sent(cfg.codec, sent));
            && session.handled == sent[..n] && session.err == None
            && session.written == Outputs(cfg.ext, cfg.codec, sent[..n])
  {
    TakenIs(cancelled, sent, n);
    hide Taken, StopsAfter, Sent, Outputs, NextRequest;
    ParseAfterSent(cfg.codec, cfg.extLimit, sent, [], [], None);
    assert Sent(cfg.codec, sent) + [] == Sent(cfg.codec, sent) && sent + [] == sent;
    var out := Outputs(cfg.ext, cfg.codec, sent[..n]);
    assert out + [] == out;
  }

  lemma StoppedLeavesNothing(s: Sys)
    requires LoopPhase(s.loop, s.io.Pc(0), s.dropped) && s.loop.Stopped?
    ensures LeftToSend(s) == []
  {
  }

  /** What the loop has handled and sent is the session of Run over the same input. */
  ghost predicate RanTheSession(cfg: Config, s: Sys) {
    var cancelled := CancelledAt(|s.handled|, s.dropped != []);
    var session := SessionOver(cfg.ext, cfg.codec, cfg.extLimit, cancelled, Sent(cfg.codec, s.sent));
    && s.handled == session.handled && session.err == None
    && ByWriter(s.io.acquired, 0) == session.written
    && (s.dropped != [] ==> s.cancelled)
  }

  /** The session that a stopped loop ran. */
  lemma StoppedRan(cfg: Config, s: Sys)
    requires cfg.codec.Valid() && Good(cfg, s) && History(cfg, s) && s.loop.Stopped?
    ensures RanTheSession(cfg, s)
  {
    hide *;
    Parts(cfg, s);
    HistoryParts(cfg, s);
    LoopSends(cfg, s);
    StoppedLeavesNothing(s);
    Across(ByWriter(s.io.acquired, 0), [], []);
    StoppedWhere(cfg, s);
    SentFit(cfg, s.sent);
    SessionOfSent(cfg, s.sent, CancelledAt(|s.handled|, s.dropped != []), |s.handled|);
    DroppedMeans(s.dropped, s.cancelled);
    RanIs(cfg, s);
  }

  lemma RanIs(cfg: Config, s: Sys)
    requires var cancelled := CancelledAt(|s.handled|, s.dropped != []);
             var session := SessionOver(cfg.ext, cfg.codec, cfg.extLimit, cancelled, Sent(cfg.codec, s.sent));
             && s.handled == session.handled && session.err == None
             && ByWriter(s.io.acquired, 0) == session.written
    requires s.dropped != [] ==> s.cancelled
    ensures RanTheSession(cfg, s)
  {
    hide SessionOver, Sent, ByWriter;
  }

  /**
   The concurrent system refines the sequential session: once the loop has stopped, whatever the
   interleaving was, it has handled the requests that Run handles on the same input with the context
   cancelled at the same read, and its messages on the wire, notifications and responses, are those
   that Run writes.
   */
  lemma StoppedLoopRanTheSession(cfg: Config, run: seq<Action>, s: Sys)
    requires cfg.codec.Valid() && Reach(cfg, run) == Some(s)
    ensures s.loop.Stopped? ==> RanTheSession(cfg, s)
  {
    hide *;
    Reached(cfg, run, s);
    if s.loop.Stopped? {
      StoppedRan(cfg, s);
    }
  }

  lemma DroppedMeans(dropped: seq<Request>, cancelled: bool)
    requires Dropped(dropped, cancelled)
    ensures dropped != [] ==> cancelled
  {
  }

  lemma SentFit(cfg: Config, sent: seq<Request>)
    requires AllSentFit(cfg, sent)
    ensures forall i :: 0 <= i < |sent| ==> |cfg.codec.encodeRequest(sent[i])| < cfg.extLimit
  {
  }

  // ----- Progress ---------------------------------------------------------------------------

  /** The lock holder's or the waiting writer's next step. */
  lemma WriterCanMove(cfg: Config, io: Io) returns (step: Step)
    requires Exclusive(io) && (io.lock.Some? || !io.Pc(0).Idle?)
    ensures Enabled(cfg.codec, io, step)
    ensures || (io.lock == None && step == Acquire(0))
            || (io.lock == Some(step.w) && (step.WriteBody? || step.WriteNewline? || step.Release?))
  {
    var w := if io.lock.Some? then io.lock.value else 0;
    var p := io.Pc(w);
    assert p.Holds() <==> io.lock == Some(w);
    step := if p.Ready? then Acquire(w) else if p.Locked? then WriteBody(w)
            else if p.BodyOut? then WriteNewline(w) else Release(w);
  }

  lemma SentHasLine(codec: Codec, queue: seq<Request>)
    requires queue != []
    ensures LF in Sent(codec, queue)
  {
    SentFirst(codec, queue, []);
    var line := codec.encodeRequest(queue[0]);
    assert (line + [LF] + (Sent(codec, queue[1..]) + []))[|line|] == LF;
  }

  lemma WireHasLine(codec: Codec, ms: seq<Outgoing>, tail: bytes)
    requires ms != []
    ensures LF in Wire(codec, ms) + tail
  {
    WireFirst(codec, ms, tail);
    hide Wire;
    assert (codec.encodeOut(ms[0]) + [LF] + (Wire(codec, ms[1..]) + tail))[|codec.encodeOut(ms[0])|] == LF;
  }

  /** The loop's next message is not too long for the host. */
  predicate NextFits(cfg: Config, s: Sys) {
    s.loop.Sending? && s.loop.pending != [] ==> OutFits(cfg, s.loop.pending[0])
  }

  lemma LoopCanMove(cfg: Config, s: Sys, a: Action)
    requires NextFits(cfg, s) && s.io.Pc(0).Idle?
    requires || (a == Serve && s.loop.Handling?)
             || (a == Send && s.loop.Sending? && s.loop.pending != [])
             || (a == Return && s.loop.Sending? && s.loop.pending == [])
             || (a == LoopRead && s.loop.Reading? && LF in s.input)
    ensures Unblocked(cfg, s, a)
  {
    hide Enabled, Unread;
  }

  lemma ReadingIsAll(s: Sys, own: Phase)
    requires LoopPhase(s.loop, own, s.dropped) && !s.loop.Handling? && !s.loop.Sending? && !s.loop.Stopped?
    ensures s.loop.Reading?
  {
  }

  lemma OnTheWire(s: Sys)
    requires InFlight(s) != [] && s.io.Pc(0).Idle? && !s.loop.Handling? && !s.loop.Sending? && s.queue == []
    ensures Unseen(s) != []
  {
    hide Unseen;
  }

  lemma HostCanMove(cfg: Config, s: Sys, a: Action)
    requires s.host.Awaiting?
    requires || (a == HostRead && LF in Unread(s))
             || (&& a.Write? && LF !in Unread(s) && Enabled(cfg.codec, s.io, a.step)
                 && (a.step.Acquire? || a.step.WriteBody? || a.step.WriteNewline? || a.step.Release?))
    ensures Unblocked(cfg, s, a)
  {
    hide Unread, Enabled;
  }

  lemma InputIsSent(cfg: Config, input: bytes, queue: seq<Request>)
    requires LoopView(cfg, input, queue)
    ensures if queue == [] then LF !in input else LF in input
  {
    if queue != [] {
      SentHasLine(cfg.codec, queue);
    }
  }

  /**
   No deadlock during a call, even if every write blocks until it is read: while a call waits for an
   answer that is not lost, and the loop has not stopped, the host, the loop or a writer can take a
   step, unless the loop's next message is too long for the host.
   */
  lemma CallsMakeProgress(cfg: Config, run: seq<Action>, s: Sys) returns (a: Action)
    requires cfg.codec.Valid() && Reach(cfg, run) == Some(s)
    requires s.host.Awaiting? && InFlight(s) != [] && (s.loop.Stopped? ==> s.queue == [])
    ensures a.HostRead? || a.LoopRead? || a.Serve? || a.Send? || a.Return? || a.Write?
    ensures NextFits(cfg, s) ==> Unblocked(cfg, s, a)
  {
    hide *;
    Reached(cfg, run, s);
    Parts(cfg, s);
    UnreadIs(cfg, s);
    UnseenSlice(s);
    InputIsSent(cfg, s.input, s.queue);
    if LF in Unread(s) {
      a := HostRead;
      HostCanMove(cfg, s, a);
    } else if s.io.lock.Some? || !s.io.Pc(0).Idle? {
      var step := WriterCanMove(cfg, s.io);
      a := Write(step);
      HostCanMove(cfg, s, a);
    } else {
      if s.loop.Handling? {
        a := Serve;
      } else if s.loop.Sending? {
        a := if s.loop.pending != [] then Send else Return;
      } else {
        if s.queue == [] {
          OnTheWire(s);
          WireHasLine(cfg.codec, Unseen(s), Partial(cfg.codec, s.io));
          assert false;
        }
        ReadingIsAll(s, s.io.Pc(0));
        a := LoopRead;
      }
      if NextFits(cfg, s) {
        LoopCanMove(cfg, s, a);
      }
    }
  }

  lemma CallCanStart(cfg: Config, s: Sys, name: string, params: Option<Raw>)
    requires s.host.HostIdle? && !s.closed && s.loop.Reading? && LF !in s.input
    requires |cfg.codec.encodeRequest(NextCall(s, name, params))| < cfg.extLimit
    ensures Unblocked(cfg, s, HostCall(name, params))
  {
  }

  lemma LoopCanReturn(cfg: Config, s: Sys)
    requires s.loop.Sending? && s.loop.pending == []
    ensures s.io.Pc(0).Idle? ==> Unblocked(cfg, s, Return)
    ensures s.io.Pc(0).Unlocking? ==> Unblocked(cfg, s, Write(Release(0)))
  {
    hide Unread;
  }

  /**
   No deadlock between calls, even if every write blocks until it is read: the host can make any
   call at once, unless the loop has stopped or is still returning from the last one, which it can
   do without anyone's help. An emitter blocked in a write with the lock in its hand is not in the
   way.
   */
  lemma CallsCanStart(cfg: Config, run: seq<Action>, s: Sys, name: string, params: Option<Raw>) returns (a: Action)
    requires cfg.codec.Valid() && Reach(cfg, run) == Some(s)
    requires s.host.HostIdle? && !s.closed && !s.loop.Stopped?
    requires |cfg.codec.encodeRequest(NextCall(s, name, params))| < cfg.extLimit
    ensures a == HostCall(name, params) || a == Return || a == Write(Release(0))
    ensures Unblocked(cfg, s, a)
  {
    hide *;
    Reached(cfg, run, s);
    Parts(cfg, s);
    BetweenCalls(cfg, run, s);
    CaughtUpLoop(cfg, s);
    MatchedMeans(s.host, s.lost, InFlight(s));
    NothingQueued(s);
    InputIsSent(cfg, s.input, s.queue);
    if s.loop.Sending? {
      PendingIs(s.loop);
      LoopCanReturn(cfg, s);
      a := if s.io.Pc(0).Idle? then Return else Write(Release(0));
    } else {
      ReadingIsAll(s, s.io.Pc(0));
      CallCanStart(cfg, s, name, params);
      a := HostCall(name, params);
    }
  }
}
