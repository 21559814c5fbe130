/**
 Which calls are answered: the exact condition under which a call that waits can still be answered,
 in any state that any interleaving reaches.
 */
module Completion {
  import opened Wrappers

  import opened Envelope
  import opened Framing
  import opened Ndjson
  import opened Handlers
  import opened Dispatcher
  import opened SessionLaws
  import opened WriteLock
  import opened Harness
  import opened Concurrent
  import opened ConcurrentLaws
  import opened Histories
  import opened EndToEnd

  // ----- The condition ----------------------------------------------------------------------

  /** What the loop has to send before the awaited answer is out, that answer included. */
  function ToSend(cfg: Config, s: Sys): seq<Outgoing> {
    PendingOf(s.loop) +
    if |s.handled| < |s.sent| then
      var k := |s.handled|;
      Written(cfg.ext, k, Handle(cfg.ext, cfg.codec, k, s.sent[k]))
    else []
  }

  /** The loop will take a request that it has not read: it is not cancelled, stopped, or about to stop. */
  predicate WillRead(loop: Loop, cancelled: bool) {
    !cancelled && !loop.Stopped? && !(loop.Sending? && IsShutdown(loop.req))
  }

  /**
   The awaited call can be answered: its request was not dropped and, if it is still to be read, will
   be; it is of a kind that gets an answer; and what is sent until then fits the host's line limit.
   */
  predicate Answerable(cfg: Config, s: Sys) {
    && s.dropped == []
    && (s.queue != [] ==> WillRead(s.loop, s.cancelled))
    && (s.sent != [] ==> !Unanswerable(cfg.ext, |s.sent| - 1, s.sent[|s.sent| - 1]))
    && AllFit(cfg.codec, cfg.hostLimit, ToSend(cfg, s))
  }

  // ----- What each action does to it --------------------------------------------------------

  lemma SameAnswerable(cfg: Config, s: Sys, s': Sys)
    requires s'.loop == s.loop && s'.queue == s.queue && s'.cancelled == s.cancelled && s'.dropped == s.dropped
    requires s'.sent == s.sent && s'.handled == s.handled
    ensures Answerable(cfg, s') == Answerable(cfg, s) && ToSend(cfg, s') == ToSend(cfg, s)
  {
    hide Unanswerable, AllFit, Written, Handle, WillRead;
  }

  lemma CancelAnswerable(cfg: Config, s: Sys)
    ensures Answerable(cfg, s.(cancelled := true)) ==> Answerable(cfg, s)
  {
    var s' := s.(cancelled := true);
    assert ToSend(cfg, s') == ToSend(cfg, s);
    hide Unanswerable, AllFit, ToSend, IsShutdown;
  }

  lemma ReadAnswerable(cfg: Config, s: Sys)
    requires cfg.codec.Valid() && Good(cfg, s) && CanDo(cfg, s, LoopRead)
    ensures Answerable(cfg, Do(cfg, s, LoopRead)) <==> Answerable(cfg, s)
    ensures ToSend(cfg, Do(cfg, s, LoopRead)) == ToSend(cfg, s)
  {
    var s' := Do(cfg, s, LoopRead);
    hide *;
    Parts(cfg, s);
    LoopReadShape(cfg, s);
    ReadingAnswerable(cfg, s, s');
  }

  lemma ReadingAnswerable(cfg: Config, s: Sys, s': Sys)
    requires s.loop == Reading && s.dropped == [] && s'.sent == s.sent && s'.handled == s.handled
    requires || (s.queue == [] && s' == s.(loop := Stopped))
             || (s.queue != [] && s.cancelled && s'.dropped != [] && s'.loop == Stopped)
             || (s.queue != [] && !s.cancelled && !s'.cancelled && s'.loop.Handling? && s'.dropped == [])
    ensures Answerable(cfg, s') <==> Answerable(cfg, s)
    ensures ToSend(cfg, s') == ToSend(cfg, s)
  {
    hide Unanswerable, AllFit, Written, Handle;
  }

  lemma ReturnAnswerable(cfg: Config, s: Sys)
    requires Good(cfg, s) && CanDo(cfg, s, Return)
    ensures Answerable(cfg, Do(cfg, s, Return)) <==> Answerable(cfg, s)
    ensures ToSend(cfg, Do(cfg, s, Return)) == ToSend(cfg, s)
  {
    hide *;
    Parts(cfg, s);
    ReturnShape(cfg, s);
    ReturningAnswerable(cfg, s);
  }

  lemma ReturningAnswerable(cfg: Config, s: Sys)
    requires s.loop.Sending? && s.loop.pending == []
    ensures var s' := s.(loop := if IsShutdown(s.loop.req) then Stopped else Reading);
            (Answerable(cfg, s') <==> Answerable(cfg, s)) && ToSend(cfg, s') == ToSend(cfg, s)
  {
    hide Unanswerable, AllFit, Written, Handle, IsShutdown;
  }

  /** The request in the loop's hand is the last one sent. */
  lemma InHandIsLast(cfg: Config, s: Sys)
    requires Good(cfg, s) && s.loop.Handling?
    ensures s.sent == s.handled + [s.loop.req] && s.queue == [] && s.host == Awaiting(s.loop.req.id) && !s.lost
  {
    hide *;
    Parts(cfg, s);
    InHandIds(s.loop, s.queue);
    OnlyOne(s.host, s.lost, OutTransit(s.io, s.seen), s.loop.req.id, RequestIds(s.queue));
    assert |RequestIds(s.queue)| == |s.queue|;
    HandlingNotDropped(s.loop, s.io.Pc(0), s.dropped);
    HandlingIs(s.loop);
    ServedIsSent(s.sent, s.handled, s.loop.req, s.queue);
  }

  lemma HandlingNotDropped(loop: Loop, own: Phase, dropped: seq<Request>)
    requires LoopPhase(loop, own, dropped) && loop.Handling?
    ensures dropped == []
  {
  }

  lemma HandlingIs(l: Loop)
    requires l.Handling?
    ensures l == Handling(l.req)
  {
  }

  lemma ServeAnswerable(cfg: Config, s: Sys)
    requires Good(cfg, s) && CanDo(cfg, s, Serve)
    ensures Answerable(cfg, Do(cfg, s, Serve)) <==> Answerable(cfg, s)
    ensures ToSend(cfg, Do(cfg, s, Serve)) == ToSend(cfg, s)
  {
    hide *;
    Parts(cfg, s);
    ServeShape(cfg, s);
    InHandIsLast(cfg, s);
    ServingAnswerable(cfg, s, Do(cfg, s, Serve));
  }

  lemma ServingAnswerable(cfg: Config, s: Sys, s': Sys)
    requires s.loop.Handling? && s.sent == s.handled + [s.loop.req] && s.queue == []
    requires var k := |s.handled|;
             s' == s.(handled := s.handled + [s.loop.req], lost := s'.lost,
                      loop := Sending(s.loop.req, Written(cfg.ext, k, Handle(cfg.ext, cfg.codec, k, s.loop.req))))
    ensures Answerable(cfg, s') <==> Answerable(cfg, s)
    ensures ToSend(cfg, s') == ToSend(cfg, s)
  {
    hide Unanswerable, AllFit, Written, Handle, IsShutdown;
    assert ToSend(cfg, s') == ToSend(cfg, s);
  }

  lemma FitNext(codec: Codec, limit: nat, m: Outgoing, ms: seq<Outgoing>)
    ensures AllFit(codec, limit, [m] + ms) <==> |codec.encodeOut(m)| < limit && AllFit(codec, limit, ms)
  {
    assert AllFit(codec, limit, [m] + ms) ==> AllFit(codec, limit, ms) by {
      assert forall i :: 0 <= i < |ms| ==> ([m] + ms)[i + 1] == ms[i];
    }
    assert ([m] + ms)[0] == m;
  }

  lemma SendAnswerable(cfg: Config, s: Sys)
    requires Good(cfg, s) && CanDo(cfg, s, Send)
    ensures Answerable(cfg, Do(cfg, s, Send)) <==> Answerable(cfg, s)
    ensures |ToSend(cfg, Do(cfg, s, Send))| == |ToSend(cfg, s)| - 1
  {
    hide *;
    Parts(cfg, s);
    SendShape(cfg, s);
    FitsIs(cfg, s.loop.pending[0]);
    SendingAnswerable(cfg, s, Do(cfg, s, Send));
  }

  lemma FitsIs(cfg: Config, m: Outgoing)
    requires Proper(cfg, 0, m)
    ensures |cfg.codec.encodeOut(m)| < cfg.hostLimit
  {
  }

  lemma SendingAnswerable(cfg: Config, s: Sys, s': Sys)
    requires s.loop.Sending? && s.loop.pending != [] && |cfg.codec.encodeOut(s.loop.pending[0])| < cfg.hostLimit
    requires s' == s.(loop := Sending(s.loop.req, s.loop.pending[1..]), io := s'.io)
    ensures Answerable(cfg, s') <==> Answerable(cfg, s)
    ensures |ToSend(cfg, s')| == |ToSend(cfg, s)| - 1
  {
    hide Unanswerable, AllFit, Written, Handle, IsShutdown;
    assert ToSend(cfg, s) == [s.loop.pending[0]] + ToSend(cfg, s');
    FitNext(cfg.codec, cfg.hostLimit, s.loop.pending[0], ToSend(cfg, s'));
  }

  /** What the actions that are neither calls nor the loop's leave alone. */
  lemma OtherAnswerable(cfg: Config, s: Sys, a: Action)
    requires cfg.codec.Valid() && Good(cfg, s) && CanDo(cfg, s, a)
    requires a.HostRead? || a.Drain? || a.Close? || a.Emit? || a.Write?
    ensures Answerable(cfg, Do(cfg, s, a)) <==> Answerable(cfg, s)
    ensures ToSend(cfg, Do(cfg, s, a)) == ToSend(cfg, s)
  {
    hide *;
    Parts(cfg, s);
    match a {
      case HostRead => HostReadShape(cfg, s);
      case Emit(_, _) => WriteShape(cfg, s, a);
      case Write(_) => WriteShape(cfg, s, a);
      case _ => QuietShape(cfg, s, a);
    }
    SameAnswerable(cfg, s, Do(cfg, s, a));
  }

  lemma NoCallWhileAwaiting(cfg: Config, s: Sys, a: Action)
    requires s.host.Awaiting? && CanDo(cfg, s, a)
    ensures !a.HostCall?
  {
  }

  /** While a call waits, nothing makes it answerable, and only cancellation may make it unanswerable. */
  lemma AnswerableKept(cfg: Config, s: Sys, a: Action)
    requires cfg.codec.Valid() && Good(cfg, s) && s.host.Awaiting? && CanDo(cfg, s, a)
    ensures Answerable(cfg, Do(cfg, s, a)) ==> Answerable(cfg, s)
    ensures !a.Cancel? && Answerable(cfg, s) ==> Answerable(cfg, Do(cfg, s, a))
  {
    hide *;
    NoCallWhileAwaiting(cfg, s, a);
    match a
    case LoopRead => ReadAnswerable(cfg, s);
    case Serve => ServeAnswerable(cfg, s);
    case Send => SendAnswerable(cfg, s);
    case Return => ReturnAnswerable(cfg, s);
    case Cancel =>
      QuietShape(cfg, s, a);
      CancelAnswerable(cfg, s);
    case HostCall(_, _) =>
    case _ => OtherAnswerable(cfg, s, a);
  }

  // ----- An unanswerable call is never answered ---------------------------------------------

  /** Reading leaves the host waiting, or the message read is a response. */
  lemma HostStays(cfg: Config, s: Sys, a: Action)
    requires cfg.codec.Valid() && Good(cfg, s) && s.host.Awaiting? && CanDo(cfg, s, a)
    ensures a.HostRead? ==> s.seen < |Completed(s.io)|
    ensures Do(cfg, s, a).host == s.host || (a.HostRead? && Completed(s.io)[s.seen].Resp?)
  {
    hide *;
    Parts(cfg, s);
    NoCallWhileAwaiting(cfg, s, a);
    match a
    case HostRead =>
      HostReadShape(cfg, s);
      HostAfterReading(s.host, Completed(s.io)[s.seen]);
    case LoopRead => LoopReadShape(cfg, s);
    case Serve => ServeShape(cfg, s);
    case Send => SendShape(cfg, s);
    case Return => ReturnShape(cfg, s);
    case Emit(_, _) => WriteShape(cfg, s, a);
    case Write(_) => WriteShape(cfg, s, a);
    case HostCall(_, _) =>
    case _ => QuietShape(cfg, s, a);
  }

  lemma OwnMeans(cfg: Config, s: Sys, r: Response)
    requires IsOwnAnswer(cfg, s, r)
    ensures s.sent != [] && |s.sent| <= |s.handled|
    ensures !Unanswerable(cfg.ext, |s.sent| - 1, s.sent[|s.sent| - 1])
  {
    var k := |s.sent| - 1;
    OneAnswer(cfg.ext, cfg.codec, k, s.sent[k]);
    hide Handle, Unanswerable;
  }

  lemma AllHandled(sent: seq<Request>, handled: seq<Request>, l: Loop, dropped: seq<Request>, queue: seq<Request>)
    requires Accounted(sent, handled, l, dropped, queue) && |sent| <= |handled|
    ensures sent == handled && dropped == [] && queue == [] && InHand(l) == []
  {
    assert |sent| == |handled| + |InHand(l)| + |dropped| + |queue|;
  }

  /** If a response is on the wire, the rest of what the loop is about to write holds no answer. */
  lemma RestHasNoAnswer(s: Sys)
    requires s.seen < |Completed(s.io)| && Completed(s.io)[s.seen].Resp? && |InFlight(s)| <= 1
    ensures PhaseAnswers(s.io.Pc(0)) == [] && Answers(PendingOf(s.loop)) == []
  {
    UnseenIs(s);
    AnswerIn(Unseen(s), 0);
    NoIds();
    hide Unseen, Completed, Answers;
    assert |Ids(Answers(Unseen(s)))| >= 1;
  }

  lemma AtMostOne(host: Host, lost: bool, transit: seq<int>)
    requires Matched(host, lost, transit)
    ensures |transit| <= 1
  {
  }

  lemma NothingToSend(cfg: Config, s: Sys)
    requires s.handled == s.sent && s.dropped == [] && s.queue == [] && PendingOf(s.loop) == [] && s.sent != []
    requires !Unanswerable(cfg.ext, |s.sent| - 1, s.sent[|s.sent| - 1])
    ensures Answerable(cfg, s)
  {
    hide Unanswerable, IsShutdown;
  }

  /** A response on the wire means that the call was answerable. */
  lemma AnsweredIsAnswerable(cfg: Config, s: Sys)
    requires Good(cfg, s) && History(cfg, s) && s.host.Awaiting? && s.seen < |Completed(s.io)|
    requires Completed(s.io)[s.seen].Resp?
    ensures Answerable(cfg, s)
  {
    hide *;
    Parts(cfg, s);
    NextResponseIsOwn(cfg, s);
    OwnMeans(cfg, s, Completed(s.io)[s.seen].response);
    AllHandled(s.sent, s.handled, s.loop, s.dropped, s.queue);
    InFlightIs(s);
    AtMostOne(s.host, s.lost, InFlight(s));
    RestHasNoAnswer(s);
    LeftHasNoAnswer(s);
    LoopSends(cfg, s);
    NothingLeft(cfg.ext, cfg.codec, s.handled, ByWriter(s.io.acquired, 0), LeftToSend(s));
    LeftIs(s);
    BothEmpty(Waiting(s.io.Pc(0)), PendingOf(s.loop));
    NothingToSend(cfg, s);
  }

  lemma LeftIs(s: Sys)
    ensures LeftToSend(s) == Waiting(s.io.Pc(0)) + PendingOf(s.loop)
  {
  }

  lemma ReachSplit(cfg: Config, run: seq<Action>, more: seq<Action>, t: Sys) returns (u: Sys)
    requires more != [] && Reach(cfg, run + more) == Some(t)
    ensures var a := more[|more| - 1];
            Reach(cfg, run + more[..|more| - 1]) == Some(u) && CanDo(cfg, u, a) && Do(cfg, u, a) == t
  {
    hide *;
    var all := run + more;
    ReachStep(cfg, all);
    assert all[..|all| - 1] == run + more[..|more| - 1] && all[|all| - 1] == more[|more| - 1];
    u := Reach(cfg, all[..|all| - 1]).value;
  }

  /** Whatever happens, a call that is not answerable waits on. */
  lemma {:induction false} NeverAnswered(cfg: Config, run: seq<Action>, s: Sys, more: seq<Action>, t: Sys)
    requires cfg.codec.Valid() && Reach(cfg, run) == Some(s) && Reach(cfg, run + more) == Some(t)
    requires s.host.Awaiting? && !Answerable(cfg, s)
    ensures t.host == s.host && !Answerable(cfg, t)
    decreases |more|
  {
    hide *;
    if more == [] {
      assert run + more == run;
    } else {
      var before, a := more[..|more| - 1], more[|more| - 1];
      var u := ReachSplit(cfg, run, more, t);
      NeverAnswered(cfg, run, s, before, u);
      Reached(cfg, run + before, u);
      AnswerableKept(cfg, u, a);
      HostStays(cfg, u, a);
      if a.HostRead? && Completed(u.io)[u.seen].Resp? {
        AnsweredIsAnswerable(cfg, u);
      }
    }
  }

  // ----- An answerable call can complete ----------------------------------------------------

  /** Actions of the parties to a call: the host that waits, the loop, and whoever holds the lock. */
  predicate Internal(a: Action) {
    a.HostRead? || a.LoopRead? || a.Serve? || a.Send? || a.Return? || a.Write?
  }

  /** Steps left to the lock holder; completing its record leaves the host one more message to read. */
  function HolderSteps(io: Io): nat {
    if io.lock == None then 0
    else match io.Pc(io.lock.value)
         case Locked(_) => 4
         case BodyOut(_) => 3
         case Unlocking => 1
         case _ => 0
  }

  function WaitingSteps(p: Phase): nat {
    if p.Ready? then 5 else 0
  }

  function LoopSteps(loop: Loop, queue: seq<Request>): nat {
    (if queue == [] then 0 else 3) + (if loop.Handling? then 2 else if loop.Sending? then 1 else 0)
  }

  function IoSteps(io: Io): nat {
    |Completed(io)| + HolderSteps(io) + WaitingSteps(io.Pc(0))
  }

  /** An upper bound on the steps that a call still takes, if emitters start nothing new. */
  function Distance(cfg: Config, s: Sys): int {
    IoSteps(s.io) - s.seen + 6 * |ToSend(cfg, s)| + LoopSteps(s.loop, s.queue)
  }

  lemma DistanceIsNat(cfg: Config, s: Sys)
    requires s.seen <= |Completed(s.io)|
    ensures Distance(cfg, s) >= 0
  {
    hide ToSend, Completed;
  }

  /** A step of the lock holder, or of the loop's writer taking a free lock, is one step less. */
  lemma WriteIsCloser(codec: Codec, io: Io, step: Step)
    requires Exclusive(io) && Enabled(codec, io, step)
    requires || (io.lock == None && step == Acquire(0))
             || (io.lock == Some(step.w) && (step.WriteBody? || step.WriteNewline? || step.Release?))
    ensures IoSteps(Apply(codec, io, step)) < IoSteps(io)
  {
    CompletedStep(codec, io, step);
    PhaseStep(codec, io, step, 0);
    assert |Completing(io, step)| == if step.WriteNewline? then 1 else 0;
    hide Completed, Completing;
  }

  lemma WriteDistance(cfg: Config, s: Sys, step: Step)
    requires cfg.codec.Valid() && Good(cfg, s) && CanDo(cfg, s, Write(step))
    requires || (s.io.lock == None && step == Acquire(0))
             || (s.io.lock == Some(step.w) && (step.WriteBody? || step.WriteNewline? || step.Release?))
    ensures Distance(cfg, Do(cfg, s, Write(step))) < Distance(cfg, s)
  {
    hide *;
    Parts(cfg, s);
    WriteShape(cfg, s, Write(step));
    OtherAnswerable(cfg, s, Write(step));
    WriteIsCloser(cfg.codec, s.io, step);
    Closer(cfg, s, Do(cfg, s, Write(step)));
  }

  lemma Closer(cfg: Config, s: Sys, s': Sys)
    requires IoSteps(s'.io) - s'.seen + 6 * |ToSend(cfg, s')| + LoopSteps(s'.loop, s'.queue) <
             IoSteps(s.io) - s.seen + 6 * |ToSend(cfg, s)| + LoopSteps(s.loop, s.queue)
    ensures Distance(cfg, s') < Distance(cfg, s)
  {
    hide IoSteps, ToSend, LoopSteps;
  }

  lemma HostReadDistance(cfg: Config, s: Sys)
    requires cfg.codec.Valid() && Good(cfg, s) && CanDo(cfg, s, HostRead)
    ensures Distance(cfg, Do(cfg, s, HostRead)) < Distance(cfg, s)
  {
    hide *;
    Parts(cfg, s);
    HostReadShape(cfg, s);
    OtherAnswerable(cfg, s, HostRead);
    Closer(cfg, s, Do(cfg, s, HostRead));
  }

  lemma StepsOfLoop(loop: Loop, queue: seq<Request>)
    ensures LoopSteps(loop, queue) ==
            (if queue == [] then 0 else 3) + (if loop.Handling? then 2 else if loop.Sending? then 1 else 0)
  {
  }

  /** The loop starting to send costs less than the message it takes off its hands. */
  lemma BeginSteps(codec: Codec, io: Io, m: Outgoing)
    requires Exclusive(io) && io.Pc(0).Idle?
    ensures IoSteps(Apply(codec, io, Begin(0, m))) == IoSteps(io) + 5
  {
    CompletedStep(codec, io, Begin(0, m));
    assert io.Pc(0).Holds() <==> io.lock == Some(0);
    hide Completed;
  }

  /** Emptying the queue is all that a read of the only request queued does to it. */
  lemma OnlyQueued(cfg: Config, s: Sys)
    requires Good(cfg, s) && s.queue != []
    ensures |s.queue| == 1
  {
    hide *;
    Parts(cfg, s);
    AtMostOne(s.host, s.lost, OutTransit(s.io, s.seen) + InTransit(s.loop, s.queue));
    QueueInTransit(s.loop, s.queue);
    LengthOf(OutTransit(s.io, s.seen), InTransit(s.loop, s.queue));
  }

  lemma QueueInTransit(l: Loop, queue: seq<Request>)
    ensures |InTransit(l, queue)| >= |queue|
  {
    hide LoopIds;
  }

  lemma LengthOf<T>(a: seq<T>, b: seq<T>)
    ensures |a + b| == |a| + |b|
  {
  }

  lemma LoopDistance(cfg: Config, s: Sys, a: Action)
    requires cfg.codec.Valid() && Good(cfg, s) && CanDo(cfg, s, a) && (a.Serve? || a.Send? || a.Return?)
    ensures Distance(cfg, Do(cfg, s, a)) < Distance(cfg, s)
  {
    hide *;
    Parts(cfg, s);
    var s' := Do(cfg, s, a);
    StepsOfLoop(s.loop, s.queue);
    StepsOfLoop(s'.loop, s'.queue);
    match a {
      case Serve =>
        ServeShape(cfg, s);
        ServeAnswerable(cfg, s);
      case Send =>
        SendShape(cfg, s);
        SendAnswerable(cfg, s);
        BeginSteps(cfg.codec, s.io, s.loop.pending[0]);
      case Return =>
        ReturnShape(cfg, s);
        ReturnAnswerable(cfg, s);
    }
    Closer(cfg, s, s');
  }

  lemma LoopReadDistance(cfg: Config, s: Sys)
    requires cfg.codec.Valid() && Good(cfg, s) && CanDo(cfg, s, LoopRead) && s.queue != []
    ensures Distance(cfg, Do(cfg, s, LoopRead)) < Distance(cfg, s)
  {
    hide *;
    Parts(cfg, s);
    var s' := Do(cfg, s, LoopRead);
    StepsOfLoop(s.loop, s.queue);
    StepsOfLoop(s'.loop, s'.queue);
    LoopReadShape(cfg, s);
    OnlyQueued(cfg, s);
    ReadAnswerable(cfg, s);
    Closer(cfg, s, s');
  }

  lemma AnswerableMeans(cfg: Config, s: Sys)
    requires Answerable(cfg, s)
    ensures s.dropped == [] && (s.queue != [] ==> !s.loop.Stopped?) && NextFits(cfg, s)
    ensures s.sent != [] ==> !Unanswerable(cfg.ext, |s.sent| - 1, s.sent[|s.sent| - 1])
  {
    hide Unanswerable, Written, Handle;
    if s.loop.Sending? && s.loop.pending != [] {
      assert ToSend(cfg, s)[0] == s.loop.pending[0];
    }
  }

  lemma LostIs(cfg: Config, s: Sys, id: int)
    requires 1 <= id == |s.sent| && CallLost(cfg, s, id) && s.dropped == []
    ensures Unanswerable(cfg.ext, |s.sent| - 1, s.sent[|s.sent| - 1])
  {
    hide Unanswerable;
  }

  /** The step that is next: of the host, of the lock holder, of the waiting writer, or of the loop. */
  lemma NextStep(cfg: Config, run: seq<Action>, s: Sys) returns (a: Action)
    requires cfg.codec.Valid() && Reach(cfg, run) == Some(s)
    requires s.host.Awaiting? && Answerable(cfg, s)
    ensures Internal(a) && Unblocked(cfg, s, a) && Distance(cfg, Do(cfg, s, a)) < Distance(cfg, s)
  {
    hide *;
    Reached(cfg, run, s);
    Parts(cfg, s);
    AnswerableMeans(cfg, s);
    ResponsesMatchCalls(cfg, run, s);
    if CallLost(cfg, s, s.host.id) {
      LostIs(cfg, s, s.host.id);
    }
    UnreadIs(cfg, s);
    UnseenSlice(s);
    InputIsSent(cfg, s.input, s.queue);
    if LF in Unread(s) {
      a := HostRead;
      HostCanMove(cfg, s, a);
      UnblockedIs(cfg, s, a);
      HostReadDistance(cfg, s);
    } else if s.io.lock.Some? || !s.io.Pc(0).Idle? {
      var step := WriterCanMove(cfg, s.io);
      a := Write(step);
      HostCanMove(cfg, s, a);
      UnblockedIs(cfg, s, a);
      WriteDistance(cfg, s, step);
    } else if s.loop.Handling? || s.loop.Sending? {
      a := if s.loop.Handling? then Serve else if s.loop.pending != [] then Send else Return;
      LoopCanMove(cfg, s, a);
      UnblockedIs(cfg, s, a);
      LoopDistance(cfg, s, a);
    } else {
      if s.queue == [] {
        OnTheWire(s);
        WireHasLine(cfg.codec, Unseen(s), Partial(cfg.codec, s.io));
        assert false;
      }
      ReadingIsAll(s, s.io.Pc(0));
      a := LoopRead;
      LoopCanMove(cfg, s, a);
      UnblockedIs(cfg, s, a);
      LoopReadDistance(cfg, s);
    }
    InternalIs(a);
  }

  lemma UnblockedIs(cfg: Config, s: Sys, a: Action)
    requires Unblocked(cfg, s, a)
    ensures CanDo(cfg, s, a)
  {
  }

  lemma InternalIs(a: Action)
    ensures Internal(a) <==> a.HostRead? || a.LoopRead? || a.Serve? || a.Send? || a.Return? || a.Write?
  {
  }

  /** From s to t by internal actions only, none of which has to wait for a pipe. */
  ghost predicate Leads(cfg: Config, s: Sys, more: seq<Action>, t: Sys)
    decreases |more|
  {
    if more == [] then t == s
    else Internal(more[0]) && Unblocked(cfg, s, more[0]) && Leads(cfg, Do(cfg, s, more[0]), more[1..], t)
  }

  lemma LeadsNext(cfg: Config, s: Sys, a: Action, more: seq<Action>, t: Sys)
    requires Internal(a) && Unblocked(cfg, s, a) && Leads(cfg, Do(cfg, s, a), more, t)
    ensures Leads(cfg, s, [a] + more, t)
  {
    hide Unblocked, Do, CanDo, Internal;
    assert ([a] + more)[1..] == more;
  }

  lemma LeadsOnce(cfg: Config, s: Sys, a: Action)
    requires Internal(a) && Unblocked(cfg, s, a)
    ensures Leads(cfg, s, [a], Do(cfg, s, a))
  {
    hide Unblocked, Do, CanDo, Internal;
    assert [a][1..] == [];
  }

  /** Internal actions send no request and close nothing. */
  lemma InternalFrame(cfg: Config, s: Sys, a: Action)
    requires cfg.codec.Valid() && Good(cfg, s) && CanDo(cfg, s, a) && Internal(a)
    ensures !a.Cancel?
    ensures var s' := Do(cfg, s, a); s'.sent == s.sent && s'.nextID == s.nextID && s'.closed == s.closed
  {
    hide *;
    InternalIs(a);
    Parts(cfg, s);
    match a
    case HostRead => HostReadShape(cfg, s);
    case LoopRead => LoopReadShape(cfg, s);
    case Serve => ServeShape(cfg, s);
    case Send => SendShape(cfg, s);
    case Return => ReturnShape(cfg, s);
    case _ => WriteShape(cfg, s, a);
  }

  lemma NotStuck(cfg: Config, run: seq<Action>, s: Sys)
    requires cfg.codec.Valid() && Reach(cfg, run) == Some(s)
    ensures s.host != Stuck
  {
    hide *;
    Reached(cfg, run, s);
    Parts(cfg, s);
    MatchedMeans(s.host, s.lost, InFlight(s));
  }

  /**
   From every state in which an answerable call waits, internal steps lead to the call's return, even
   over blocking pipes: the host is idle, has read its own answer, and has stored or drained all that
   came with it.
   */
  lemma {:induction false} CallCompletes(cfg: Config, run: seq<Action>, s: Sys) returns (more: seq<Action>, t: Sys)
    requires cfg.codec.Valid() && Reach(cfg, run) == Some(s)
    requires s.host.Awaiting? && Answerable(cfg, s)
    ensures Leads(cfg, s, more, t) && Reach(cfg, run + more) == Some(t)
    ensures t.host == HostIdle && CaughtUp(cfg, t)
    ensures t.sent == s.sent && t.nextID == s.nextID && t.closed == s.closed
    decreases Distance(cfg, s)
  {
    hide *;
    Reached(cfg, run, s);
    var a := NextStep(cfg, run, s);
    UnblockedIs(cfg, s, a);
    var s1 := Do(cfg, s, a);
    ReachNext(cfg, run, s, a);
    InternalFrame(cfg, s, a);
    Reached(cfg, run + [a], s1);
    NotStuck(cfg, run + [a], s1);
    DistanceIsNat(cfg, s);
    DistanceIsNat(cfg, s1);
    if s1.host.HostIdle? {
      more, t := [a], s1;
      LeadsOnce(cfg, s, a);
      BetweenCalls(cfg, run + [a], s1);
    } else {
      AnswerableKept(cfg, s, a);
      more, t := CallCompletes(cfg, run + [a], s1);
      LeadsNext(cfg, s, a, more, t);
      Across(run, [a], more);
      more := [a] + more;
    }
  }

  // ----- The exact condition ----------------------------------------------------------------

  /** The continuation of a run ends in a state in which the call has returned. */
  ghost predicate ReturnsIn(cfg: Config, run: seq<Action>, more: seq<Action>, t: Sys) {
    Reach(cfg, run + more) == Some(t) && t.host.HostIdle?
  }

  /** A waiting call returns in some continuation of the run if and only if it is answerable. */
  lemma AnsweredIff(cfg: Config, run: seq<Action>, s: Sys)
    requires cfg.codec.Valid() && Reach(cfg, run) == Some(s) && s.host.Awaiting?
    ensures (exists more, t :: ReturnsIn(cfg, run, more, t)) <==> Answerable(cfg, s)
  {
    hide Reach, Answerable, Codec.Valid, CaughtUp, Leads;
    if Answerable(cfg, s) {
      var more, t := CallCompletes(cfg, run, s);
      assert ReturnsIn(cfg, run, more, t);
    } else {
      forall more, t
        ensures !ReturnsIn(cfg, run, more, t)
      {
        if Reach(cfg, run + more) == Some(t) {
          NeverAnswered(cfg, run, s, more, t);
        }
      }
    }
  }

  // ----- How a wait can end without an answer -----------------------------------------------

  /** The request of the awaited call is left unread by a loop that has stopped. */
  predicate Orphaned(s: Sys) {
    s.loop.Stopped? && s.queue != []
  }

  /**
   Where nobody can move any more, a call that still waits is lost, or orphaned, or its answer is too
   long for the host, or behind a message that is.
   */
  lemma UnansweredEnds(cfg: Config, run: seq<Action>, s: Sys)
    requires cfg.codec.Valid() && Reach(cfg, run) == Some(s) && s.host.Awaiting?
    requires forall a :: Internal(a) ==> !Unblocked(cfg, s, a)
    ensures 1 <= s.host.id == |s.sent|
    ensures CallLost(cfg, s, s.host.id) || Orphaned(s) || !NextFits(cfg, s)
  {
    hide Reach, Unblocked, CallLost, NextFits, InFlight, Codec.Valid;
    ResponsesMatchCalls(cfg, run, s);
    if !CallLost(cfg, s, s.host.id) && !Orphaned(s) {
      var a := CallsMakeProgress(cfg, run, s);
      InternalIs(a);
    }
  }

  /** None of the three is ever answered, whether or not others can still move. */
  lemma EndsAreFinal(cfg: Config, run: seq<Action>, s: Sys, more: seq<Action>, t: Sys)
    requires cfg.codec.Valid() && Reach(cfg, run) == Some(s) && Reach(cfg, run + more) == Some(t)
    requires s.host.Awaiting? && 1 <= s.host.id == |s.sent|
    requires CallLost(cfg, s, s.host.id) || Orphaned(s) || !NextFits(cfg, s)
    ensures t.host == s.host
  {
    hide *;
    if Answerable(cfg, s) {
      AnswerableMeans(cfg, s);
      OrphanedIs(s);
      LostIs(cfg, s, s.host.id);
    } else {
      NeverAnswered(cfg, run, s, more, t);
    }
  }

  lemma OrphanedIs(s: Sys)
    ensures Orphaned(s) <==> s.loop.Stopped? && s.queue != []
  {
  }

  // ..... A call after shutdown

  function Longest(codec: Codec, ms: seq<Outgoing>): (n: nat)
    ensures AllFit(codec, n + 1, ms)
  {
    if ms == [] then 0
    else
      var rest, own := Longest(codec, ms[1..]), |codec.encodeOut(ms[0])|;
      assert forall i :: 1 <= i < |ms| ==> ms[i] == ms[1..][i - 1];
      if own <= rest then rest else own
  }

  const SHUTDOWN_CALL := Request(METHOD_SHUTDOWN, None, 1)

  lemma FirstIsAnswerable(cfg: Config, s: Sys)
    requires s == INITIAL.(nextID := 1, host := Awaiting(1), input := s.input, queue := [SHUTDOWN_CALL],
                           sent := [SHUTDOWN_CALL])
    requires AllFit(cfg.codec, cfg.hostLimit, Written(cfg.ext, 0, Handle(cfg.ext, cfg.codec, 0, SHUTDOWN_CALL)))
    ensures Answerable(cfg, s)
  {
    hide Written, Handle, AllFit;
    Across(Written(cfg.ext, 0, Handle(cfg.ext, cfg.codec, 0, SHUTDOWN_CALL)), [], []);
    assert ToSend(cfg, s) == Written(cfg.ext, 0, Handle(cfg.ext, cfg.codec, 0, SHUTDOWN_CALL));
  }

  lemma CaughtUpMeans(cfg: Config, s: Sys)
    requires CaughtUp(cfg, s)
    ensures s.handled == s.sent
  {
    hide Outputs, ByWriter, Get, ParamsOf;
  }

  lemma AfterShutdown(handled: seq<Request>, loop: Loop)
    requires ShutdownLast(handled, loop) && handled != [] && IsShutdown(handled[|handled| - 1])
    ensures loop.Stopped? || (loop.Sending? && IsShutdown(loop.req))
  {
    hide IsShutdown;
  }

  lemma Released(codec: Codec, io: Io)
    requires io.Pc(0).Unlocking?
    ensures Enabled(codec, io, Release(0)) && Apply(codec, io, Release(0)).Pc(0).Idle?
  {
  }

  lemma NoPending(l: Loop)
    requires PendingOf(l) == []
    ensures l.Sending? ==> l.pending == []
  {
  }

  lemma IdleWhenStopped(loop: Loop, own: Phase, dropped: seq<Request>)
    requires LoopPhase(loop, own, dropped) && loop.Stopped?
    ensures own.Idle?
  {
  }

  /** After the answer to a shutdown, the loop can return. */
  lemma LoopReturns(cfg: Config, run: seq<Action>, s: Sys) returns (run': seq<Action>, t: Sys)
    requires cfg.codec.Valid() && Reach(cfg, run) == Some(s) && s.host.HostIdle? && CaughtUp(cfg, s)
    requires s.sent != [] && IsShutdown(s.sent[|s.sent| - 1])
    ensures Reach(cfg, run') == Some(t) && t.loop.Stopped?
    ensures t.host == s.host && t.sent == s.sent && t.nextID == s.nextID && t.closed == s.closed
    ensures t.cancelled == s.cancelled && t.queue == s.queue
  {
    hide *;
    Reached(cfg, run, s);
    Parts(cfg, s);
    HistoryParts(cfg, s);
    CaughtUpMeans(cfg, s);
    CaughtUpLoop(cfg, s);
    AfterShutdown(s.handled, s.loop);
    NoPending(s.loop);
    run', t := run, s;
    if s.io.Pc(0).Unlocking? && s.loop.Sending? {
      LoopCanReturn(cfg, s);
      UnblockedIs(cfg, s, Write(Release(0)));
      WriteShape(cfg, s, Write(Release(0)));
      Released(cfg.codec, s.io);
      ReachNext(cfg, run, s, Write(Release(0)));
      run', t := run + [Write(Release(0))], Do(cfg, s, Write(Release(0)));
    }
    if t.loop.Sending? {
      LoopCanReturn(cfg, t);
      UnblockedIs(cfg, t, Return);
      Reached(cfg, run', t);
      Parts(cfg, t);
      ReturnShape(cfg, t);
      ReachNext(cfg, run', t, Return);
      run', t := run' + [Return], Do(cfg, t, Return);
    }
  }

  lemma CanCall(cfg: Config, s: Sys, name: string, params: Option<Raw>)
    requires s.host.HostIdle? && !s.closed && |cfg.codec.encodeRequest(NextCall(s, name, params))| < cfg.extLimit
    ensures CanDo(cfg, s, HostCall(name, params))
  {
  }

  lemma NextCallIs(s: Sys, name: string, params: Option<Raw>)
    ensures NextCall(s, name, params) == Request(name, params, s.nextID + 1)
  {
  }

  lemma NotLost(cfg: Config, s: Sys, id: int)
    requires 1 <= id <= |s.sent| && |s.handled| < |s.sent| && s.dropped == []
    ensures !CallLost(cfg, s, id)
  {
    hide Unanswerable;
  }

  lemma IdleQueue(cfg: Config, run: seq<Action>, s: Sys)
    requires cfg.codec.Valid() && Reach(cfg, run) == Some(s) && s.host.HostIdle?
    ensures s.queue == [] && s.dropped == []
  {
    hide *;
    Reached(cfg, run, s);
    Parts(cfg, s);
    MatchedMeans(s.host, s.lost, InFlight(s));
    NothingQueued(s);
    IdleMeans(cfg, s);
  }

  /** A session of one shutdown call, answered, after which the loop has returned. */
  lemma ShutdownSession(cfg: Config) returns (run: seq<Action>, s: Sys)
    requires cfg.codec.Valid() && |cfg.codec.encodeRequest(SHUTDOWN_CALL)| < cfg.extLimit
    requires AllFit(cfg.codec, cfg.hostLimit, Written(cfg.ext, 0, Handle(cfg.ext, cfg.codec, 0, SHUTDOWN_CALL)))
    ensures Reach(cfg, run) == Some(s) && s.loop.Stopped? && s.host == HostIdle
    ensures s.sent == [SHUTDOWN_CALL] && s.nextID == 1 && !s.closed
  {
    hide *;
    ShutdownIs();
    InitialIsOpen();
    var s1 := FirstCall(cfg, METHOD_SHUTDOWN, None);
    FirstIsAnswerable(cfg, s1);
    var more, s2 := CallCompletes(cfg, [HostCall(METHOD_SHUTDOWN, None)], s1);
    run, s := LoopReturns(cfg, [HostCall(METHOD_SHUTDOWN, None)] + more, s2);
  }

  /** A call to a loop that has stopped. */
  lemma CallToStopped(cfg: Config, run: seq<Action>, s: Sys, name: string, params: Option<Raw>) returns (t: Sys)
    requires cfg.codec.Valid() && Reach(cfg, run) == Some(s) && s.host == HostIdle && !s.closed && s.loop.Stopped?
    requires |cfg.codec.encodeRequest(Request(name, params, s.nextID + 1))| < cfg.extLimit
    ensures Reach(cfg, run + [HostCall(name, params)]) == Some(t)
    ensures t.host == Awaiting(s.nextID + 1) && t.sent == s.sent + [Request(name, params, s.nextID + 1)]
    ensures Orphaned(t) && t.dropped == [] && |t.handled| < |t.sent|
  {
    hide *;
    IdleQueue(cfg, run, s);
    NextCallIs(s, name, params);
    CanCall(cfg, s, name, params);
    CallShape(cfg, s, name, params);
    ReachNext(cfg, run, s, HostCall(name, params));
    t := Do(cfg, s, HostCall(name, params));
    Reached(cfg, run, s);
    Parts(cfg, s);
    HandledWithinSent(s.sent, s.handled, s.loop, s.dropped, s.queue);
    OrphanedIs(t);
  }

  lemma OrphanedIsUnanswerable(cfg: Config, s: Sys)
    requires Orphaned(s)
    ensures !Answerable(cfg, s)
  {
    hide Unanswerable, ToSend, AllFit;
  }

  /**
   Any call after a shutdown is orphaned, with any codec and any extension: it waits, its request is
   under way and it is not lost; but nobody will read it, and no continuation answers it.
   */
  lemma CallAfterShutdownIsOrphaned(codec: Codec, ext: Extension, name: string, params: Option<Raw>)
    returns (cfg: Config, run: seq<Action>, s: Sys)
    requires codec.Valid()
    ensures cfg.codec == codec && cfg.ext == ext && Reach(cfg, run) == Some(s)
    ensures s.host == Awaiting(2) && s.sent == [SHUTDOWN_CALL, Request(name, params, 2)]
    ensures Orphaned(s) && !CallLost(cfg, s, 2) && InFlight(s) == [2] && !Answerable(cfg, s)
  {
    hide *;
    var second := Request(name, params, 2);
    var written := Written(ext, 0, Handle(ext, codec, 0, SHUTDOWN_CALL));
    cfg := Config(codec, ext, |codec.encodeRequest(SHUTDOWN_CALL)| + |codec.encodeRequest(second)| + 1,
                  Longest(codec, written) + 1);
    var before, s0 := ShutdownSession(cfg);
    s := CallToStopped(cfg, before, s0, name, params);
    run := before + [HostCall(name, params)];
    assert s.sent == [SHUTDOWN_CALL] + [second];
    NotLost(cfg, s, 2);
    ResponsesMatchCalls(cfg, run, s);
    OrphanedIsUnanswerable(cfg, s);
  }

  lemma ShutdownIs()
    ensures IsShutdown(SHUTDOWN_CALL) && SHUTDOWN_CALL == Request(METHOD_SHUTDOWN, None, 1)
  {
  }

  lemma InitialIsOpen()
    ensures !INITIAL.closed
  {
  }
}
