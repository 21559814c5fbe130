/**
 What the histories kept with the states of the whole system say, in every interleaving: how calls
 are numbered, why the loop has stopped, and why an answer is missing.
 */
module Histories {
  import opened Wrappers

  import opened Envelope
  import opened Handlers
  import opened Dispatcher
  import opened SessionLaws
  import opened WriteLock
  import opened Concurrent
  import opened ConcurrentLaws

  // ----- The invariant ----------------------------------------------------------------------

  /** Calls are numbered from 1, and the host awaits the last one. */
  ghost predicate Numbered(sent: seq<Request>, nextID: int, host: Host) {
    && nextID == |sent|
    && (forall i :: 0 <= i < |sent| ==> sent[i].id == i + 1)
    && (host.Awaiting? ==> sent != [] && host.id == nextID)
  }

  ghost predicate AllSentFit(cfg: Config, sent: seq<Request>) {
    forall i :: 0 <= i < |sent| ==> |cfg.codec.encodeRequest(sent[i])| < cfg.extLimit
  }

  /** A shutdown request is the last one handled: the loop is answering it, or has stopped. */
  ghost predicate ShutdownLast(handled: seq<Request>, loop: Loop) {
    forall i :: 0 <= i < |handled| && IsShutdown(handled[i]) ==>
      i == |handled| - 1 && (loop.Stopped? || (loop.Sending? && loop.req == handled[i]))
  }

  /** While the loop sends, it is for the last request handled. */
  ghost predicate SendingLast(handled: seq<Request>, loop: Loop) {
    loop.Sending? ==> handled != [] && handled[|handled| - 1] == loop.req
  }

  /** The loop stops after cancellation, after a shutdown, or at the end of a closed input. */
  ghost predicate StoppedBecause(loop: Loop, dropped: seq<Request>, handled: seq<Request>, queue: seq<Request>,
                                 closed: bool)
  {
    loop.Stopped? ==> dropped != [] || EndsInShutdown(handled) || (queue == [] && closed)
  }

  ghost predicate Dropped(dropped: seq<Request>, cancelled: bool) {
    |dropped| <= 1 && (dropped != [] ==> cancelled)
  }

  /** The last request sent has been handled, and it is the one kind that gets no answer. */
  predicate LastUnanswerable(ext: Extension, sent: seq<Request>, handled: seq<Request>) {
    sent != [] && handled == sent && Unanswerable(ext, |sent| - 1, sent[|sent| - 1])
  }

  /** An answer is lost exactly when the request was read after cancellation, or gets no answer. */
  ghost predicate LostIff(ext: Extension, lost: bool, sent: seq<Request>, handled: seq<Request>,
                          dropped: seq<Request>)
  {
    lost <==> dropped != [] || LastUnanswerable(ext, sent, handled)
  }

  ghost predicate History(cfg: Config, s: Sys) {
    && Numbered(s.sent, s.nextID, s.host)
    && AllSentFit(cfg, s.sent)
    && ShutdownLast(s.handled, s.loop)
    && SendingLast(s.handled, s.loop)
    && StoppedBecause(s.loop, s.dropped, s.handled, s.queue, s.closed)
    && Dropped(s.dropped, s.cancelled)
    && LostIff(cfg.ext, s.lost, s.sent, s.handled, s.dropped)
  }

  // ----- Actions that leave the histories alone ---------------------------------------------

  /** The histories are the same, and so is what the loop is doing. */
  ghost predicate SameHistory(s: Sys, s': Sys) {
    && s'.sent == s.sent && s'.nextID == s.nextID && s'.handled == s.handled && s'.dropped == s.dropped
    && s'.queue == s.queue && s'.lost == s.lost
    && (s'.loop == s.loop || (s.loop.Sending? && s'.loop.Sending? && s'.loop.req == s.loop.req))
    && (s'.host.Awaiting? ==> s'.host == s.host)
    && (s.cancelled ==> s'.cancelled) && (s.closed ==> s'.closed)
  }

  lemma SameKept(cfg: Config, s: Sys, s': Sys)
    requires History(cfg, s) && SameHistory(s, s')
    ensures History(cfg, s')
  {
    hide IsShutdown, EndsInShutdown, LastUnanswerable;
  }

  lemma HostAfterIs(host: Host, m: Outgoing)
    ensures HostAfter(host, m).Awaiting? ==> HostAfter(host, m) == host
  {
  }

  lemma IsSame(s: Sys, s': Sys)
    requires s' == s.(consumed := s'.consumed, seen := s'.seen, host := s'.host, stored := s'.stored,
                      drained := s'.drained, closed := s'.closed, cancelled := s'.cancelled, io := s'.io,
                      loop := s'.loop)
    requires s'.loop == s.loop || (s.loop.Sending? && s'.loop.Sending? && s'.loop.req == s.loop.req)
    requires s'.host.Awaiting? ==> s'.host == s.host
    requires (s.cancelled ==> s'.cancelled) && (s.closed ==> s'.closed)
    ensures SameHistory(s, s')
  {
  }

  lemma OtherKept(cfg: Config, s: Sys, a: Action)
    requires cfg.codec.Valid() && Good(cfg, s) && History(cfg, s) && CanDo(cfg, s, a)
    requires a.HostRead? || a.Drain? || a.Close? || a.Cancel? || a.Send? || a.Emit? || a.Write?
    ensures History(cfg, Do(cfg, s, a))
  {
    hide *;
    Parts(cfg, s);
    match a {
      case HostRead =>
        HostReadShape(cfg, s);
        HostAfterIs(s.host, Completed(s.io)[s.seen]);
      case Send => SendShape(cfg, s);
      case Emit(_, _) => WriteShape(cfg, s, a);
      case Write(_) => WriteShape(cfg, s, a);
      case _ => QuietShape(cfg, s, a);
    }
    IsSame(s, Do(cfg, s, a));
    SameKept(cfg, s, Do(cfg, s, a));
  }

  // ----- Calls ------------------------------------------------------------------------------

  lemma CallHistory(cfg: Config, s: Sys, s': Sys, req: Request)
    requires History(cfg, s) && !s.lost && !s.closed && |s.handled| <= |s.sent|
    requires req.id == s.nextID + 1 && |cfg.codec.encodeRequest(req)| < cfg.extLimit
    requires s' == s.(nextID := req.id, host := Awaiting(req.id), input := s'.input, queue := s.queue + [req],
                      sent := s.sent + [req])
    ensures History(cfg, s')
  {
    hide IsShutdown, EndsInShutdown, Unanswerable;
  }

  lemma IdleIsNotLost(host: Host, lost: bool, transit: seq<int>)
    requires Matched(host, lost, transit) && host.HostIdle?
    ensures !lost
  {
  }

  lemma CallOpen(cfg: Config, s: Sys, name: string, params: Option<Raw>)
    requires CanDo(cfg, s, HostCall(name, params))
    ensures !s.closed && NextCall(s, name, params).id == s.nextID + 1
  {
  }

  lemma HandledWithinSent(sent: seq<Request>, handled: seq<Request>, l: Loop, dropped: seq<Request>,
                          queue: seq<Request>)
    requires Accounted(sent, handled, l, dropped, queue)
    ensures |handled| <= |sent|
  {
  }

  lemma CallKept(cfg: Config, s: Sys, name: string, params: Option<Raw>)
    requires Good(cfg, s) && History(cfg, s) && CanDo(cfg, s, HostCall(name, params))
    ensures History(cfg, Do(cfg, s, HostCall(name, params)))
  {
    hide *;
    Parts(cfg, s);
    CallShape(cfg, s, name, params);
    CallOpen(cfg, s, name, params);
    IdleIsNotLost(s.host, s.lost, OutTransit(s.io, s.seen) + InTransit(s.loop, s.queue));
    HandledWithinSent(s.sent, s.handled, s.loop, s.dropped, s.queue);
    CallHistory(cfg, s, Do(cfg, s, HostCall(name, params)), NextCall(s, name, params));
  }

  // ----- The loop ---------------------------------------------------------------------------

  lemma EndMeansClosed(cfg: Config, s: Sys)
    requires CanDo(cfg, s, LoopRead) && LoopView(cfg, s.input, s.queue) && s.queue == []
    ensures s.closed
  {
  }

  lemma ReadHistory(cfg: Config, s: Sys, s': Sys, queue: seq<Request>, lost: bool)
    requires History(cfg, s) && s.loop.Reading? && s.dropped == []
    requires s' == s.(loop := s'.loop, input := s'.input, queue := queue, lost := lost, dropped := s'.dropped)
    requires || (s'.loop.Stopped? && s'.dropped == [] && lost == s.lost && queue == [] && s.closed)
             || (s'.loop.Stopped? && |s'.dropped| == 1 && s.cancelled && lost)
             || (s'.loop.Handling? && s'.dropped == [] && lost == s.lost)
    ensures History(cfg, s')
  {
    hide IsShutdown, EndsInShutdown, LastUnanswerable;
  }

  lemma LoopReadKept(cfg: Config, s: Sys)
    requires cfg.codec.Valid() && Good(cfg, s) && History(cfg, s) && CanDo(cfg, s, LoopRead)
    ensures History(cfg, Do(cfg, s, LoopRead))
  {
    hide *;
    Parts(cfg, s);
    LoopReadShape(cfg, s);
    var s' := Do(cfg, s, LoopRead);
    if s.queue == [] {
      EndMeansClosed(cfg, s);
    }
    ReadHistory(cfg, s, s', s'.queue, s'.lost);
  }

  lemma ReturnHistory(cfg: Config, s: Sys)
    requires History(cfg, s) && s.loop.Sending?
    ensures History(cfg, s.(loop := if IsShutdown(s.loop.req) then Stopped else Reading))
  {
    hide LastUnanswerable;
  }

  lemma ReturnKept(cfg: Config, s: Sys)
    requires Good(cfg, s) && History(cfg, s) && CanDo(cfg, s, Return)
    ensures History(cfg, Do(cfg, s, Return))
  {
    hide *;
    Parts(cfg, s);
    ReturnShape(cfg, s);
    ReturnHistory(cfg, s);
  }

  /** An ID in transit is that of the call the host awaits, and the only one. */
  lemma OnlyOne(host: Host, lost: bool, before: seq<int>, x: int, behind: seq<int>)
    requires Matched(host, lost, before + ([x] + behind))
    ensures !lost && behind == [] && before == [] && host == Awaiting(x)
  {
    var transit := before + ([x] + behind);
    assert |transit| == |before| + 1 + |behind|;
    assert before == [] ==> transit[0] == x;
  }

  lemma ServeHistory(cfg: Config, s: Sys, pending: seq<Outgoing>)
    requires History(cfg, s) && s.loop.Handling? && !s.lost && s.dropped == [] && s.sent == s.handled + [s.loop.req]
    ensures var req := s.loop.req;
            History(cfg, s.(handled := s.handled + [req], loop := Sending(req, pending),
                            lost := s.lost || Unanswerable(cfg.ext, |s.handled|, req)))
  {
    hide Unanswerable, EndsInShutdown, IsShutdown;
  }

  lemma ServedIsSent(sent: seq<Request>, handled: seq<Request>, req: Request, queue: seq<Request>)
    requires Accounted(sent, handled, Handling(req), [], queue) && queue == []
    ensures sent == handled + [req]
  {
  }

  lemma ServeKept(cfg: Config, s: Sys)
    requires Good(cfg, s) && History(cfg, s) && CanDo(cfg, s, Serve)
    ensures History(cfg, Do(cfg, s, Serve))
  {
    hide *;
    Parts(cfg, s);
    ServeShape(cfg, s);
    var req := s.loop.req;
    InHandIds(s.loop, s.queue);
    OnlyOne(s.host, s.lost, OutTransit(s.io, s.seen), req.id, RequestIds(s.queue));
    assert |RequestIds(s.queue)| == |s.queue|;
    ServedIsSent(s.sent, s.handled, req, s.queue);
    ServeHistory(cfg, s, Do(cfg, s, Serve).loop.pending);
  }

  // ----- Every reachable state --------------------------------------------------------------

  lemma InitialHistory(cfg: Config)
    ensures History(cfg, INITIAL)
  {
  }

  lemma HistoryKept(cfg: Config, s: Sys, a: Action)
    requires cfg.codec.Valid() && Good(cfg, s) && History(cfg, s) && CanDo(cfg, s, a)
    ensures History(cfg, Do(cfg, s, a))
  {
    hide *;
    match a
    case HostCall(name, params) => CallKept(cfg, s, name, params);
    case LoopRead => LoopReadKept(cfg, s);
    case Serve => ServeKept(cfg, s);
    case Return => ReturnKept(cfg, s);
    case _ => OtherKept(cfg, s, a);
  }

  lemma {:induction false} ReachableHistory(cfg: Config, run: seq<Action>)
    requires cfg.codec.Valid() && Reach(cfg, run).Some?
    ensures History(cfg, Reach(cfg, run).value)
    decreases |run|
  {
    hide *;
    ReachStep(cfg, run);
    if run == [] {
      InitialHistory(cfg);
    } else {
      var before := run[..|run| - 1];
      ReachableGood(cfg, before);
      ReachableHistory(cfg, before);
      HistoryKept(cfg, Reach(cfg, before).value, run[|run| - 1]);
    }
  }
}
