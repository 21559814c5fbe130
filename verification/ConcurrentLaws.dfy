/**
 The invariant that every interleaving of host, loop and emitters keeps, action by action. What it
 means for a caller is in EndToEnd.dfy.
 */
module ConcurrentLaws {
  import opened Wrappers

  import opened Envelope
  import opened Framing
  import opened Ndjson
  import opened Dispatcher
  import opened SessionLaws
  import opened WriteLock
  import opened Harness
  import opened Concurrent

  // ----- The invariant ----------------------------------------------------------------------

  predicate Carries(p: Phase) {
    p.Ready? || p.Locked? || p.BodyOut?
  }

  /** Messages fit the host's line limit, and only the loop responds. */
  predicate Proper(cfg: Config, w: nat, m: Outgoing) {
    OutFits(cfg, m) && (m.Resp? ==> w == 0)
  }

  ghost predicate AllProper(cfg: Config, io: Io) {
    && (forall w: nat :: Carries(io.Pc(w)) ==> Proper(cfg, w, io.Pc(w).m))
    && (forall i :: 0 <= i < |io.acquired| ==> Proper(cfg, io.acquired[i].writer, io.acquired[i].m))
  }

  ghost predicate IoGood(cfg: Config, io: Io) {
    Inv(cfg.codec, io) && io.torn == None && AllProper(cfg, io)
  }

  /** The host has read whole records, exactly the first `seen` of the completed ones. */
  ghost predicate HostView(codec: Codec, io: Io, consumed: nat, seen: nat) {
    seen <= |Completed(io)| && consumed == |Wire(codec, Read(io, seen))|
  }

  /** The input holds exactly the queued requests. */
  ghost predicate LoopView(cfg: Config, input: bytes, queue: seq<Request>) {
    && input == Sent(cfg.codec, queue)
    && forall i :: 0 <= i < |queue| ==> |cfg.codec.encodeRequest(queue[i])| < cfg.extLimit
  }

  ghost predicate LoopPhase(loop: Loop, own: Phase, dropped: seq<Request>) {
    && !loop.Failing?
    && (!loop.Sending? ==> own.Idle?)
    && (dropped != [] ==> loop.Stopped?)
  }

  function InHand(l: Loop): seq<Request> {
    if l.Handling? then [l.req] else []
  }

  /** Every request sent is handled, in hand, dropped or queued, in order. */
  ghost predicate Accounted(sent: seq<Request>, handled: seq<Request>, loop: Loop, dropped: seq<Request>,
                            queue: seq<Request>) {
    sent == handled + InHand(loop) + dropped + queue
  }

  function AnswerOf(m: Outgoing): seq<Response> {
    if m.Resp? then [m.response] else []
  }

  /** The answer a writer still has to put on the wire. */
  function PhaseAnswers(p: Phase): seq<Response> {
    if Carries(p) then AnswerOf(p.m) else []
  }

  /** What the loop still has to send for the request it has handled. */
  function PendingOf(l: Loop): seq<Outgoing> {
    if l.Sending? then l.pending else []
  }

  function RequestIds(rs: seq<Request>): (ids: seq<int>)
    ensures |ids| == |rs| && forall i :: 0 <= i < |rs| ==> ids[i] == rs[i].id
  {
    seq(|rs|, i requires 0 <= i < |rs| => rs[i].id)
  }

  /** The IDs of answers the host has not read: on the wire, or with the loop as a writer. */
  function OutTransit(io: Io, seen: nat): seq<int> {
    var done := Completed(io);
    (if seen <= |done| then Ids(Answers(done[seen..])) else []) + Ids(PhaseAnswers(io.Pc(0)))
  }

  /** The IDs of requests that have no answer yet: in the loop's hand, about to be sent, or in its input. */
  function InTransit(loop: Loop, queue: seq<Request>): seq<int> {
    LoopIds(loop) + RequestIds(queue)
  }

  function LoopIds(l: Loop): seq<int> {
    match l
    case Handling(req) => [req.id]
    case Sending(_, pending) => Ids(Answers(pending))
    case _ => []
  }

  /** Nothing is in transit between calls; during a call, its own ID and nothing else, unless lost. */
  ghost predicate Matched(host: Host, lost: bool, transit: seq<int>) {
    match host
    case HostIdle => !lost && transit == []
    case Awaiting(id) => transit == if lost then [] else [id]
    case Stuck => false
  }

  /** Drained, then stored, is everything notified in the messages read so far. */
  ghost predicate Stored(drained: Store, stored: Store, read: seq<Outgoing>) {
    forall name :: Get(drained, name) + Get(stored, name) == ParamsOf(read, name)
  }

  /** The messages the host has read. */
  function Read(io: Io, seen: nat): seq<Outgoing> {
    var done := Completed(io);
    if seen <= |done| then done[..seen] else done
  }

  /** What the loop has sent, with what it still has to send, is what the sequential session writes. */
  ghost predicate Answered(cfg: Config, io: Io, loop: Loop, handled: seq<Request>) {
    ByWriter(io.issued, 0) + PendingOf(loop) == Outputs(cfg.ext, cfg.codec, handled)
  }

  ghost predicate Good(cfg: Config, s: Sys) {
    && IoGood(cfg, s.io)
    && HostView(cfg.codec, s.io, s.consumed, s.seen)
    && LoopView(cfg, s.input, s.queue)
    && LoopPhase(s.loop, s.io.Pc(0), s.dropped)
    && Accounted(s.sent, s.handled, s.loop, s.dropped, s.queue)
    && Matched(s.host, s.lost, OutTransit(s.io, s.seen) + InTransit(s.loop, s.queue))
    && Stored(s.drained, s.stored, Read(s.io, s.seen))
    && Answered(cfg, s.io, s.loop, s.handled)
  }

  // ----- Steps of the writers ---------------------------------------------------------------

  predicate Succeeds(s: Step) {
    s.Begin? || s.Acquire? || s.WriteBody? || s.WriteNewline? || s.Release?
  }

  /** A message is completed by its newline, and by nothing else. */
  lemma CompletedStep(codec: Codec, io: Io, s: Step)
    requires Exclusive(io) && Enabled(codec, io, s) && Succeeds(s)
    ensures Completed(Apply(codec, io, s)) == Completed(io) + Completing(io, s)
  {
    match s
    case Acquire(w) => MsgsSnoc(io.acquired, Entry(w, io.Pc(w).m));
    case WriteNewline(w) => NewlineCompletes(codec, io, w);
    case _ =>
  }

  lemma CompletedFits(cfg: Config, io: Io)
    requires AllProper(cfg, io)
    ensures AllFit(cfg.codec, cfg.hostLimit, Completed(io))
  {
  }

  /** A step moves its own writer only. */
  lemma PhaseStep(codec: Codec, io: Io, s: Step, w: nat)
    requires Enabled(codec, io, s)
    ensures w != s.w ==> Apply(codec, io, s).Pc(w) == io.Pc(w)
    ensures w == s.w && Carries(Apply(codec, io, s).Pc(w)) ==>
              Apply(codec, io, s).Pc(w).m == if s.Begin? then s.m else io.Pc(w).m
    ensures w == s.w && !s.Begin? && Carries(Apply(codec, io, s).Pc(w)) ==> Carries(io.Pc(w))
  {
  }

  lemma AllProperKept(cfg: Config, io: Io, s: Step)
    requires AllProper(cfg, io) && Enabled(cfg.codec, io, s)
    requires s.Begin? ==> Proper(cfg, s.w, s.m)
    ensures AllProper(cfg, Apply(cfg.codec, io, s))
  {
    var io' := Apply(cfg.codec, io, s);
    assert io'.acquired == io.acquired + if s.Acquire? then [Entry(s.w, io.Pc(s.w).m)] else [];
    assert s.Acquire? ==> Proper(cfg, s.w, io.Pc(s.w).m);
    hide Apply, Proper;
    forall w: nat | Carries(io'.Pc(w))
      ensures Proper(cfg, w, io'.Pc(w).m)
    {
      PhaseStep(cfg.codec, io, s, w);
    }
  }

  lemma IoGoodKept(cfg: Config, io: Io, s: Step)
    requires IoGood(cfg, io) && Enabled(cfg.codec, io, s) && Succeeds(s)
    requires s.Begin? ==> Proper(cfg, s.w, s.m)
    ensures IoGood(cfg, Apply(cfg.codec, io, s))
  {
    assert Apply(cfg.codec, io, s).torn == None;
    hide Apply, Inv, AllProper, Proper;
    InvKept(cfg.codec, io, s);
    AllProperKept(cfg, io, s);
  }

  lemma AnswersSnoc(ms: seq<Outgoing>, m: Outgoing)
    ensures Answers(ms + [m]) == Answers(ms) + AnswerOf(m)
  {
    assert (ms + [m])[..|ms|] == ms;
  }

  /** The message that a step completes, and the answer in it. */
  function Completing(io: Io, s: Step): seq<Outgoing> {
    if s.WriteNewline? && io.Pc(s.w).BodyOut? then [io.Pc(s.w).m] else []
  }

  lemma AnswersOfOne(m: Outgoing)
    ensures Answers([m]) == AnswerOf(m)
  {
    AnswersSnoc([], m);
    assert [] + [m] == [m];
  }

  lemma PhaseAnswersStep(cfg: Config, io: Io, s: Step)
    requires AllProper(cfg, io) && Enabled(cfg.codec, io, s) && Succeeds(s) && !(s.Begin? && s.w == 0)
    ensures PhaseAnswers(io.Pc(0)) == Answers(Completing(io, s)) + PhaseAnswers(Apply(cfg.codec, io, s).Pc(0))
  {
    PhaseStep(cfg.codec, io, s, 0);
    if s.WriteNewline? {
      var m := io.Pc(s.w).m;
      assert Proper(cfg, s.w, m) && (s.w != 0 ==> AnswerOf(m) == []);
      AnswersOfOne(m);
    } else {
      assert Completing(io, s) == [];
    }
  }

  lemma UnseenStep(codec: Codec, io: Io, s: Step, seen: nat)
    requires Exclusive(io) && Enabled(codec, io, s) && Succeeds(s)
    requires seen <= |Completed(io)|
    ensures var done := Completed(Apply(codec, io, s));
            && seen <= |done| && done[..seen] == Completed(io)[..seen]
            && done[seen..] == Completed(io)[seen..] + Completing(io, s)
  {
    CompletedStep(codec, io, s);
    hide *;
    SliceAppend(Completed(io), Completing(io, s), seen);
  }

  lemma SliceAppend<T>(a: seq<T>, b: seq<T>, n: nat)
    requires n <= |a|
    ensures (a + b)[..n] == a[..n] && (a + b)[n..] == a[n..] + b
  {
  }

  lemma OutTransitIs(io: Io, seen: nat)
    requires seen <= |Completed(io)|
    ensures OutTransit(io, seen) == Ids(Answers(Completed(io)[seen..])) + Ids(PhaseAnswers(io.Pc(0)))
  {
  }

  /** The IDs in transit at the output end: a newline moves one from the loop's hand to the wire. */
  lemma TransitKept(cfg: Config, io: Io, s: Step, seen: nat)
    requires IoGood(cfg, io) && seen <= |Completed(io)|
    requires Enabled(cfg.codec, io, s) && Succeeds(s) && !(s.Begin? && s.w == 0)
    ensures OutTransit(Apply(cfg.codec, io, s), seen) == OutTransit(io, seen)
  {
    assert Inv(cfg.codec, io) && io.torn == None && AllProper(cfg, io);
    UnseenStep(cfg.codec, io, s, seen);
    PhaseAnswersStep(cfg, io, s);
    OutTransitIs(io, seen);
    OutTransitIs(Apply(cfg.codec, io, s), seen);
    hide *;
    var io', unseen, moved := Apply(cfg.codec, io, s), Completed(io)[seen..], Completing(io, s);
    var ahead := PhaseAnswers(io'.Pc(0));
    AnswersAppend(unseen, moved);
    IdsAppend(Answers(unseen), Answers(moved));
    IdsAppend(Answers(moved), ahead);
    Across(Ids(Answers(unseen)), Ids(Answers(moved)), Ids(ahead));
  }

  // ----- Every action keeps the invariant ---------------------------------------------------

  lemma Parts(cfg: Config, s: Sys)
    requires Good(cfg, s)
    ensures IoGood(cfg, s.io) && Inv(cfg.codec, s.io) && Exclusive(s.io) && AllProper(cfg, s.io) && s.io.torn == None
    ensures HostView(cfg.codec, s.io, s.consumed, s.seen) && s.seen <= |Completed(s.io)|
    ensures LoopView(cfg, s.input, s.queue)
    ensures LoopPhase(s.loop, s.io.Pc(0), s.dropped)
    ensures Accounted(s.sent, s.handled, s.loop, s.dropped, s.queue)
    ensures Matched(s.host, s.lost, OutTransit(s.io, s.seen) + InTransit(s.loop, s.queue))
    ensures Stored(s.drained, s.stored, Read(s.io, s.seen))
    ensures Answered(cfg, s.io, s.loop, s.handled)
  {
    hide HostView, LoopView, LoopPhase, Accounted, Matched, Stored, Answered;
    assert HostView(cfg.codec, s.io, s.consumed, s.seen);
    SeenBound(cfg, s);
  }

  lemma SeenBound(cfg: Config, s: Sys)
    requires HostView(cfg.codec, s.io, s.consumed, s.seen)
    ensures s.seen <= |Completed(s.io)|
  {
  }

  lemma Assemble(cfg: Config, s: Sys)
    requires IoGood(cfg, s.io)
    requires HostView(cfg.codec, s.io, s.consumed, s.seen)
    requires LoopView(cfg, s.input, s.queue)
    requires LoopPhase(s.loop, s.io.Pc(0), s.dropped)
    requires Accounted(s.sent, s.handled, s.loop, s.dropped, s.queue)
    requires Matched(s.host, s.lost, OutTransit(s.io, s.seen) + InTransit(s.loop, s.queue))
    requires Stored(s.drained, s.stored, Read(s.io, s.seen))
    requires Answered(cfg, s.io, s.loop, s.handled)
    ensures Good(cfg, s)
  {
    hide IoGood, HostView, LoopView, LoopPhase, Accounted, Matched, Stored, Answered;
  }

  // ..... Writers

  lemma WriterPhase(codec: Codec, io: Io, step: Step, loop: Loop, dropped: seq<Request>)
    requires LoopPhase(loop, io.Pc(0), dropped) && Enabled(codec, io, step) && !(step.Begin? && step.w == 0)
    ensures LoopPhase(loop, Apply(codec, io, step).Pc(0), dropped)
  {
    PhaseStep(codec, io, step, 0);
  }

  lemma WriterView(codec: Codec, io: Io, step: Step, consumed: nat, seen: nat)
    requires Exclusive(io) && Enabled(codec, io, step) && Succeeds(step)
    requires HostView(codec, io, consumed, seen)
    ensures HostView(codec, Apply(codec, io, step), consumed, seen)
    ensures Read(Apply(codec, io, step), seen) == Read(io, seen)
  {
    UnseenStep(codec, io, step, seen);
    hide Apply, Completed, Wire;
  }

  lemma WriterAnswered(cfg: Config, io: Io, step: Step, loop: Loop, handled: seq<Request>)
    requires Enabled(cfg.codec, io, step) && !(step.Begin? && step.w == 0)
    requires Answered(cfg, io, loop, handled)
    ensures Answered(cfg, Apply(cfg.codec, io, step), loop, handled)
  {
    hide Outputs, ByWriter;
    if step.Begin? {
      ByWriterSnoc(io.issued, Entry(step.w, step.m), 0);
      Across(ByWriter(io.issued, 0), [], []);
    }
  }

  /** A step of a writer, other than the loop starting to send. */
  lemma WriterKeepsGood(cfg: Config, s: Sys, step: Step)
    requires Good(cfg, s) && Enabled(cfg.codec, s.io, step) && Succeeds(step)
    requires step.Begin? ==> step.w != 0 && Proper(cfg, step.w, step.m)
    ensures Good(cfg, s.(io := Apply(cfg.codec, s.io, step)))
  {
    hide *;
    Parts(cfg, s);
    IoGoodKept(cfg, s.io, step);
    WriterView(cfg.codec, s.io, step, s.consumed, s.seen);
    WriterPhase(cfg.codec, s.io, step, s.loop, s.dropped);
    TransitKept(cfg, s.io, step, s.seen);
    WriterAnswered(cfg, s.io, step, s.loop, s.handled);
    Assemble(cfg, s.(io := Apply(cfg.codec, s.io, step)));
  }

  // ..... Calls

  lemma LoopViewSnoc(cfg: Config, input: bytes, queue: seq<Request>, req: Request)
    requires LoopView(cfg, input, queue) && |cfg.codec.encodeRequest(req)| < cfg.extLimit
    ensures LoopView(cfg, input + cfg.codec.encodeRequest(req) + [LF], queue + [req])
  {
    var lines, line := EncodedRequests(cfg.codec, queue), cfg.codec.encodeRequest(req);
    assert EncodedRequests(cfg.codec, queue + [req]) == lines + [line];
    FrameSnoc(lines, line);
  }

  lemma AccountedSnoc(sent: seq<Request>, handled: seq<Request>, loop: Loop, dropped: seq<Request>,
                      queue: seq<Request>, req: Request)
    requires Accounted(sent, handled, loop, dropped, queue)
    ensures Accounted(sent + [req], handled, loop, dropped, queue + [req])
  {
  }

  /** A call puts its ID behind whatever is in transit, which is nothing. */
  lemma MatchedCall(lost: bool, ahead: seq<int>, loop: Loop, queue: seq<Request>, req: Request)
    requires Matched(HostIdle, lost, ahead + InTransit(loop, queue))
    ensures Matched(Awaiting(req.id), lost, ahead + InTransit(loop, queue + [req]))
  {
    hide LoopIds;
    assert RequestIds(queue + [req]) == RequestIds(queue) + [req.id];
    assert ahead + InTransit(loop, queue + [req]) == ahead + InTransit(loop, queue) + [req.id];
  }

  lemma CallShape(cfg: Config, s: Sys, name: string, params: Option<Raw>)
    requires CanDo(cfg, s, HostCall(name, params))
    ensures var req := NextCall(s, name, params);
            && s.host == HostIdle && |cfg.codec.encodeRequest(req)| < cfg.extLimit
            && Do(cfg, s, HostCall(name, params)) ==
               s.(nextID := req.id, host := Awaiting(req.id), input := s.input + cfg.codec.encodeRequest(req) + [LF],
                  queue := s.queue + [req], sent := s.sent + [req])
  {
  }

  lemma HostCallKeepsGood(cfg: Config, s: Sys, name: string, params: Option<Raw>)
    requires Good(cfg, s) && CanDo(cfg, s, HostCall(name, params))
    ensures Good(cfg, Do(cfg, s, HostCall(name, params)))
  {
    hide *;
    var req := NextCall(s, name, params);
    Parts(cfg, s);
    CallShape(cfg, s, name, params);
    LoopViewSnoc(cfg, s.input, s.queue, req);
    AccountedSnoc(s.sent, s.handled, s.loop, s.dropped, s.queue, req);
    MatchedCall(s.lost, OutTransit(s.io, s.seen), s.loop, s.queue, req);
    Assemble(cfg, Do(cfg, s, HostCall(name, params)));
  }

  lemma DrainKeepsStored(drained: Store, stored: Store, read: seq<Outgoing>, name: string)
    requires Stored(drained, stored, read)
    ensures Stored(drained[name := Get(drained, name) + Get(stored, name)], stored - {name}, read)
  {
    forall other
      ensures Get(drained[name := Get(drained, name) + Get(stored, name)], other) + Get(stored - {name}, other) ==
              ParamsOf(read, other)
    {
      assert Get(drained, other) + Get(stored, other) == ParamsOf(read, other);
    }
  }

  lemma QuietShape(cfg: Config, s: Sys, a: Action)
    requires CanDo(cfg, s, a) && (a.Drain? || a.Close? || a.Cancel?)
    ensures Do(cfg, s, a) ==
            match a
            case Drain(name) =>
              s.(drained := s.drained[name := Get(s.drained, name) + Get(s.stored, name)], stored := s.stored - {name})
            case Close => s.(closed := true)
            case _ => s.(cancelled := true)
  {
  }

  lemma QuietKeepsGood(cfg: Config, s: Sys, a: Action)
    requires Good(cfg, s) && CanDo(cfg, s, a) && (a.Drain? || a.Close? || a.Cancel?)
    ensures Good(cfg, Do(cfg, s, a))
  {
    hide *;
    Parts(cfg, s);
    QuietShape(cfg, s, a);
    if a.Drain? {
      DrainKeepsStored(s.drained, s.stored, Read(s.io, s.seen), a.name);
    }
    Assemble(cfg, Do(cfg, s, a));
  }

  // ..... The loop

  /** Losing one ID leaves nothing in transit, because there was only one. */
  lemma LoseOne(host: Host, lost: bool, before: seq<int>, x: int, behind: seq<int>)
    requires Matched(host, lost, before + ([x] + behind))
    ensures Matched(host, true, before + behind)
  {
    assert |before + ([x] + behind)| == |before| + 1 + |behind|;
    assert before + behind == [];
  }

  lemma InHandIds(l: Loop, queue: seq<Request>)
    ensures l.Handling? ==> InTransit(l, queue) == [l.req.id] + RequestIds(queue)
    ensures l.Sending? ==> InTransit(l, queue) == Ids(Answers(l.pending)) + RequestIds(queue)
    ensures !l.Handling? && !l.Sending? ==> InTransit(l, queue) == RequestIds(queue)
  {
    hide Answers;
  }

  lemma QueueIds(queue: seq<Request>)
    requires queue != []
    ensures RequestIds(queue) == [queue[0].id] + RequestIds(queue[1..])
  {
  }

  /** The loop's next line is the next request of the queue. */
  lemma LoopReadsQueue(cfg: Config, input: bytes, queue: seq<Request>)
    requires cfg.codec.Valid() && LoopView(cfg, input, queue)
    ensures queue == [] ==> ScanLine(cfg.extLimit, input) == End
    ensures queue != [] ==>
              && ScanLine(cfg.extLimit, input) == Line(cfg.codec.encodeRequest(queue[0]), Sent(cfg.codec, queue[1..]))
              && cfg.codec.encodeRequest(queue[0]) != []
              && cfg.codec.decodeRequest(cfg.codec.encodeRequest(queue[0])) == Ok(queue[0])
              && LoopView(cfg, Sent(cfg.codec, queue[1..]), queue[1..])
  {
    if queue != [] {
      SentFirst(cfg.codec, queue, []);
      var line, rest := cfg.codec.encodeRequest(queue[0]), Sent(cfg.codec, queue[1..]);
      assert Sent(cfg.codec, queue) + [] == Sent(cfg.codec, queue) && rest + [] == rest;
      assert Clean(line);
      ScanClean(cfg.extLimit, line, rest);
    }
  }

  lemma LoopReadShape(cfg: Config, s: Sys)
    requires cfg.codec.Valid() && CanDo(cfg, s, LoopRead) && LoopView(cfg, s.input, s.queue)
    requires LoopPhase(s.loop, s.io.Pc(0), s.dropped)
    ensures s.loop == Reading && s.dropped == [] && s.io.Pc(0).Idle?
    ensures Do(cfg, s, LoopRead) ==
            if s.queue == [] then s.(loop := Stopped)
            else
              var rest := s.queue[1..];
              var s' := s.(input := Sent(cfg.codec, rest), queue := rest);
              if s.cancelled then s'.(loop := Stopped, lost := true, dropped := [s.queue[0]])
              else s'.(loop := Handling(s.queue[0]))
    ensures s.queue != [] ==> LoopView(cfg, Sent(cfg.codec, s.queue[1..]), s.queue[1..])
  {
    LoopReadsQueue(cfg, s.input, s.queue);
    hide ScanLine, Sent, LoopView;
    assert [] + [if s.queue == [] then Request("", None, 0) else s.queue[0]] ==
           [if s.queue == [] then Request("", None, 0) else s.queue[0]];
  }

  lemma AccountedRead(sent: seq<Request>, handled: seq<Request>, queue: seq<Request>)
    requires Accounted(sent, handled, Reading, [], queue)
    ensures Accounted(sent, handled, Stopped, [], queue)
    ensures queue != [] ==> Accounted(sent, handled, Stopped, [queue[0]], queue[1..])
    ensures queue != [] ==> Accounted(sent, handled, Handling(queue[0]), [], queue[1..])
  {
    if queue != [] {
      assert queue == [queue[0]] + queue[1..];
    }
  }

  lemma IdlePhase(own: Phase, l: Loop, dropped: seq<Request>)
    requires own.Idle? && !l.Failing? && (dropped != [] ==> l.Stopped?)
    ensures LoopPhase(l, own, dropped)
  {
  }

  lemma PendingIs(l: Loop)
    ensures PendingOf(l) == if l.Sending? then l.pending else []
  {
  }

  lemma NothingPending(cfg: Config, io: Io, l: Loop, l': Loop, handled: seq<Request>)
    requires Answered(cfg, io, l, handled) && PendingOf(l) == PendingOf(l')
    ensures Answered(cfg, io, l', handled)
  {
  }

  lemma LoopReadKeepsGood(cfg: Config, s: Sys)
    requires cfg.codec.Valid() && Good(cfg, s) && CanDo(cfg, s, LoopRead)
    ensures Good(cfg, Do(cfg, s, LoopRead))
  {
    hide *;
    Parts(cfg, s);
    LoopReadShape(cfg, s);
    AccountedRead(s.sent, s.handled, s.queue);
    var s' := Do(cfg, s, LoopRead);
    IdlePhase(s.io.Pc(0), s'.loop, s'.dropped);
    InHandIds(s.loop, s.queue);
    InHandIds(s'.loop, s'.queue);
    PendingIs(s.loop);
    PendingIs(s'.loop);
    NothingPending(cfg, s.io, s.loop, s'.loop, s.handled);
    if s.queue != [] {
      QueueIds(s.queue);
      if s.cancelled {
        LoseOne(s.host, s.lost, OutTransit(s.io, s.seen), s.queue[0].id, RequestIds(s.queue[1..]));
      }
    }
    Assemble(cfg, s');
  }

  lemma ReturnShape(cfg: Config, s: Sys)
    requires CanDo(cfg, s, Return) && LoopPhase(s.loop, s.io.Pc(0), s.dropped)
    ensures s.loop.Sending? && s.loop.pending == [] && s.io.Pc(0).Idle? && s.dropped == []
    ensures Do(cfg, s, Return) == s.(loop := if IsShutdown(s.loop.req) then Stopped else Reading)
  {
  }

  lemma AccountedReturn(sent: seq<Request>, handled: seq<Request>, l: Loop, l': Loop, queue: seq<Request>)
    requires Accounted(sent, handled, l, [], queue) && !l.Handling? && !l'.Handling?
    ensures Accounted(sent, handled, l', [], queue)
  {
  }

  lemma NoIds()
    ensures Answers([]) == [] && Ids([]) == []
  {
  }

  lemma ReturnKeepsGood(cfg: Config, s: Sys)
    requires Good(cfg, s) && CanDo(cfg, s, Return)
    ensures Good(cfg, Do(cfg, s, Return))
  {
    hide *;
    Parts(cfg, s);
    ReturnShape(cfg, s);
    var s' := Do(cfg, s, Return);
    AccountedReturn(s.sent, s.handled, s.loop, s'.loop, s.queue);
    IdlePhase(s.io.Pc(0), s'.loop, s'.dropped);
    InHandIds(s.loop, s.queue);
    InHandIds(s'.loop, s.queue);
    NoIds();
    Across([], [], RequestIds(s.queue));
    PendingIs(s.loop);
    PendingIs(s'.loop);
    NothingPending(cfg, s.io, s.loop, s'.loop, s.handled);
    Assemble(cfg, s');
  }

  lemma AccountedServe(sent: seq<Request>, handled: seq<Request>, req: Request, l: Loop, queue: seq<Request>)
    requires Accounted(sent, handled, Handling(req), [], queue) && !l.Handling?
    ensures Accounted(sent, handled + [req], l, [], queue)
  {
  }

  lemma SendingPhase(own: Phase, req: Request, pending: seq<Outgoing>)
    ensures LoopPhase(Sending(req, pending), own, [])
  {
  }

  /** The answer that handling a request leaves to be sent. */
  lemma WrittenIds(cfg: Config, k: nat, req: Request)
    ensures var h := Handle(cfg.ext, cfg.codec, k, req);
            && (h.response == None <==> Unanswerable(cfg.ext, k, req))
            && Ids(Answers(Written(cfg.ext, k, h))) == if Unanswerable(cfg.ext, k, req) then [] else [req.id]
  {
    hide *;
    OneAnswer(cfg.ext, cfg.codec, k, req);
    WrittenAnswers(cfg.ext, cfg.codec, k, req);
    ReplyIsOwed(cfg.ext, cfg.codec, k, req);
  }

  /** Handling a request turns the ID in the loop's hand into one that is to be sent, or loses it. */
  lemma ServeShape(cfg: Config, s: Sys)
    requires CanDo(cfg, s, Serve) && LoopPhase(s.loop, s.io.Pc(0), s.dropped)
    ensures s.loop.Handling? && s.io.Pc(0).Idle? && s.dropped == []
    ensures var req, k := s.loop.req, |s.handled|;
            var pending := Written(cfg.ext, k, Handle(cfg.ext, cfg.codec, k, req));
            && Do(cfg, s, Serve) ==
               s.(handled := s.handled + [req], loop := Sending(req, pending),
                  lost := s.lost || Unanswerable(cfg.ext, k, req))
            && Ids(Answers(pending)) == if Unanswerable(cfg.ext, k, req) then [] else [req.id]
  {
    hide Handle, Written, Answers, Unanswerable;
    WrittenIds(cfg, |s.handled|, s.loop.req);
  }

  lemma ServeAnswered(cfg: Config, io: Io, handled: seq<Request>, req: Request)
    requires Answered(cfg, io, Handling(req), handled)
    ensures var k := |handled|;
            var pending := Written(cfg.ext, k, Handle(cfg.ext, cfg.codec, k, req));
            Answered(cfg, io, Sending(req, pending), handled + [req])
  {
    var k := |handled|;
    assert (handled + [req])[..k] == handled;
    hide Written, Handle, ByWriter;
    Across(ByWriter(io.issued, 0), [], []);
  }

  lemma ServeKeepsGood(cfg: Config, s: Sys)
    requires Good(cfg, s) && CanDo(cfg, s, Serve)
    ensures Good(cfg, Do(cfg, s, Serve))
  {
    hide *;
    Parts(cfg, s);
    ServeShape(cfg, s);
    var s', req, k := Do(cfg, s, Serve), s.loop.req, |s.handled|;
    AccountedServe(s.sent, s.handled, req, s'.loop, s.queue);
    SendingPhase(s.io.Pc(0), req, s'.loop.pending);
    ServeAnswered(cfg, s.io, s.handled, req);
    InHandIds(s.loop, s.queue);
    InHandIds(s'.loop, s.queue);
    if Unanswerable(cfg.ext, k, req) {
      LoseOne(s.host, s.lost, OutTransit(s.io, s.seen), req.id, RequestIds(s.queue));
      Across([], [], RequestIds(s.queue));
    }
    Assemble(cfg, s');
  }

  /** The loop starts to send one message: an answer in it is now with the loop as a writer. */
  lemma BeginKeepsTransit(codec: Codec, io: Io, seen: nat, m: Outgoing)
    requires Exclusive(io) && io.Pc(0).Idle? && seen <= |Completed(io)|
    ensures var io' := Apply(codec, io, Begin(0, m));
            && Read(io', seen) == Read(io, seen) && Completed(io') == Completed(io)
            && OutTransit(io', seen) == OutTransit(io, seen) + Ids(AnswerOf(m))
  {
    var io' := Apply(codec, io, Begin(0, m));
    CompletedStep(codec, io, Begin(0, m));
    assert io'.Pc(0) == Ready(m);
    hide Apply, Completed, Answers;
    assert Ids([]) == [];
  }

  lemma BeginView(codec: Codec, io: Io, consumed: nat, seen: nat, m: Outgoing)
    requires Exclusive(io) && io.Pc(0).Idle? && HostView(codec, io, consumed, seen)
    ensures HostView(codec, Apply(codec, io, Begin(0, m)), consumed, seen)
  {
    BeginKeepsTransit(codec, io, seen, m);
    hide Apply, Completed, Wire, Read, OutTransit;
  }

  lemma SendAnswered(cfg: Config, io: Io, req: Request, pending: seq<Outgoing>, handled: seq<Request>)
    requires io.Pc(0).Idle? && pending != [] && Answered(cfg, io, Sending(req, pending), handled)
    ensures Answered(cfg, Apply(cfg.codec, io, Begin(0, pending[0])), Sending(req, pending[1..]), handled)
  {
    hide ByWriter, Outputs;
    ByWriterSnoc(io.issued, Entry(0, pending[0]), 0);
    assert pending == [pending[0]] + pending[1..];
    Across(ByWriter(io.issued, 0), [pending[0]], pending[1..]);
  }

  lemma SendIds(pending: seq<Outgoing>)
    requires pending != []
    ensures Ids(Answers(pending)) == Ids(AnswerOf(pending[0])) + Ids(Answers(pending[1..]))
  {
    assert pending == [pending[0]] + pending[1..];
    hide *;
    AnswersAppend([pending[0]], pending[1..]);
    AnswersOfOne(pending[0]);
    IdsAppend(AnswerOf(pending[0]), Answers(pending[1..]));
  }

  lemma SendShape(cfg: Config, s: Sys)
    requires CanDo(cfg, s, Send) && LoopPhase(s.loop, s.io.Pc(0), s.dropped)
    ensures s.loop.Sending? && s.loop.pending != [] && s.io.Pc(0).Idle? && s.dropped == []
    ensures var m := s.loop.pending[0];
            && Enabled(cfg.codec, s.io, Begin(0, m)) && Succeeds(Begin(0, m)) && Proper(cfg, 0, m)
            && Do(cfg, s, Send) ==
               s.(loop := Sending(s.loop.req, s.loop.pending[1..]), io := Apply(cfg.codec, s.io, Begin(0, m)))
  {
  }

  lemma AccountedSend(sent: seq<Request>, handled: seq<Request>, l: Loop, l': Loop, dropped: seq<Request>,
                      queue: seq<Request>)
    requires Accounted(sent, handled, l, dropped, queue) && l.Sending? && l'.Sending?
    ensures Accounted(sent, handled, l', dropped, queue)
  {
  }

  lemma SendKeepsGood(cfg: Config, s: Sys)
    requires Good(cfg, s) && CanDo(cfg, s, Send)
    ensures Good(cfg, Do(cfg, s, Send))
  {
    hide *;
    Parts(cfg, s);
    SendShape(cfg, s);
    var s', m, pending := Do(cfg, s, Send), s.loop.pending[0], s.loop.pending;
    IoGoodKept(cfg, s.io, Begin(0, m));
    BeginKeepsTransit(cfg.codec, s.io, s.seen, m);
    BeginView(cfg.codec, s.io, s.consumed, s.seen, m);
    SendAnswered(cfg, s.io, s.loop.req, pending, s.handled);
    SendingPhase(s'.io.Pc(0), s.loop.req, pending[1..]);
    AccountedSend(s.sent, s.handled, s.loop, s'.loop, s.dropped, s.queue);
    InHandIds(s.loop, s.queue);
    InHandIds(s'.loop, s.queue);
    SendIds(pending);
    Across(Ids(AnswerOf(m)), Ids(Answers(pending[1..])), RequestIds(s.queue));
    Across(OutTransit(s.io, s.seen), Ids(AnswerOf(m)), InTransit(s'.loop, s.queue));
    Assemble(cfg, s');
  }

  // ..... The host

  lemma OutputIs(cfg: Config, io: Io)
    requires IoGood(cfg, io)
    ensures io.output == Wire(cfg.codec, Completed(io)) + Partial(cfg.codec, io)
  {
    hide Wire, Completed, Partial, Exclusive, InProgramOrder, AllProper;
  }

  lemma ViewIs(codec: Codec, io: Io, consumed: nat, seen: nat)
    requires HostView(codec, io, consumed, seen)
    ensures seen <= |Completed(io)| && consumed == |Wire(codec, Completed(io)[..seen])|
  {
    hide Wire, Completed;
  }

  lemma UnreadAt(s: Sys, before: bytes, after: bytes)
    requires s.io.output == before + after && s.consumed == |before|
    ensures s.consumed <= |s.io.output| && Unread(s) == after
  {
  }

  /** What the host has not read: whole records it has not seen, then at most part of one. */
  lemma UnreadIs(cfg: Config, s: Sys)
    requires IoGood(cfg, s.io) && HostView(cfg.codec, s.io, s.consumed, s.seen)
    ensures s.consumed <= |s.io.output| && s.seen <= |Completed(s.io)|
    ensures Unread(s) == Wire(cfg.codec, Completed(s.io)[s.seen..]) + Partial(cfg.codec, s.io)
  {
    hide *;
    var done, codec := Completed(s.io), cfg.codec;
    OutputIs(cfg, s.io);
    ViewIs(codec, s.io, s.consumed, s.seen);
    assert done == done[..s.seen] + done[s.seen..];
    EncodedAppend(codec, done[..s.seen], done[s.seen..]);
    Across(Wire(codec, done[..s.seen]), Wire(codec, done[s.seen..]), Partial(codec, s.io));
    UnreadAt(s, Wire(codec, done[..s.seen]), Wire(codec, done[s.seen..]) + Partial(codec, s.io));
  }

  lemma PartialIsOpen(codec: Codec, io: Io)
    requires codec.Valid()
    ensures LF !in Partial(codec, io)
  {
    if io.lock.Some? && io.Pc(io.lock.value).BodyOut? {
      assert Clean(codec.encodeOut(io.Pc(io.lock.value).m));
    }
  }

  /** A line feed in what is unread belongs to a whole record. */
  lemma UnseenExists(cfg: Config, s: Sys)
    requires cfg.codec.Valid() && IoGood(cfg, s.io) && HostView(cfg.codec, s.io, s.consumed, s.seen)
    requires LF in Unread(s)
    ensures s.seen < |Completed(s.io)|
  {
    UnreadIs(cfg, s);
    PartialIsOpen(cfg.codec, s.io);
    WireEmpty(cfg.codec);
    SeenBound(cfg, s);
    hide *;
  }

  lemma SliceNext<T>(a: seq<T>, n: nat)
    requires n < |a|
    ensures a[n..][0] == a[n] && a[n..][1..] == a[n + 1..]
    ensures a[..n + 1] == a[..n] + [a[n]] && a[n..] == [a[n]] + a[n + 1..]
  {
  }

  /** The next line the host reads is the next completed message. */
  lemma NextUnread(cfg: Config, s: Sys)
    requires cfg.codec.Valid() && IoGood(cfg, s.io) && HostView(cfg.codec, s.io, s.consumed, s.seen)
    requires s.seen < |Completed(s.io)|
    ensures var m, line := Completed(s.io)[s.seen], cfg.codec.encodeOut(Completed(s.io)[s.seen]);
            var rest := Wire(cfg.codec, Completed(s.io)[s.seen + 1..]) + Partial(cfg.codec, s.io);
            && Unread(s) == line + [LF] + rest
            && ScanLine(cfg.hostLimit, Unread(s)) == Line(line, rest)
            && line != [] && cfg.codec.Classify(line) == Ok(m)
  {
    var done, codec := Completed(s.io), cfg.codec;
    var m, rest := done[s.seen], Wire(codec, done[s.seen + 1..]) + Partial(codec, s.io);
    UnreadIs(cfg, s);
    CompletedFits(cfg, s.io);
    codec.ClassifyUndoesEncode(m);
    assert Clean(codec.encodeOut(m)) && |codec.encodeOut(m)| < cfg.hostLimit;
    hide Wire, Completed, Partial, IoGood, HostView, Unread, ScanLine;
    SliceNext(done, s.seen);
    WireFirst(codec, done[s.seen..], Partial(codec, s.io));
    ScanClean(cfg.hostLimit, codec.encodeOut(m), rest);
  }

  /** What the host is after reading a message, and the notifications it has stored. */
  function HostAfter(host: Host, m: Outgoing): Host {
    if host.Awaiting? && m.Resp? then if m.response.id == host.id then HostIdle else Stuck else host
  }

  function StoredAfter(stored: Store, m: Outgoing): Store {
    match m
    case Notif(n) => StoreOne(stored, n)
    case Resp(_) => stored
  }

  lemma HostReadLine(cfg: Config, s: Sys, line: bytes, rest: bytes, m: Outgoing)
    requires s.host.Awaiting? && CanDo(cfg, s, HostRead)
    requires ScanLine(cfg.hostLimit, Unread(s)) == Line(line, rest) && line != [] && cfg.codec.Classify(line) == Ok(m)
    ensures Do(cfg, s, HostRead) ==
            s.(consumed := s.consumed + |Unread(s)| - |rest|, seen := s.seen + 1,
               host := HostAfter(s.host, m), stored := StoredAfter(s.stored, m))
  {
    hide Unread, ScanLine, Get;
  }

  lemma CanHostRead(cfg: Config, s: Sys)
    requires CanDo(cfg, s, HostRead)
    ensures s.host.Awaiting? && LF in Unread(s)
  {
  }

  lemma HostReadShape(cfg: Config, s: Sys)
    requires cfg.codec.Valid() && CanDo(cfg, s, HostRead)
    requires IoGood(cfg, s.io) && HostView(cfg.codec, s.io, s.consumed, s.seen)
    ensures s.host.Awaiting? && s.seen < |Completed(s.io)|
    ensures var m := Completed(s.io)[s.seen];
            Do(cfg, s, HostRead) ==
            s.(consumed := s.consumed + |cfg.codec.encodeOut(m)| + 1, seen := s.seen + 1,
               host := HostAfter(s.host, m), stored := StoredAfter(s.stored, m))
  {
    hide *;
    CanHostRead(cfg, s);
    UnseenExists(cfg, s);
    NextUnread(cfg, s);
    var m := Completed(s.io)[s.seen];
    HostReadLine(cfg, s, cfg.codec.encodeOut(m),
                 Wire(cfg.codec, Completed(s.io)[s.seen + 1..]) + Partial(cfg.codec, s.io), m);
  }

  lemma ReadNext(codec: Codec, io: Io, consumed: nat, seen: nat)
    requires HostView(codec, io, consumed, seen) && seen < |Completed(io)|
    ensures var m := Completed(io)[seen];
            && Read(io, seen + 1) == Read(io, seen) + [m]
            && HostView(codec, io, consumed + |codec.encodeOut(m)| + 1, seen + 1)
  {
    var m := Completed(io)[seen];
    assert Read(io, seen) == Completed(io)[..seen] && Read(io, seen + 1) == Completed(io)[..seen + 1];
    hide Completed, Wire, Read;
    SliceNext(Completed(io), seen);
    EncodedAppend(codec, Read(io, seen), [m]);
    WireOne(codec, m);
  }

  lemma GetNext(stored: Store, m: Outgoing, name: string)
    ensures Get(StoredAfter(stored, m), name) == Get(stored, name) + ParamsIn(m, name)
  {
  }

  lemma StoredMeans(drained: Store, stored: Store, read: seq<Outgoing>, name: string)
    requires Stored(drained, stored, read)
    ensures Get(drained, name) + Get(stored, name) == ParamsOf(read, name)
  {
    hide Get, ParamsOf;
  }

  lemma StoredNextFor(drained: Store, stored: Store, read: seq<Outgoing>, m: Outgoing, name: string)
    requires Stored(drained, stored, read)
    ensures Get(drained, name) + Get(StoredAfter(stored, m), name) == ParamsOf(read + [m], name)
  {
    hide *;
    ParamsSnoc(read, m, name);
    GetNext(stored, m, name);
    StoredMeans(drained, stored, read, name);
    Across(Get(drained, name), Get(stored, name), ParamsIn(m, name));
  }

  lemma StoredNext(drained: Store, stored: Store, read: seq<Outgoing>, m: Outgoing)
    requires Stored(drained, stored, read)
    ensures Stored(drained, StoredAfter(stored, m), read + [m])
  {
    hide Get, ParamsOf, StoredAfter;
    forall name
      ensures Get(drained, name) + Get(StoredAfter(stored, m), name) == ParamsOf(read + [m], name)
    {
      StoredNextFor(drained, stored, read, m, name);
    }
  }

  lemma TransitNext(io: Io, seen: nat)
    requires seen < |Completed(io)|
    ensures OutTransit(io, seen) == Ids(AnswerOf(Completed(io)[seen])) + OutTransit(io, seen + 1)
  {
    var done := Completed(io);
    OutTransitIs(io, seen);
    OutTransitIs(io, seen + 1);
    hide *;
    SliceNext(done, seen);
    AnswersAppend([done[seen]], done[seen + 1..]);
    AnswersOfOne(done[seen]);
    IdsAppend(AnswerOf(done[seen]), Answers(done[seen + 1..]));
    Across(Ids(AnswerOf(done[seen])), Ids(Answers(done[seen + 1..])), Ids(PhaseAnswers(io.Pc(0))));
  }

  /** A response in transit is the one awaited, and the last. */
  lemma MatchedNext(host: Host, lost: bool, m: Outgoing, behind: seq<int>)
    requires host.Awaiting? && Matched(host, lost, Ids(AnswerOf(m)) + behind)
    ensures Matched(HostAfter(host, m), lost, behind)
  {
    assert m.Notif? ==> Ids(AnswerOf(m)) + behind == behind;
    if m.Resp? {
      assert Ids([m.response]) == [m.response.id];
      var transit := [m.response.id] + behind;
      assert transit[0] == m.response.id && |transit| == 1 + |behind|;
    }
  }

  lemma HostReadKeepsGood(cfg: Config, s: Sys)
    requires cfg.codec.Valid() && Good(cfg, s) && CanDo(cfg, s, HostRead)
    ensures Good(cfg, Do(cfg, s, HostRead))
  {
    hide *;
    Parts(cfg, s);
    HostReadShape(cfg, s);
    var m, s' := Completed(s.io)[s.seen], Do(cfg, s, HostRead);
    ReadNext(cfg.codec, s.io, s.consumed, s.seen);
    StoredNext(s.drained, s.stored, Read(s.io, s.seen), m);
    TransitNext(s.io, s.seen);
    Across(Ids(AnswerOf(m)), OutTransit(s.io, s.seen + 1), InTransit(s.loop, s.queue));
    MatchedNext(s.host, s.lost, m, OutTransit(s.io, s.seen + 1) + InTransit(s.loop, s.queue));
    Assemble(cfg, s');
  }

  // ..... Every action

  lemma InitialGood(cfg: Config)
    ensures Good(cfg, INITIAL)
  {
    WireEmpty(cfg.codec);
    assert RequestIds([]) == [] && Ids([]) == [];
  }

  lemma WriteShape(cfg: Config, s: Sys, a: Action)
    requires CanDo(cfg, s, a) && (a.Emit? || a.Write?)
    ensures var step := if a.Emit? then Begin(a.w, Notif(a.notification)) else a.step;
            && Enabled(cfg.codec, s.io, step) && Succeeds(step)
            && (step.Begin? ==> step.w != 0 && Proper(cfg, step.w, step.m))
            && Do(cfg, s, a) == s.(io := Apply(cfg.codec, s.io, step))
  {
  }

  lemma ActionKeepsGood(cfg: Config, s: Sys, a: Action)
    requires cfg.codec.Valid() && Good(cfg, s) && CanDo(cfg, s, a)
    ensures Good(cfg, Do(cfg, s, a))
  {
    hide *;
    match a
    case HostCall(name, params) => HostCallKeepsGood(cfg, s, name, params);
    case HostRead => HostReadKeepsGood(cfg, s);
    case LoopRead => LoopReadKeepsGood(cfg, s);
    case Serve => ServeKeepsGood(cfg, s);
    case Send => SendKeepsGood(cfg, s);
    case Return => ReturnKeepsGood(cfg, s);
    case Emit(w, n) =>
      WriteShape(cfg, s, a);
      WriterKeepsGood(cfg, s, Begin(w, Notif(n)));
    case Write(step) =>
      WriteShape(cfg, s, a);
      WriterKeepsGood(cfg, s, step);
    case _ => QuietKeepsGood(cfg, s, a);
  }

  lemma ReachStep(cfg: Config, run: seq<Action>)
    requires Reach(cfg, run).Some?
    ensures run == [] ==> Reach(cfg, run) == Some(INITIAL)
    ensures run != [] ==>
              var before, a := Reach(cfg, run[..|run| - 1]), run[|run| - 1];
              before.Some? && CanDo(cfg, before.value, a) && Reach(cfg, run) == Some(Do(cfg, before.value, a))
  {
    hide CanDo, Do;
  }

  lemma {:induction false} ReachableGood(cfg: Config, run: seq<Action>)
    requires cfg.codec.Valid() && Reach(cfg, run).Some?
    ensures Good(cfg, Reach(cfg, run).value)
    decreases |run|
  {
    hide *;
    ReachStep(cfg, run);
    if run == [] {
      InitialGood(cfg);
    } else {
      var before := run[..|run| - 1];
      ReachableGood(cfg, before);
      ActionKeepsGood(cfg, Reach(cfg, before).value, run[|run| - 1]);
    }
  }
}
