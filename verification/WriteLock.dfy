/**
 Any number of goroutines writing through one transport: jsonrpc/transport.go, writeLine.

 Each writer marshals, takes the lock, writes the body, writes the newline and releases the lock;
 between any two of these steps any other writer may move. A write may fail after part of its bytes
 went out. A run is a sequence of steps; nothing is assumed about what the writers choose to send.
 */
module WriteLock {
  import opened Wrappers

  import opened Envelope
  import opened Framing
  import opened Ndjson
  import opened Harness

  datatype Phase =
    | Idle
    | Ready(m: Outgoing)        // marshalled, waiting for the lock
    | Locked(m: Outgoing)       // holds the lock, nothing written
    | BodyOut(m: Outgoing)      // holds the lock, body written
    | Unlocking                 // holds the lock, done or failed
  {
    predicate Holds() {
      Locked? || BodyOut? || Unlocking?
    }

    predicate Writing() {
      Locked? || BodyOut?
    }
  }

  /** A message in the order of lock acquisition, or of marshalling. */
  datatype Entry = Entry(writer: nat, m: Outgoing)

  /** What was on the wire when the first write failed: whole records, then part of one. */
  datatype Torn = Torn(whole: seq<Outgoing>, part: bytes)

  datatype Io = Io(
    phases: map<nat, Phase>,
    lock: Option<nat>,
    output: bytes,
    issued: seq<Entry>,
    acquired: seq<Entry>,
    torn: Option<Torn>
  ) {
    function Pc(w: nat): Phase {
      if w in phases then phases[w] else Idle
    }
  }

  const START := Io(map[], None, [], [], [], None)

  datatype Step =
    | Begin(w: nat, m: Outgoing)
    | Acquire(w: nat)
    | WriteBody(w: nat)
    | WriteNewline(w: nat)
    | Release(w: nat)
    | FailBody(w: nat, sent: nat)
    | FailNewline(w: nat, sent: nat)

  predicate Enabled(codec: Codec, io: Io, s: Step) {
    match s
    case Begin(w, _) => io.Pc(w).Idle?
    case Acquire(w) => io.Pc(w).Ready? && io.lock == None
    case WriteBody(w) => io.Pc(w).Locked?
    case WriteNewline(w) => io.Pc(w).BodyOut?
    case Release(w) => io.Pc(w).Unlocking?
    case FailBody(w, sent) => io.Pc(w).Locked? && sent <= |codec.encodeOut(io.Pc(w).m)|
    case FailNewline(w, sent) => io.Pc(w).BodyOut? && sent <= 1
  }

  function Msgs(es: seq<Entry>): (ms: seq<Outgoing>)
    ensures |ms| == |es| && forall i :: 0 <= i < |es| ==> ms[i] == es[i].m
  {
    seq(|es|, i requires 0 <= i < |es| => es[i].m)
  }

  predicate WritingNow(io: Io) {
    io.lock.Some? && io.Pc(io.lock.value).Writing()
  }

  /** The messages whose records are complete, as long as no write has failed. */
  function Completed(io: Io): seq<Outgoing> {
    if WritingNow(io) && io.acquired != [] then Msgs(io.acquired)[..|io.acquired| - 1] else Msgs(io.acquired)
  }

  /** What the lock holder has written of its record. */
  function Partial(codec: Codec, io: Io): bytes {
    if io.lock.Some? && io.Pc(io.lock.value).BodyOut? then codec.encodeOut(io.Pc(io.lock.value).m) else []
  }

  function Tear(io: Io, part: bytes): Option<Torn> {
    if io.torn.Some? then io.torn else Some(Torn(Completed(io), part))
  }

  function Apply(codec: Codec, io: Io, s: Step): Io
    requires Enabled(codec, io, s)
  {
    match s
    case Begin(w, m) =>
      io.(phases := io.phases[w := Ready(m)], issued := io.issued + [Entry(w, m)])
    case Acquire(w) =>
      var m := io.Pc(w).m;
      io.(phases := io.phases[w := Locked(m)], lock := Some(w), acquired := io.acquired + [Entry(w, m)])
    case WriteBody(w) =>
      var m := io.Pc(w).m;
      io.(phases := io.phases[w := BodyOut(m)], output := io.output + codec.encodeOut(m))
    case WriteNewline(w) =>
      io.(phases := io.phases[w := Unlocking], output := io.output + [LF])
    case Release(w) =>
      io.(phases := io.phases[w := Idle], lock := None)
    case FailBody(w, sent) =>
      var part := codec.encodeOut(io.Pc(w).m)[..sent];
      io.(phases := io.phases[w := Unlocking], output := io.output + part, torn := Tear(io, part))
    case FailNewline(w, sent) =>
      var part := if sent == 0 then [] else [LF];
      io.(phases := io.phases[w := Unlocking], output := io.output + part,
          torn := Tear(io, codec.encodeOut(io.Pc(w).m) + part))
  }

  function ByWriter(es: seq<Entry>, w: nat): seq<Outgoing> {
    if es == [] then []
    else ByWriter(es[..|es| - 1], w) + if es[|es| - 1].writer == w then [es[|es| - 1].m] else []
  }

  function Waiting(p: Phase): seq<Outgoing> {
    if p.Ready? then [p.m] else []
  }

  // ----- What every interleaving keeps ------------------------------------------------------

  /** Mutual exclusion: the lock names the one writer that holds it. */
  ghost predicate Exclusive(io: Io) {
    && (forall w: nat :: io.Pc(w).Holds() <==> io.lock == Some(w))
    && (WritingNow(io) ==>
          io.acquired != [] && io.acquired[|io.acquired| - 1] == Entry(io.lock.value, io.Pc(io.lock.value).m))
  }

  /**
   Framing: the output is whole records in the order of lock acquisition, then at most one partial
   record of the lock holder; from the first failing write on, what was whole stays in front.
   */
  ghost predicate Framed(codec: Codec, io: Io) {
    match io.torn
    case None => io.output == Wire(codec, Completed(io)) + Partial(codec, io)
    case Some(t) =>
      && |t.whole| < |io.acquired|
      && t.whole == Msgs(io.acquired)[..|t.whole|]
      && t.part <= codec.encodeOut(io.acquired[|t.whole|].m) + [LF]
      && Wire(codec, t.whole) + t.part <= io.output
  }

  /** Each writer's messages take the lock in the order it issued them. */
  ghost predicate InProgramOrder(io: Io) {
    forall w: nat :: ByWriter(io.issued, w) == ByWriter(io.acquired, w) + Waiting(io.Pc(w))
  }

  ghost predicate Inv(codec: Codec, io: Io) {
    Exclusive(io) && Framed(codec, io) && InProgramOrder(io)
  }

  lemma ExclusiveKept(codec: Codec, io: Io, s: Step)
    requires Exclusive(io) && Enabled(codec, io, s)
    ensures Exclusive(Apply(codec, io, s))
  {
  }

  lemma ByWriterSnoc(es: seq<Entry>, e: Entry, w: nat)
    ensures ByWriter(es + [e], w) == ByWriter(es, w) + if e.writer == w then [e.m] else []
  {
    assert (es + [e])[..|es|] == es;
  }

  lemma OrderKept(codec: Codec, io: Io, s: Step, w: nat)
    requires Enabled(codec, io, s)
    requires ByWriter(io.issued, w) == ByWriter(io.acquired, w) + Waiting(io.Pc(w))
    ensures var io' := Apply(codec, io, s); ByWriter(io'.issued, w) == ByWriter(io'.acquired, w) + Waiting(io'.Pc(w))
  {
    hide ByWriter;
    match s
    case Begin(v, m) =>
      ByWriterSnoc(io.issued, Entry(v, m), w);
      Across(ByWriter(io.acquired, w), Waiting(io.Pc(w)), []);
    case Acquire(v) =>
      ByWriterSnoc(io.acquired, Entry(v, io.Pc(v).m), w);
      Across(ByWriter(io.issued, w), [], []);
    case _ =>
  }

  lemma InProgramOrderKept(codec: Codec, io: Io, s: Step)
    requires InProgramOrder(io) && Enabled(codec, io, s)
    ensures InProgramOrder(Apply(codec, io, s))
  {
    hide Apply, Enabled, ByWriter, Waiting, Io.Pc;
    forall w: nat
      ensures var io' := Apply(codec, io, s); ByWriter(io'.issued, w) == ByWriter(io'.acquired, w) + Waiting(io'.Pc(w))
    {
      OrderKept(codec, io, s, w);
    }
  }

  lemma MsgsSnoc(es: seq<Entry>, e: Entry)
    ensures Msgs(es + [e]) == Msgs(es) + [e.m]
    ensures Msgs(es + [e])[..|es|] == Msgs(es)
  {
  }

  /** After the first failure nothing that was whole is touched. */
  lemma TornKept(codec: Codec, io: Io, s: Step)
    requires io.torn.Some? && Framed(codec, io) && Enabled(codec, io, s)
    ensures Framed(codec, Apply(codec, io, s))
  {
    var io', t := Apply(codec, io, s), io.torn.value;
    assert io'.torn == io.torn && io.output <= io'.output;
    if s.Acquire? {
      MsgsSnoc(io.acquired, Entry(s.w, io.Pc(s.w).m));
      assert Msgs(io'.acquired)[..|t.whole|] == Msgs(io.acquired)[..|t.whole|];
    }
  }

  /** The messages around a write in progress. */
  lemma InProgress(io: Io)
    requires Exclusive(io) && WritingNow(io)
    ensures var m := io.Pc(io.lock.value).m;
            && Msgs(io.acquired) == Completed(io) + [m]
            && io.acquired[|Completed(io)|].m == m
            && Completed(io) == Msgs(io.acquired)[..|Completed(io)|]
  {
    var es := io.acquired;
    assert Msgs(es) == Msgs(es)[..|es| - 1] + [es[|es| - 1].m];
  }

  lemma FramedMeans(codec: Codec, io: Io)
    requires io.torn == None && Framed(codec, io)
    ensures io.output == Wire(codec, Completed(io)) + Partial(codec, io)
  {
    hide Wire, Completed, Partial;
  }

  lemma FramedIs(codec: Codec, io: Io, whole: seq<Outgoing>, part: bytes)
    requires io.torn == None && Completed(io) == whole && Partial(codec, io) == part
    requires io.output == Wire(codec, whole) + part
    ensures Framed(codec, io)
  {
    hide Wire, Completed, Partial;
  }

  lemma NewlineCompletes(codec: Codec, io: Io, w: nat)
    requires Exclusive(io) && io.Pc(w).BodyOut?
    ensures Completed(Apply(codec, io, WriteNewline(w))) == Completed(io) + [io.Pc(w).m]
  {
    InProgress(io);
  }

  lemma NewlineShape(codec: Codec, io: Io, w: nat)
    requires io.torn == None && Exclusive(io) && io.Pc(w).BodyOut?
    ensures Partial(codec, io) == codec.encodeOut(io.Pc(w).m)
    ensures var io' := Apply(codec, io, WriteNewline(w));
            io'.torn == None && Partial(codec, io') == [] && io'.output == io.output + [LF]
  {
    hide Completed, Msgs;
  }

  lemma NewlineKept(codec: Codec, io: Io, w: nat)
    requires io.torn == None && Exclusive(io) && Framed(codec, io) && io.Pc(w).BodyOut?
    ensures Framed(codec, Apply(codec, io, WriteNewline(w)))
  {
    var m, io' := io.Pc(w).m, Apply(codec, io, WriteNewline(w));
    hide *;
    FramedMeans(codec, io);
    NewlineShape(codec, io, w);
    NewlineCompletes(codec, io, w);
    WireOne(codec, m);
    EncodedAppend(codec, Completed(io), [m]);
    Across(Wire(codec, Completed(io)), codec.encodeOut(m), [LF]);
    Across(io'.output, [], []);
    FramedIs(codec, io', Completed(io) + [m], []);
  }

  lemma TornIsFramed(codec: Codec, io: Io, whole: seq<Outgoing>, part: bytes, m: Outgoing)
    requires io.torn == Some(Torn(whole, part)) && |whole| < |io.acquired| && io.acquired[|whole|].m == m
    requires whole == Msgs(io.acquired)[..|whole|]
    requires part <= codec.encodeOut(m) + [LF] && io.output == Wire(codec, whole) + part
    ensures Framed(codec, io)
  {
  }

  lemma BodyAndNewline(body: bytes, sent: nat)
    ensures body + (if sent == 0 then [] else [LF]) <= body + [LF]
  {
  }

  lemma FailBodyKept(codec: Codec, io: Io, w: nat, sent: nat)
    requires io.torn == None && Exclusive(io) && Framed(codec, io) && Enabled(codec, io, FailBody(w, sent))
    ensures Framed(codec, Apply(codec, io, FailBody(w, sent)))
  {
    var m, io' := io.Pc(w).m, Apply(codec, io, FailBody(w, sent));
    var part := codec.encodeOut(m)[..sent];
    InProgress(io);
    assert io'.torn == Some(Torn(Completed(io), part)) && io'.acquired == io.acquired;
    assert io'.output == Wire(codec, Completed(io)) + part;
    assert part <= codec.encodeOut(m) + [LF];
    hide *;
    TornIsFramed(codec, io', Completed(io), part, m);
  }

  lemma FailNewlineKept(codec: Codec, io: Io, w: nat, sent: nat)
    requires io.torn == None && Exclusive(io) && Framed(codec, io) && Enabled(codec, io, FailNewline(w, sent))
    ensures Framed(codec, Apply(codec, io, FailNewline(w, sent)))
  {
    var m, io' := io.Pc(w).m, Apply(codec, io, FailNewline(w, sent));
    var newline: bytes := if sent == 0 then [] else [LF];
    var part := codec.encodeOut(m) + newline;
    InProgress(io);
    assert io.output == Wire(codec, Completed(io)) + codec.encodeOut(m);
    hide Wire, Framed, Completed, Msgs, Exclusive;
    assert io'.torn == Some(Torn(Completed(io), part)) && io'.acquired == io.acquired;
    Across(Wire(codec, Completed(io)), codec.encodeOut(m), newline);
    assert io'.output == Wire(codec, Completed(io)) + part;
    hide *;
    BodyAndNewline(codec.encodeOut(m), sent);
    TornIsFramed(codec, io', Completed(io), part, m);
  }

  /** A step that completes nothing adds what it writes to the partial record. */
  lemma OtherShape(codec: Codec, io: Io, s: Step)
    requires io.torn == None && Exclusive(io) && Enabled(codec, io, s)
    requires s.Begin? || s.Acquire? || s.WriteBody? || s.Release?
    ensures var io' := Apply(codec, io, s);
            var body := if s.WriteBody? then codec.encodeOut(io.Pc(s.w).m) else [];
            && io'.torn == None && Completed(io') == Completed(io)
            && Partial(codec, io') == Partial(codec, io) + body && io'.output == io.output + body
  {
    var io' := Apply(codec, io, s);
    Across(io.output, [], []);
    Across(Partial(codec, io), [], []);
    if s.Acquire? {
      MsgsSnoc(io.acquired, Entry(s.w, io.Pc(s.w).m));
    }
    hide Msgs;
  }

  lemma OtherKept(codec: Codec, io: Io, s: Step)
    requires io.torn == None && Exclusive(io) && Framed(codec, io) && Enabled(codec, io, s)
    requires s.Begin? || s.Acquire? || s.WriteBody? || s.Release?
    ensures Framed(codec, Apply(codec, io, s))
  {
    var io' := Apply(codec, io, s);
    var body := if s.WriteBody? then codec.encodeOut(io.Pc(s.w).m) else [];
    hide *;
    FramedMeans(codec, io);
    OtherShape(codec, io, s);
    Across(Wire(codec, Completed(io)), Partial(codec, io), body);
    FramedIs(codec, io', Completed(io), Partial(codec, io) + body);
  }

  lemma FramedKept(codec: Codec, io: Io, s: Step)
    requires Exclusive(io) && Framed(codec, io) && Enabled(codec, io, s)
    ensures Framed(codec, Apply(codec, io, s))
  {
    hide Framed, Exclusive, Apply;
    if io.torn.Some? {
      TornKept(codec, io, s);
    } else {
      match s
      case WriteNewline(w) => NewlineKept(codec, io, w);
      case FailBody(w, sent) => FailBodyKept(codec, io, w, sent);
      case FailNewline(w, sent) => FailNewlineKept(codec, io, w, sent);
      case _ => OtherKept(codec, io, s);
    }
  }

  lemma InvKept(codec: Codec, io: Io, s: Step)
    requires Inv(codec, io) && Enabled(codec, io, s)
    ensures Inv(codec, Apply(codec, io, s))
  {
    ExclusiveKept(codec, io, s);
    FramedKept(codec, io, s);
    InProgramOrderKept(codec, io, s);
  }

  // ----- Runs -------------------------------------------------------------------------------

  /** The state after a run, if every step of it is enabled. */
  function Run(codec: Codec, steps: seq<Step>): Option<Io> {
    if steps == [] then Some(START)
    else
      match Run(codec, steps[..|steps| - 1])
      case None => None
      case Some(io) =>
        var s := steps[|steps| - 1];
        if Enabled(codec, io, s) then Some(Apply(codec, io, s)) else None
  }

  /** Every state that any interleaving of any writers reaches satisfies the invariant. */
  lemma {:induction false} ReachableInv(codec: Codec, steps: seq<Step>)
    requires Run(codec, steps).Some?
    ensures Inv(codec, Run(codec, steps).value)
  {
    if steps == [] {
      WireEmpty(codec);
    } else {
      var before := steps[..|steps| - 1];
      ReachableInv(codec, before);
      InvKept(codec, Run(codec, before).value, steps[|steps| - 1]);
    }
  }

  /**
   What a reader can make of the output while no write has failed: complete lines decode to the
   completed messages in lock order, and the rest holds no line feed.
   */
  lemma ReachableOutputDecodes(codec: Codec, limit: nat, steps: seq<Step>)
    requires codec.Valid() && Run(codec, steps).Some?
    requires var io := Run(codec, steps).value; io.torn == None && AllFit(codec, limit, Msgs(io.acquired))
    ensures var io := Run(codec, steps).value;
            var lines := Wire(codec, Completed(io));
            && io.output == lines + Partial(codec, io) && LF !in Partial(codec, io)
            && DecodeWire(codec, limit, lines) == Some(Completed(io))
            && Completed(io) <= Msgs(io.acquired) && |io.acquired| <= |Completed(io)| + 1
  {
    var io := Run(codec, steps).value;
    ReachableInv(codec, steps);
    if io.lock.Some? && io.Pc(io.lock.value).BodyOut? {
      assert Clean(codec.encodeOut(io.Pc(io.lock.value).m));
    }
    WireDecodes(codec, limit, Completed(io));
  }

  /** The messages that no step can take back: those completed, before the first failing write if any. */
  function Whole(io: Io): seq<Outgoing> {
    if io.torn.Some? then io.torn.value.whole else Completed(io)
  }

  lemma WholeIsPrefix(codec: Codec, io: Io)
    requires Inv(codec, io)
    ensures Whole(io) <= Msgs(io.acquired) && Wire(codec, Whole(io)) <= io.output
  {
    hide Wire;
  }

  lemma FitPrefix(codec: Codec, limit: nat, ms: seq<Outgoing>, prefix: seq<Outgoing>)
    requires AllFit(codec, limit, ms) && prefix <= ms
    ensures AllFit(codec, limit, prefix)
  {
    assert forall i :: 0 <= i < |prefix| ==> prefix[i] == ms[i];
  }

  /**
   With failing writes or without, a reader of the output reads off the whole messages in lock order
   first, and is then left with whatever follows them.
   */
  lemma ReachableOutputReads(codec: Codec, limit: nat, steps: seq<Step>, io: Io)
    requires codec.Valid() && Run(codec, steps) == Some(io) && AllFit(codec, limit, Msgs(io.acquired))
    ensures Whole(io) <= Msgs(io.acquired) && Wire(codec, Whole(io)) <= io.output
    ensures ReadsOff(codec, limit, io.output, Whole(io), io.output[|Wire(codec, Whole(io))|..])
  {
    hide *;
    ReachableInv(codec, steps);
    WholeIsPrefix(codec, io);
    var whole := Whole(io);
    FitPrefix(codec, limit, Msgs(io.acquired), whole);
    var rest := io.output[|Wire(codec, whole)|..];
    assert io.output == Wire(codec, whole) + rest;
    ReadsWire(codec, limit, whole, rest);
  }

  /** Alone, the five steps of a writer are the WriteLine of the sequential transport. */
  lemma AloneIsWriteLine(codec: Codec, io: Io, w: nat, m: Outgoing)
    requires io.lock == None && io.Pc(w).Idle?
    ensures var s1 := Apply(codec, io, Begin(w, m));
            var s2 := Apply(codec, s1, Acquire(w));
            var s3 := Apply(codec, s2, WriteBody(w));
            var s4 := Apply(codec, s3, WriteNewline(w));
            var s5 := Apply(codec, s4, Release(w));
            && s5.output == io.output + Wire(codec, [m])
            && s5.lock == None && s5.Pc(w).Idle? && s5.acquired == io.acquired + [Entry(w, m)]
  {
    WireOne(codec, m);
    assert io.output + codec.encodeOut(m) + [LF] == io.output + (codec.encodeOut(m) + [LF]);
  }
}
