/**
 What holds of every session of the request loop, over every input, extension and cancellation.
 */
module SessionLaws {
  import opened Wrappers

  import opened Envelope
  import opened Framing
  import opened Ndjson
  import opened Handlers
  import opened CompositeExtension
  import opened Dispatcher

  // ----- Which requests are handled ---------------------------------------------------------

  predicate IsShutdown(req: Request) {
    req.name == METHOD_SHUTDOWN
  }

  /** n is the number of requests before the first cancellation, up to and including a shutdown. */
  ghost predicate StopsAfter(cancelled: nat -> bool, first: nat, rs: seq<Request>, n: nat) {
    && n <= |rs|
    && (forall j: nat :: first <= j < first + n ==> !cancelled(j))
    && (forall i: nat :: i + 1 < n ==> !IsShutdown(rs[i]))
    && (n < |rs| ==> cancelled(first + n) || (n > 0 && IsShutdown(rs[n - 1])))
  }

  lemma {:induction false} TakenMeans(cancelled: nat -> bool, first: nat, rs: seq<Request>)
    ensures StopsAfter(cancelled, first, rs, Taken(cancelled, first, rs))
    decreases |rs|
  {
    var n := Taken(cancelled, first, rs);
    if rs != [] && !cancelled(first) && !IsShutdown(rs[0]) {
      TakenMeans(cancelled, first + 1, rs[1..]);
      forall i: nat | i + 1 < n
        ensures !IsShutdown(rs[i])
      {
        if i > 0 {
          assert !IsShutdown(rs[1..][i - 1]);
        }
      }
      assert n < |rs| ==> first + 1 + (n - 1) == first + n;
    }
  }

  lemma TakenIs(cancelled: nat -> bool, rs: seq<Request>, n: nat)
    requires StopsAfter(cancelled, 0, rs, n)
    ensures Taken(cancelled, 0, rs) == n
  {
    TakenMeans(cancelled, 0, rs);
    hide Taken;
  }

  /** The handled requests are exactly those before the first of shutdown, cancellation and the end. */
  lemma HandledPrefix(ext: Extension, codec: Codec, limit: nat, cancelled: nat -> bool, input: bytes)
    ensures var s, p := SessionOver(ext, codec, limit, cancelled, input), Parse(codec, limit, input);
            && s.handled <= p.requests
            && StopsAfter(cancelled, 0, p.requests, |s.handled|)
            && (s.err.Some? <==> s.handled == p.requests && !EndsInShutdown(s.handled) && p.unreadable.Some?)
            && (s.err.Some? ==> s.err == p.unreadable)
            && s.calls == AllCalls(ext, codec, s.handled)
            && s.written == Outputs(ext, codec, s.handled) +
                            if s.err.Some? then [Resp(ParseErrorResponse(s.err.value))] else []
  {
    TakenMeans(cancelled, 0, Parse(codec, limit, input).requests);
  }

  /** A shutdown request can only be the last one handled, and then Run returns no error. */
  lemma ShutdownIsLast(ext: Extension, codec: Codec, limit: nat, cancelled: nat -> bool, input: bytes)
    ensures var s := SessionOver(ext, codec, limit, cancelled, input);
            && (forall i :: 0 <= i < |s.handled| - 1 ==> !IsShutdown(s.handled[i]))
            && (EndsInShutdown(s.handled) ==> s.err == None)
  {
    TakenMeans(cancelled, 0, Parse(codec, limit, input).requests);
  }

  /** The session's output, by its two ways of ending. */
  lemma SessionOutput(ext: Extension, codec: Codec, limit: nat, cancelled: nat -> bool, input: bytes)
    ensures var s := SessionOver(ext, codec, limit, cancelled, input);
            && s.calls == AllCalls(ext, codec, s.handled)
            && (s.err == None ==> s.written == Outputs(ext, codec, s.handled))
            && (s.err.Some? ==> s.written == Outputs(ext, codec, s.handled) + [Resp(ParseErrorResponse(s.err.value))])
  {
    HandledPrefix(ext, codec, limit, cancelled, input);
  }

  /** What a host sends for a sequence of requests. */
  function Sent(codec: Codec, rs: seq<Request>): bytes {
    Frame(EncodedRequests(codec, rs))
  }

  lemma SentFirst(codec: Codec, rs: seq<Request>, tail: bytes)
    requires rs != []
    ensures Sent(codec, rs) + tail == codec.encodeRequest(rs[0]) + [LF] + (Sent(codec, rs[1..]) + tail)
  {
  }

  lemma SentNone(codec: Codec, tail: bytes)
    ensures Sent(codec, []) + tail == tail
  {
  }

  lemma {:induction false} ParseAfterSent(codec: Codec, limit: nat, rs: seq<Request>, tail: bytes, more: seq<Request>,
                                          end: Option<string>)
    requires codec.Valid() && Parse(codec, limit, tail) == Parsed(more, end)
    requires forall i :: 0 <= i < |rs| ==> |codec.encodeRequest(rs[i])| < limit
    ensures Parse(codec, limit, Sent(codec, rs) + tail) == Parsed(rs + more, end)
    decreases |rs|
  {
    hide *;
    if rs == [] {
      SentNone(codec, tail);
      Across([], more, []);
    } else {
      var rest := Sent(codec, rs[1..]) + tail;
      ParseAfterSent(codec, limit, rs[1..], tail, more, end);
      SentFirst(codec, rs, tail);
      ReadsFirst(codec, limit, rs[0], rest);
      ParseStep(codec, limit, Sent(codec, rs) + tail, rs[0], rest, rs[1..] + more, end);
      assert [rs[0]] + rs[1..] == rs;
      Across([rs[0]], rs[1..], more);
    }
  }

  lemma {:induction false} TakenStopsAtShutdown(cancelled: nat -> bool, first: nat, rs: seq<Request>,
                                                more: seq<Request>)
    requires EndsInShutdown(rs)
    ensures Taken(cancelled, first, rs + more) == Taken(cancelled, first, rs)
    decreases |rs|
  {
    if !cancelled(first) && !IsShutdown(rs[0]) {
      assert (rs + more)[1..] == rs[1..] + more;
      TakenStopsAtShutdown(cancelled, first + 1, rs[1..], more);
    }
  }

  lemma SameSession(ext: Extension, codec: Codec, limit: nat, cancelled: nat -> bool, a: bytes, b: bytes,
                    rs: seq<Request>, more: seq<Request>, end: Option<string>)
    requires EndsInShutdown(rs)
    requires Parse(codec, limit, a) == Parsed(rs + more, end) && Parse(codec, limit, b) == Parsed(rs, None)
    ensures SessionOver(ext, codec, limit, cancelled, a) == SessionOver(ext, codec, limit, cancelled, b)
  {
    var n := Taken(cancelled, 0, rs);
    TakenStopsAtShutdown(cancelled, 0, rs, more);
    TakenMeans(cancelled, 0, rs);
    assert (rs + more)[..n] == rs[..n];
  }

  /** Whatever bytes follow a shutdown request, garbage included, change nothing. */
  lemma NothingAfterShutdown(ext: Extension, codec: Codec, limit: nat, cancelled: nat -> bool,
                             rs: seq<Request>, tail: bytes)
    requires codec.Valid() && EndsInShutdown(rs)
    requires forall i :: 0 <= i < |rs| ==> |codec.encodeRequest(rs[i])| < limit
    ensures SessionOver(ext, codec, limit, cancelled, Sent(codec, rs) + tail) ==
            SessionOver(ext, codec, limit, cancelled, Sent(codec, rs))
  {
    var q := Parse(codec, limit, tail);
    ParseAfterSent(codec, limit, rs, tail, q.requests, q.unreadable);
    ParseAfterSent(codec, limit, rs, [], [], None);
    assert Sent(codec, rs) + [] == Sent(codec, rs) && rs + [] == rs;
    SameSession(ext, codec, limit, cancelled, Sent(codec, rs) + tail, Sent(codec, rs), rs, q.requests, q.unreadable);
  }

  // ----- Answers ----------------------------------------------------------------------------

  /** The responses among the messages, notifications removed. */
  function Answers(ms: seq<Outgoing>): seq<Response> {
    if ms == [] then []
    else Answers(ms[..|ms| - 1]) + match ms[|ms| - 1] case Resp(r) => [r] case Notif(_) => []
  }

  lemma {:induction false} AnswersAppend(a: seq<Outgoing>, b: seq<Outgoing>)
    ensures Answers(a + b) == Answers(a) + Answers(b)
    decreases |b|
  {
    if b == [] {
      assert a + b == a;
    } else {
      var init := b[..|b| - 1];
      assert (a + b)[..|a + b| - 1] == a + init;
      AnswersAppend(a, init);
    }
  }

  lemma {:induction false} NotificationsHaveNoAnswers(es: seq<Emission>)
    ensures Answers(Notifications(es)) == []
  {
    if es == [] {
    } else {
      NotificationsHaveNoAnswers(es[..|es| - 1]);
      AnswersAppend(Notifications(es[..|es| - 1]), NotificationOf(es[|es| - 1]));
    }
  }

  lemma {:induction false} EmittedHasNoAnswers(ext: Extension, k: nat, calls: seq<Call>)
    ensures Answers(Emitted(ext, k, calls)) == []
  {
    if calls == [] {
    } else {
      var init, last := calls[..|calls| - 1], calls[|calls| - 1];
      EmittedHasNoAnswers(ext, k, init);
      NotificationsHaveNoAnswers(ext.emits(k, last));
      AnswersAppend(Emitted(ext, k, init), Notifications(ext.emits(k, last)));
    }
  }

  /** The IDs of the handled requests that are owed an answer. */
  function OwedIds(ext: Extension, rs: seq<Request>): seq<int> {
    if rs == [] then []
    else
      var k := |rs| - 1;
      OwedIds(ext, rs[..k]) + if Unanswerable(ext, k, rs[k]) then [] else [rs[k].id]
  }

  function Ids(rs: seq<Response>): (ids: seq<int>)
    ensures |ids| == |rs| && forall i :: 0 <= i < |rs| ==> ids[i] == rs[i].id
  {
    seq(|rs|, i requires 0 <= i < |rs| => rs[i].id)
  }

  /** The response of one request, as a sequence of at most one. */
  function Reply(ext: Extension, codec: Codec, k: nat, req: Request): seq<Response> {
    match Handle(ext, codec, k, req).response
    case Some(r) => [r]
    case None => []
  }

  lemma WrittenAnswers(ext: Extension, codec: Codec, k: nat, req: Request)
    ensures Answers(Written(ext, k, Handle(ext, codec, k, req))) == Reply(ext, codec, k, req)
  {
    var h := Handle(ext, codec, k, req);
    EmittedHasNoAnswers(ext, k, h.calls);
    var reply := match h.response case Some(r) => [Resp(r)] case None => [];
    AnswersAppend(Emitted(ext, k, h.calls), reply);
  }

  lemma OutputsNext(ext: Extension, codec: Codec, rs: seq<Request>, req: Request)
    ensures var k := |rs|;
            Outputs(ext, codec, rs + [req]) == Outputs(ext, codec, rs) + Written(ext, k, Handle(ext, codec, k, req))
  {
    assert (rs + [req])[..|rs|] == rs;
    hide Handle, Written;
  }

  lemma OutputsSnoc(ext: Extension, codec: Codec, rs: seq<Request>, req: Request)
    ensures Answers(Outputs(ext, codec, rs + [req])) ==
            Answers(Outputs(ext, codec, rs)) + Reply(ext, codec, |rs|, req)
  {
    hide *;
    OutputsNext(ext, codec, rs, req);
    WrittenAnswers(ext, codec, |rs|, req);
    AnswersAppend(Outputs(ext, codec, rs), Written(ext, |rs|, Handle(ext, codec, |rs|, req)));
  }

  lemma ReplyIsOwed(ext: Extension, codec: Codec, k: nat, req: Request)
    ensures Ids(Reply(ext, codec, k, req)) == if Unanswerable(ext, k, req) then [] else [req.id]
    ensures forall i :: 0 <= i < |Reply(ext, codec, k, req)| ==> Reply(ext, codec, k, req)[i].WellFormed()
  {
    OneAnswer(ext, codec, k, req);
  }

  predicate AllWellFormed(rs: seq<Response>) {
    forall i :: 0 <= i < |rs| ==> rs[i].WellFormed()
  }

  lemma IdsAppend(a: seq<Response>, b: seq<Response>)
    ensures Ids(a + b) == Ids(a) + Ids(b)
    ensures AllWellFormed(a) && AllWellFormed(b) ==> AllWellFormed(a + b)
  {
  }

  lemma {:induction false} OutputsAnswerOnce(ext: Extension, codec: Codec, rs: seq<Request>)
    ensures Ids(Answers(Outputs(ext, codec, rs))) == OwedIds(ext, rs)
    ensures AllWellFormed(Answers(Outputs(ext, codec, rs)))
    decreases |rs|
  {
    if rs == [] {
    } else {
      var k := |rs| - 1;
      var before, own := Outputs(ext, codec, rs[..k]), Reply(ext, codec, k, rs[k]);
      OutputsAnswerOnce(ext, codec, rs[..k]);
      WrittenAnswers(ext, codec, k, rs[k]);
      ReplyIsOwed(ext, codec, k, rs[k]);
      AnswersAppend(before, Written(ext, k, Handle(ext, codec, k, rs[k])));
      IdsAppend(Answers(before), own);
    }
  }

  /**
   Exactly one answer per request: with notifications removed the response IDs are those of the
   handled requests in order, except an initialize whose result does not marshal; an unreadable line
   adds one last response with ID 0; and every response carries exactly one of result and error.
   */
  lemma OneAnswerEach(ext: Extension, codec: Codec, limit: nat, cancelled: nat -> bool, input: bytes)
    ensures var s := SessionOver(ext, codec, limit, cancelled, input);
            && Ids(Answers(s.written)) == OwedIds(ext, s.handled) + (if s.err.Some? then [0] else [])
            && AllWellFormed(Answers(s.written))
  {
    hide SessionOver, Parse, Outputs;
    SessionOutput(ext, codec, limit, cancelled, input);
    var s := SessionOver(ext, codec, limit, cancelled, input);
    var base := Outputs(ext, codec, s.handled);
    OutputsAnswerOnce(ext, codec, s.handled);
    if s.err.Some? {
      var last := ParseErrorResponse(s.err.value);
      assert Answers([Resp(last)]) == [last];
      AnswersAppend(base, [Resp(last)]);
      IdsAppend(Answers(base), [last]);
    }
  }

  /** The same, as a host decodes it from the bytes of the session. */
  lemma OneAnswerOnTheWire(ext: Extension, codec: Codec, limit: nat, cancelled: nat -> bool, input: bytes,
                           hostLimit: nat)
    requires codec.Valid()
    requires AllFit(codec, hostLimit, SessionOver(ext, codec, limit, cancelled, input).written)
    ensures var s := SessionOver(ext, codec, limit, cancelled, input);
            var decoded := DecodeWire(codec, hostLimit, Wire(codec, s.written));
            && decoded.Some?
            && Ids(Answers(decoded.value)) == OwedIds(ext, s.handled) + (if s.err.Some? then [0] else [])
            && AllWellFormed(Answers(decoded.value))
  {
    WireDecodes(codec, hostLimit, SessionOver(ext, codec, limit, cancelled, input).written);
    OneAnswerEach(ext, codec, limit, cancelled, input);
  }

  /** Parsing is decoding line by line, up to the first line that does not decode. */
  lemma {:induction false} ParseIsLines(codec: Codec, limit: nat, input: bytes)
    ensures var p, t := Parse(codec, limit, input), AllTexts(limit, input);
            && |p.requests| <= |t.lines|
            && (forall i :: 0 <= i < |p.requests| ==> codec.decodeRequest(t.lines[i]) == Ok(p.requests[i]))
            && if |p.requests| < |t.lines| then
                 var d := codec.decodeRequest(t.lines[|p.requests|]);
                 d.Err? && p.unreadable == Some("unmarshal request: " + d.error)
               else
                 p.unreadable == if t.complete then None else Some("read: bufio.Scanner: token too long")
    decreases |input|
  {
    hide NextText;
    var next := NextText(limit, input);
    match next
    case End =>
    case TooLong(_) =>
      assert "read: " + TOO_LONG == "read: bufio.Scanner: token too long";
    case Line(text, rest) =>
      ParseIsLines(codec, limit, rest);
      var p, t := Parse(codec, limit, rest), AllTexts(limit, rest);
      assert AllTexts(limit, input).lines == [text] + t.lines;
      match codec.decodeRequest(text)
      case Err(_) =>
      case Ok(req) =>
        assert Parse(codec, limit, input).requests == [req] + p.requests;
  }

  /** How a session ends, seen from the lines of its input that are not blank. */
  datatype Ending =
    | AfterShutdown
    | AtCancellation                // a request was read after cancellation
    | AtEnd
    | AtGarbage(why: string)        // a line that does not decode
    | AtLongLine

  ghost predicate EndsThus(codec: Codec, cancelled: nat -> bool, t: Texts, handled: seq<Request>, e: Ending) {
    var n := |handled|;
    && n <= |t.lines|
    && match e
       case AfterShutdown => EndsInShutdown(handled)
       case AtCancellation => n < |t.lines| && codec.decodeRequest(t.lines[n]).Ok? && cancelled(n)
       case AtEnd => n == |t.lines| && t.complete
       case AtGarbage(why) => n < |t.lines| && codec.decodeRequest(t.lines[n]) == Err(why)
       case AtLongLine => n == |t.lines| && !t.complete
  }

  /** What Run returns, and answers last, for each ending. */
  function ErrorOf(e: Ending): Option<string> {
    match e
    case AtGarbage(why) => Some("unmarshal request: " + why)
    case AtLongLine => Some("read: bufio.Scanner: token too long")
    case _ => None
  }

  /**
   A session, said of its lines: each line handled decodes to its request, and the session ends after
   a shutdown, or else at the first line read after cancellation, at the end of the input, at a line
   that does not decode, or at one that is too long; and it returns an error in the last two cases
   only, which it also answers, last, with ID 0.
   */
  lemma SessionOfLines(ext: Extension, codec: Codec, limit: nat, cancelled: nat -> bool, input: bytes)
    returns (e: Ending)
    ensures var s, t := SessionOver(ext, codec, limit, cancelled, input), AllTexts(limit, input);
            && EndsThus(codec, cancelled, t, s.handled, e) && (EndsInShutdown(s.handled) ==> e.AfterShutdown?)
            && (forall i :: 0 <= i < |s.handled| ==>
                  codec.decodeRequest(t.lines[i]) == Ok(s.handled[i]) && !cancelled(i)
                  && (i < |s.handled| - 1 ==> s.handled[i].name != "shutdown"))
            && s.err == ErrorOf(e)
            && s.written == Outputs(ext, codec, s.handled) +
                            if e.AtGarbage? || e.AtLongLine? then
                              [Resp(Response(None, Some(RPCError(-32700, "invalid request: " + ErrorOf(e).value)), 0))]
                            else []
  {
    var s, t, p := SessionOver(ext, codec, limit, cancelled, input), AllTexts(limit, input), Parse(codec, limit, input);
    hide Parse, AllTexts, SessionOver, Outputs;
    ParseIsLines(codec, limit, input);
    HandledPrefix(ext, codec, limit, cancelled, input);
    var n := |s.handled|;
    if EndsInShutdown(s.handled) {
      e := AfterShutdown;
    } else if n < |p.requests| {
      e := AtCancellation;
    } else if n < |t.lines| {
      e := AtGarbage(codec.decodeRequest(t.lines[n]).error);
    } else {
      e := if t.complete then AtEnd else AtLongLine;
    }
  }

  /**
   A line that does not decode, behind any requests that are handled and in front of anything: the
   session returns the error, and answers it last.
   */
  lemma GarbageEndsSession(ext: Extension, codec: Codec, limit: nat, cancelled: nat -> bool,
                           rs: seq<Request>, line: bytes, why: string, tail: bytes)
    requires codec.Valid() && Fitting(limit, line) && codec.decodeRequest(line) == Err(why)
    requires forall i :: 0 <= i < |rs| ==>
               |codec.encodeRequest(rs[i])| < limit && rs[i].name != "shutdown" && !cancelled(i)
    ensures var s := SessionOver(ext, codec, limit, cancelled, Sent(codec, rs) + (line + [LF] + tail));
            var error := RPCError(-32700, "invalid request: " + ("unmarshal request: " + why));
            && s.handled == rs && s.err == Some("unmarshal request: " + why)
            && s.written == Outputs(ext, codec, rs) + [Resp(Response(None, Some(error), 0))]
  {
    var rest := line + [LF] + tail;
    assert Clean(line) && |line| < limit;
    ScanClean(limit, line, tail);
    assert Parse(codec, limit, rest) == Parsed([], Some("unmarshal request: " + why));
    assert StopsAfter(cancelled, 0, rs, |rs|) && !EndsInShutdown(rs);
    TakenIs(cancelled, rs, |rs|);
    ParseAfterSent(codec, limit, rs, rest, [], Some("unmarshal request: " + why));
    hide Parse, Taken, Outputs, Sent;
    assert rs + [] == rs && rs[..|rs|] == rs;
  }

  /** The answer with ID 0: a session that consists of one line over the limit. */
  lemma OverlongLineGetsZero(ext: Extension, codec: Codec, limit: nat, cancelled: nat -> bool) returns (input: bytes)
    ensures var s := SessionOver(ext, codec, limit, cancelled, input);
            && s.written == [Resp(ErrorResponse(0, ERR_PARSE, "invalid request: read: " + TOO_LONG))]
            && s.err == Some("read: " + TOO_LONG) && s.handled == []
  {
    input := seq(limit + 1, _ => 0);
    assert NextText(limit, input) == TooLong(input);
    assert Parse(codec, limit, input) == Parsed([], Some("read: " + TOO_LONG));
    var text := "invalid request: " + ("read: " + TOO_LONG);
    assert text == "invalid request: read: " + TOO_LONG;
  }

  // ----- Lifecycle --------------------------------------------------------------------------

  function ShutdownsIn(calls: seq<Call>): seq<Call> {
    if calls == [] then []
    else ShutdownsIn(calls[..|calls| - 1]) + if calls[|calls| - 1].ShutdownCall? then [calls[|calls| - 1]] else []
  }

  lemma {:induction false} ShutdownsAppend(a: seq<Call>, b: seq<Call>)
    ensures ShutdownsIn(a + b) == ShutdownsIn(a) + ShutdownsIn(b)
    decreases |b|
  {
    if b == [] {
      assert a + b == a;
    } else {
      var init := b[..|b| - 1];
      assert (a + b)[..|a + b| - 1] == a + init;
      ShutdownsAppend(a, init);
    }
  }

  lemma {:induction false} ShutdownsOnly(calls: seq<Call>)
    ensures (forall i :: 0 <= i < |calls| ==> calls[i].ShutdownCall?) ==> ShutdownsIn(calls) == calls
    ensures (forall i :: 0 <= i < |calls| ==> !calls[i].ShutdownCall?) ==> ShutdownsIn(calls) == []
  {
    if calls == [] {
    } else {
      ShutdownsOnly(calls[..|calls| - 1]);
    }
  }

  lemma {:induction false} InitCallsOnly(ext: Extension, k: nat, n: nat)
    requires n <= |ORDER|
    ensures forall i :: 0 <= i < |InitAfter(ext, k, n).calls| ==> InitAfter(ext, k, n).calls[i].InitCall?
  {
    if n == 0 {
    } else {
      InitCallsOnly(ext, k, n - 1);
    }
  }

  lemma HandledShutdowns(ext: Extension, codec: Codec, k: nat, req: Request)
    ensures ShutdownsIn(Handle(ext, codec, k, req).calls) ==
            if IsShutdown(req) then ShutdownCalls(Live(ext, |ORDER|)) else []
  {
    if IsShutdown(req) {
      ShutdownMeans(ext, k, |ORDER|);
      ShutdownsOnly(ShutdownCalls(Live(ext, |ORDER|)));
    } else if req.name == METHOD_INITIALIZE {
      InitCallsOnly(ext, k, |ORDER|);
      ShutdownsOnly(HandleInitialize(ext, k, req).calls);
    } else {
      ShutdownsOnly(HandleMethod(ext, codec, k, req).calls);
    }
  }

  lemma ShutdownsOfLast(ext: Extension, codec: Codec, rs: seq<Request>)
    requires rs != []
    ensures var k := |rs| - 1;
            ShutdownsIn(AllCalls(ext, codec, rs)) ==
            ShutdownsIn(AllCalls(ext, codec, rs[..k])) +
            if IsShutdown(rs[k]) then ShutdownCalls(Live(ext, |ORDER|)) else []
  {
    hide Handle, Live;
    var k := |rs| - 1;
    HandledShutdowns(ext, codec, k, rs[k]);
    ShutdownsAppend(AllCalls(ext, codec, rs[..k]), Handle(ext, codec, k, rs[k]).calls);
  }

  lemma {:induction false} ShutdownsOfSession(ext: Extension, codec: Codec, rs: seq<Request>)
    requires forall i :: 0 <= i < |rs| - 1 ==> !IsShutdown(rs[i])
    ensures ShutdownsIn(AllCalls(ext, codec, rs)) ==
            if EndsInShutdown(rs) then ShutdownCalls(Live(ext, |ORDER|)) else []
    decreases |rs|
  {
    if rs == [] {
    } else {
      hide AllCalls, ShutdownsIn, Live;
      ShutdownsOfSession(ext, codec, rs[..|rs| - 1]);
      ShutdownsOfLast(ext, codec, rs);
    }
  }

  lemma ShutdownReply(ext: Extension, codec: Codec, k: nat, req: Request)
    requires IsShutdown(req)
    ensures var live, reply := Live(ext, |ORDER|), Reply(ext, codec, k, req);
            && |reply| == 1 && reply[0].id == req.id
            && (reply[0].error == None <==> forall i :: 0 <= i < |live| ==> ShutdownSucceeds(ext, k, live[i]))
  {
    ShutdownMeans(ext, k, |ORDER|);
    hide Live, ShutdownAfter, ShutdownError, ShutdownSucceeds;
  }

  /** The answer to the shutdown request that ends a run: a success iff every handler shut down. */
  lemma ShutdownAnswer(ext: Extension, codec: Codec, rs: seq<Request>)
    requires EndsInShutdown(rs)
    ensures var k, live, answers := |rs| - 1, Live(ext, |ORDER|), Answers(Outputs(ext, codec, rs));
            && answers != [] && answers[|answers| - 1].id == rs[k].id
            && (answers[|answers| - 1].error == None <==>
                forall i :: 0 <= i < |live| ==> ShutdownSucceeds(ext, k, live[i]))
  {
    var k := |rs| - 1;
    assert IsShutdown(rs[k]);
    hide *;
    assert rs == rs[..k] + [rs[k]];
    OutputsSnoc(ext, codec, rs[..k], rs[k]);
    ShutdownReply(ext, codec, k, rs[k]);
  }

  /**
   Shutdown over whole runs: if a shutdown request ends the session, every installed handler is shut
   down exactly once, in the fixed order, whatever happened before; otherwise none is.
   */
  lemma ShutdownOnce(ext: Extension, codec: Codec, limit: nat, cancelled: nat -> bool, input: bytes)
    ensures var s := SessionOver(ext, codec, limit, cancelled, input);
            && ShutdownsIn(s.calls) == (if EndsInShutdown(s.handled) then ShutdownCalls(Live(ext, |ORDER|)) else [])
            && (EndsInShutdown(s.handled) ==> s.written == Outputs(ext, codec, s.handled))
  {
    SessionOutput(ext, codec, limit, cancelled, input);
    ShutdownIsLast(ext, codec, limit, cancelled, input);
    hide *;
    ShutdownsOfSession(ext, codec, SessionOver(ext, codec, limit, cancelled, input).handled);
  }

  /** Each of the eight lists is the in-order concatenation of the handlers' own. */
  ghost predicate MergedFrom(ext: Extension, k: nat, live: seq<Slot>, merged: Registrations) {
    forall f :: ListOf(merged, f) == Concatenated(ext, k, live, f)
  }

  /**
   One initialize with good parameters: if every installed handler succeeds, each of the eight lists
   of the result is the in-order concatenation of the handlers' own, and the answer is a success iff
   that result marshals, and else there is none; a failing handler stops it at exactly that position.
   */
  lemma InitializeAnswer(ext: Extension, codec: Codec, k: nat, req: Request)
    requires req.name == METHOD_INITIALIZE && ParamsError(ext, req, Optional) == None
    ensures var h, live := Handle(ext, codec, k, req), Live(ext, |ORDER|);
            if forall i :: 0 <= i < |live| ==> InitSucceeds(ext, k, live[i]) then
              exists merged :: MergedFrom(ext, k, live, merged)
                && h.calls == InitCalls(live)
                && h.response == match ext.regsPayload(merged)
                                 case Json(raw) => Some(SuccessResponse(req.id, raw))
                                 case Unmarshallable(_) => None
            else
              exists i: nat :: FirstFailure(ext, k, live, i)
                && h.calls == InitCalls(live[..i + 1])
                && h.response == Some(ErrorResponse(req.id, -32002,
                                                    live[i].Name() + " init: " + ext.init(k, live[i]).reason))
  {
    var s, live := InitAfter(ext, k, |ORDER|), Live(ext, |ORDER|);
    InitMeans(ext, k, |ORDER|);
    if InitDone(ext, k, live, s) {
      assert MergedFrom(ext, k, live, s.merged);
    } else {
      var i: nat :| InitStoppedAt(ext, k, live, s, i);
      assert FirstFailure(ext, k, live, i);
    }
  }

  /** The reply to each handled request stands among the answers where the answers owed before it end. */
  lemma {:induction false} ReplyInSession(ext: Extension, codec: Codec, rs: seq<Request>, k: nat)
    requires k < |rs|
    ensures var answers, reply := Answers(Outputs(ext, codec, rs)), Reply(ext, codec, k, rs[k]);
            var at := |OwedIds(ext, rs[..k])|;
            at + |reply| <= |answers| && answers[at..at + |reply|] == reply
    decreases |rs|
  {
    hide *;
    var before, last := rs[..|rs| - 1], rs[|rs| - 1];
    assert rs == before + [last];
    OutputsSnoc(ext, codec, before, last);
    if k == |before| {
      OutputsAnswerOnce(ext, codec, before);
      assert rs[..k] == before;
    } else {
      ReplyInSession(ext, codec, before, k);
      assert before[..k] == rs[..k] && before[k] == rs[k];
      var at, n := |OwedIds(ext, rs[..k])|, |Reply(ext, codec, k, rs[k])|;
      SliceOfPrefix(Answers(Outputs(ext, codec, before)), Reply(ext, codec, |before|, last), at, at + n);
    }
  }

  lemma SliceOfPrefix<T>(a: seq<T>, b: seq<T>, lo: nat, hi: nat)
    requires lo <= hi <= |a|
    ensures (a + b)[lo..hi] == a[lo..hi]
  {
  }

  predicate Has(answers: seq<Response>, at: nat, r: Response) {
    at < |answers| && answers[at] == r
  }

  /** The answers a host decodes from a session: those of the handled requests, then maybe one more. */
  lemma DecodedAnswers(ext: Extension, codec: Codec, limit: nat, cancelled: nat -> bool, input: bytes,
                       hostLimit: nat, s: Session)
    requires codec.Valid()
    requires s == SessionOver(ext, codec, limit, cancelled, input) && AllFit(codec, hostLimit, s.written)
    ensures var decoded := DecodeWire(codec, hostLimit, Wire(codec, s.written));
            decoded.Some? && Answers(Outputs(ext, codec, s.handled)) <= Answers(decoded.value)
  {
    hide *;
    WireDecodes(codec, hostLimit, s.written);
    SessionOutput(ext, codec, limit, cancelled, input);
    if s.err.Some? {
      AnswersAppend(Outputs(ext, codec, s.handled), [Resp(ParseErrorResponse(s.err.value))]);
    }
  }

  /** The outcome of the k-th request, an initialize, and its answer at a place among the answers. */
  ghost predicate InitializeAnswered(ext: Extension, k: nat, req: Request, answers: seq<Response>, at: nat) {
    var live := Live(ext, |ORDER|);
    if forall i :: 0 <= i < |live| ==> InitSucceeds(ext, k, live[i]) then
      exists merged :: MergedFrom(ext, k, live, merged)
        && match ext.regsPayload(merged)
           case Json(raw) => Has(answers, at, SuccessResponse(req.id, raw))
           case Unmarshallable(_) => Unanswerable(ext, k, req)
    else
      exists i: nat :: FirstFailure(ext, k, live, i)
        && Has(answers, at, ErrorResponse(req.id, -32002,
                                          live[i].Name() + " init: " + ext.init(k, live[i]).reason))
  }

  lemma InitializeReply(ext: Extension, codec: Codec, k: nat, req: Request, answers: seq<Response>, at: nat)
    requires req.name == METHOD_INITIALIZE && ParamsError(ext, req, Optional) == None
    requires Reply(ext, codec, k, req) != [] ==> Has(answers, at, Reply(ext, codec, k, req)[0])
    ensures InitializeAnswered(ext, k, req, answers, at)
  {
    InitializeAnswer(ext, codec, k, req);
    OneAnswer(ext, codec, k, req);
    hide Live, Handle, Unanswerable, MergedFrom, FirstFailure, ParamsError, InitSucceeds, Has;
  }

  /**
   Initialize over whole sessions: every handled initialize with good parameters is answered on the
   wire, right after the answers owed before it, with the merged registrations or with the labelled
   error of the first failing handler; only one whose result does not marshal has no answer.
   */
  lemma InitializesOfSession(ext: Extension, codec: Codec, limit: nat, cancelled: nat -> bool, input: bytes,
                             hostLimit: nat, s: Session, k: nat)
    requires codec.Valid()
    requires s == SessionOver(ext, codec, limit, cancelled, input) && AllFit(codec, hostLimit, s.written)
    requires k < |s.handled| && s.handled[k].name == METHOD_INITIALIZE
    requires ParamsError(ext, s.handled[k], Optional) == None
    ensures var decoded := DecodeWire(codec, hostLimit, Wire(codec, s.written));
            && decoded.Some?
            && InitializeAnswered(ext, k, s.handled[k], Answers(decoded.value), |OwedIds(ext, s.handled[..k])|)
  {
    hide *;
    DecodedAnswers(ext, codec, limit, cancelled, input, hostLimit, s);
    ReplyInSession(ext, codec, s.handled, k);
    var reply, at := Reply(ext, codec, k, s.handled[k]), |OwedIds(ext, s.handled[..k])|;
    var answers := Answers(DecodeWire(codec, hostLimit, Wire(codec, s.written)).value);
    ReplyHas(Answers(Outputs(ext, codec, s.handled)), answers, reply, at);
    InitializeReply(ext, codec, k, s.handled[k], answers, at);
  }

  lemma ReplyHas(answers: seq<Response>, more: seq<Response>, reply: seq<Response>, at: nat)
    requires at + |reply| <= |answers| && answers[at..at + |reply|] == reply && answers <= more
    ensures reply != [] ==> Has(more, at, reply[0])
  {
    assert reply != [] ==> answers[at] == reply[0];
  }

  // ----- Routing ----------------------------------------------------------------------------

  /** The handler that a method is routed to, if it is installed. */
  predicate ServedBy(ext: Extension, req: Request, owner: Slot) {
    RouteOf(req.name).Some? && RouteOf(req.name).value.owner == owner && ext.installed(owner)
  }

  function CodeOf(r: Response): int {
    if r.error.Some? then r.error.value.code else 0
  }

  /**
   What a host can tell from the answer to a method request: two codes mean that no handler was
   entered, because there is none or because the params do not decode; under any other answer
   exactly one was, the owner; and a success means that it returned a result that marshals.
   */
  lemma CodesTell(ext: Extension, codec: Codec, k: nat, req: Request)
    requires req.name != METHOD_INITIALIZE && req.name != METHOD_SHUTDOWN
    ensures var h := Handle(ext, codec, k, req);
            && h.response.Some?
            && var code := CodeOf(h.response.value);
            && (code == ERR_METHOD_NOT_FOUND <==> forall owner :: !ServedBy(ext, req, owner))
            && (h.calls == [] <==> code == ERR_METHOD_NOT_FOUND || code == ERR_INVALID_PARAMS)
            && (h.calls != [] ==>
                  && ParamsError(ext, req, RouteOf(req.name).value.policy) == None
                  && exists owner :: ServedBy(ext, req, owner) && h.calls == [MethodCall(owner, req.name)])
            && (code == 0 <==>
                  && h.calls != [] && ext.handle(k, req).Returned?
                  && (RouteOf(req.name).value.void || ext.handle(k, req).result.Json?))
  {
    var route := RouteOf(req.name);
    RouteCodes(req.name);
    hide RouteOf, ParamsError;
    if route.Some? {
      assert ext.installed(route.value.owner) ==> ServedBy(ext, req, route.value.owner);
    }
  }

  /** No handler's own error code can be mistaken for the dispatcher's. */
  lemma RouteCodes(name: string)
    ensures RouteOf(name).Some? ==>
              RouteOf(name).value.errorCode !in {0, ERR_METHOD_NOT_FOUND, ERR_INVALID_PARAMS}
  {
  }
}
