/**
 The NDJSON transport of jsonrpc/transport.go, used by one goroutine.

 Which writes fail is an oracle. What concurrent writers, with failing writes or without, do to the
 output is the subject of WriteLock.dfy.
 */
module Ndjson {
  import opened Wrappers

  import opened Envelope
  import opened Framing

  datatype ReadResult = Req(request: Request) | EOF | Unreadable(reason: string)

  const TOO_LONG := "bufio.Scanner: token too long"

  /** ReadRequest: what it returns, and the input it leaves. */
  function NextRequest(codec: Codec, limit: nat, input: bytes): (r: (ReadResult, bytes))
    ensures r.0.Req? ==> |r.1| < |input|
  {
    match NextText(limit, input)
    case End => (EOF, [])
    case TooLong(rest) => (Unreadable("read: " + TOO_LONG), rest)
    case Line(text, rest) =>
      match codec.decodeRequest(text)
      case Ok(req) => (Req(req), rest)
      case Err(reason) => (Unreadable("unmarshal request: " + reason), rest)
  }

  function SuccessResponse(id: int, raw: Raw): Response {
    Response(Some(raw), None, id)
  }

  function ErrorResponse(id: int, code: int, message: string): Response {
    Response(None, Some(RPCError(code, message)), id)
  }

  /** The encoded lines of a sequence of messages. */
  function Encoded(codec: Codec, ms: seq<Outgoing>): (lines: seq<bytes>)
    ensures |lines| == |ms| && forall i :: 0 <= i < |ms| ==> lines[i] == codec.encodeOut(ms[i])
  {
    if ms == [] then [] else [codec.encodeOut(ms[0])] + Encoded(codec, ms[1..])
  }

  function Wire(codec: Codec, ms: seq<Outgoing>): bytes {
    Frame(Encoded(codec, ms))
  }

  lemma EncodedConcat(codec: Codec, a: seq<Outgoing>, b: seq<Outgoing>)
    ensures Encoded(codec, a + b) == Encoded(codec, a) + Encoded(codec, b)
  {
    hide Encoded;
  }

  lemma EncodedAppend(codec: Codec, a: seq<Outgoing>, b: seq<Outgoing>)
    ensures Encoded(codec, a + b) == Encoded(codec, a) + Encoded(codec, b)
    ensures Wire(codec, a + b) == Wire(codec, a) + Wire(codec, b)
  {
    hide Encoded, Frame;
    EncodedConcat(codec, a, b);
    FrameAppend(Encoded(codec, a), Encoded(codec, b));
  }

  lemma WireOne(codec: Codec, m: Outgoing)
    ensures Wire(codec, [m]) == codec.encodeOut(m) + [LF]
  {
    assert Encoded(codec, [m]) == [codec.encodeOut(m)];
    FrameSnoc([], codec.encodeOut(m));
  }

  lemma WireEmpty(codec: Codec)
    ensures Wire(codec, []) == []
    ensures forall out: bytes :: out + Wire(codec, []) == out
  {
  }

  /** Writing a, then b, is writing a + b. */
  lemma WireAssoc(codec: Codec, out: bytes, a: seq<Outgoing>, b: seq<Outgoing>)
    ensures out + Wire(codec, a) + Wire(codec, b) == out + Wire(codec, a + b)
  {
    EncodedAppend(codec, a, b);
    assert out + Wire(codec, a) + Wire(codec, b) == out + (Wire(codec, a) + Wire(codec, b));
  }

  /** A write that fails: how many of its bytes went out, at most, and the writer's error. */
  datatype Fault = Fault(sent: nat, reason: string)

  /** The outcome of a writeLine: its error, the bytes it put out, and the number of writes it made. */
  datatype LineOut = LineOut(err: Option<string>, out: bytes, writes: nat)

  function Cut(data: bytes, f: Fault): (part: bytes)
    ensures part <= data
  {
    if f.sent <= |data| then data[..f.sent] else data
  }

  /** writeLine from the n-th write on: the body, and the newline only if the body went out. */
  function LineWrites(codec: Codec, faults: nat -> Option<Fault>, n: nat, m: Outgoing): LineOut {
    var body := codec.encodeOut(m);
    match faults(n)
    case Some(f) => LineOut(Some("write: " + f.reason), Cut(body, f), 1)
    case None =>
      match faults(n + 1)
      case Some(f) => LineOut(Some("write newline: " + f.reason), body + Cut([LF], f), 2)
      case None => LineOut(None, body + [LF], 2)
  }

  /** A write reports no error if and only if the whole record is out; else a part of it is. */
  lemma LineIsOutIff(codec: Codec, faults: nat -> Option<Fault>, n: nat, m: Outgoing)
    ensures var l := LineWrites(codec, faults, n, m);
            && (l.err == None <==> faults(n) == None && faults(n + 1) == None)
            && (l.err == None ==> l.out == Wire(codec, [m]))
            && l.out <= Wire(codec, [m])
  {
    WireOne(codec, m);
  }

  /** After a failing body no newline is tried; and the error says which write failed. */
  lemma FailedWriteTells(codec: Codec, faults: nat -> Option<Fault>, n: nat, m: Outgoing)
    ensures var l := LineWrites(codec, faults, n, m);
            && (faults(n).Some? ==>
                  l.writes == 1 && l.out <= codec.encodeOut(m) && l.err == Some("write: " + faults(n).value.reason))
            && (faults(n) == None && faults(n + 1).Some? ==>
                  && l.writes == 2 && codec.encodeOut(m) <= l.out
                  && l.err == Some("write newline: " + faults(n + 1).value.reason))
            && (faults(n) == None && faults(n + 1) == None ==> l.writes == 2)
  {
  }

  /** The bytes that a failing write puts out are those it reports, if it has as many. */
  lemma CutIs(data: bytes, f: Fault)
    ensures |Cut(data, f)| == if f.sent <= |data| then f.sent else |data|
  {
  }

  class Transport {
    const codec: Codec
    const limit: nat
    const faults: nat -> Option<Fault>
    var input: bytes
    var output: bytes
    var writes: nat

    constructor (codec: Codec, limit: nat, faults: nat -> Option<Fault>, input: bytes)
      ensures this.codec == codec && this.limit == limit && this.faults == faults
      ensures this.input == input && output == [] && writes == 0
    {
      this.codec, this.limit, this.faults := codec, limit, faults;
      this.input, output, writes := input, [], 0;
    }

    /** No write ever fails. */
    ghost predicate Reliable() {
      forall n :: faults(n) == None
    }

    method Scan() returns (s: Scan)
      modifies this`input
      ensures s == ScanLine(limit, old(input))
      ensures input == if s.Line? then s.rest else old(input)
    {
      s := ScanLine(limit, input);
      if s.Line? {
        input := s.rest;
      }
    }

    method ReadRequest() returns (r: ReadResult)
      modifies this`input
      ensures (r, input) == NextRequest(codec, limit, old(input))
    {
      while true
        invariant NextText(limit, input) == NextText(limit, old(input))
        decreases |input|
      {
        var s := Scan();
        if s.TooLong? {
          return Unreadable("read: " + TOO_LONG);
        }
        if s.End? {
          return EOF;
        }
        if s.text == [] {
          continue;
        }
        match codec.decodeRequest(s.text)
        case Err(reason) => return Unreadable("unmarshal request: " + reason);
        case Ok(req) => return Req(req);
      }
    }

    /** One write of the underlying writer. */
    method Write(data: bytes) returns (err: Option<string>)
      modifies this`output, this`writes
      ensures writes == old(writes) + 1
      ensures match faults(old(writes))
              case None => err == None && output == old(output) + data
              case Some(f) => err == Some(f.reason) && output == old(output) + Cut(data, f)
    {
      var fault := faults(writes);
      writes := writes + 1;
      if fault.Some? {
        output := output + Cut(data, fault.value);
        return Some(fault.value.reason);
      }
      output := output + data;
      return None;
    }

    /** The body and the newline go out in two writes. */
    method WriteLine(m: Outgoing) returns (err: Option<string>)
      modifies this`output, this`writes
      ensures var l := LineWrites(codec, faults, old(writes), m);
              && err == l.err && output == old(output) + l.out && writes == old(writes) + l.writes
      ensures Reliable() ==> err == None && output == old(output) + Wire(codec, [m])
    {
      ghost var before, data := output, codec.encodeOut(m);
      LineIsOutIff(codec, faults, writes, m);
      var failed := Write(codec.encodeOut(m));
      if failed.Some? {
        return Some("write: " + failed.value);
      }
      ghost var newline := faults(writes);
      failed := Write([LF]);
      Across(before, data, if newline.Some? then Cut([LF], newline.value) else [LF]);
      return if failed.Some? then Some("write newline: " + failed.value) else None;
    }

    /** A result that does not marshal writes nothing. */
    method SendResponse(id: int, result: Payload) returns (err: Option<string>)
      modifies this`output, this`writes
      ensures match result
              case Json(raw) =>
                var l := LineWrites(codec, faults, old(writes), Resp(SuccessResponse(id, raw)));
                && err == l.err && output == old(output) + l.out && writes == old(writes) + l.writes
                && (Reliable() ==>
                      err == None && output == old(output) + Wire(codec, [Resp(SuccessResponse(id, raw))]))
              case Unmarshallable(reason) =>
                err == Some("marshal result: " + reason) && output == old(output) && writes == old(writes)
    {
      match result
      case Unmarshallable(reason) =>
        return Some("marshal result: " + reason);
      case Json(raw) =>
        err := WriteLine(Resp(Response(Some(raw), None, id)));
    }

    method SendError(id: int, code: int, message: string) returns (err: Option<string>)
      modifies this`output, this`writes
      ensures var l := LineWrites(codec, faults, old(writes), Resp(ErrorResponse(id, code, message)));
              && err == l.err && output == old(output) + l.out && writes == old(writes) + l.writes
      ensures Reliable() ==>
                err == None && output == old(output) + Wire(codec, [Resp(ErrorResponse(id, code, message))])
    {
      err := WriteLine(Resp(Response(None, Some(RPCError(code, message)), id)));
    }

    /** Params that do not marshal write nothing. */
    method SendNotification(name: string, params: Payload) returns (err: Option<string>)
      modifies this`output, this`writes
      ensures match params
              case Json(raw) =>
                var l := LineWrites(codec, faults, old(writes), Notif(Notification(name, raw)));
                && err == l.err && output == old(output) + l.out && writes == old(writes) + l.writes
                && (Reliable() ==>
                      err == None && output == old(output) + Wire(codec, [Notif(Notification(name, raw))]))
              case Unmarshallable(reason) =>
                err == Some("marshal notification params: " + reason) && output == old(output) && writes == old(writes)
    {
      match params
      case Unmarshallable(reason) =>
        return Some("marshal notification params: " + reason);
      case Json(raw) =>
        err := WriteLine(Notif(Notification(name, raw)));
    }
  }

  // ----- Requests, end to end ---------------------------------------------------------------

  /** What repeated calls of ReadRequest see: the readable requests, and what ends them. */
  datatype Parsed = Parsed(requests: seq<Request>, unreadable: Option<string>)

  function Parse(codec: Codec, limit: nat, input: bytes): Parsed
    decreases |input|
  {
    var r := NextRequest(codec, limit, input);
    match r.0
    case EOF => Parsed([], None)
    case Unreadable(reason) => Parsed([], Some(reason))
    case Req(req) =>
      var more := Parse(codec, limit, r.1);
      Parsed([req] + more.requests, more.unreadable)
  }

  function EncodedRequests(codec: Codec, rs: seq<Request>): (lines: seq<bytes>)
    ensures |lines| == |rs| && forall i :: 0 <= i < |rs| ==> lines[i] == codec.encodeRequest(rs[i])
  {
    if rs == [] then [] else [codec.encodeRequest(rs[0])] + EncodedRequests(codec, rs[1..])
  }

  lemma ReadsFirst(codec: Codec, limit: nat, req: Request, rest: bytes)
    requires codec.Valid() && |codec.encodeRequest(req)| < limit
    ensures NextRequest(codec, limit, codec.encodeRequest(req) + [LF] + rest) == (Req(req), rest)
  {
    assert Clean(codec.encodeRequest(req));
    ScanClean(limit, codec.encodeRequest(req), rest);
  }

  lemma BlankIsNoRequest(codec: Codec, limit: nat, pad: bytes, rest: bytes)
    requires Blank(pad) && limit > 1
    ensures NextRequest(codec, limit, pad + rest) == NextRequest(codec, limit, rest)
  {
    BlankIsSkipped(limit, pad, rest);
  }

  lemma ParseStep(codec: Codec, limit: nat, input: bytes, req: Request, rest: bytes, more: seq<Request>,
                  end: Option<string>)
    requires NextRequest(codec, limit, input) == (Req(req), rest)
    requires Parse(codec, limit, rest) == Parsed(more, end)
    ensures Parse(codec, limit, input) == Parsed([req] + more, end)
  {
  }

  /** The requests a host wrote, with blank lines anywhere between them, are the requests read. */
  lemma {:induction false} RequestsRoundTrip(codec: Codec, limit: nat, pads: seq<bytes>, rs: seq<Request>)
    requires codec.Valid() && limit > 1
    requires |pads| == |rs| + 1 && forall i :: 0 <= i < |pads| ==> Blank(pads[i])
    requires forall i :: 0 <= i < |rs| ==> |codec.encodeRequest(rs[i])| < limit
    ensures Parse(codec, limit, Padded(pads, EncodedRequests(codec, rs))) == Parsed(rs, None)
    decreases |rs|
  {
    var lines := EncodedRequests(codec, rs);
    var input := Padded(pads, lines);
    if rs == [] {
      BlankIsNoRequest(codec, limit, pads[0], []);
      assert pads[0] + [] == pads[0];
    } else {
      hide NextRequest;
      var rest := Padded(pads[1..], lines[1..]);
      BlankIsNoRequest(codec, limit, pads[0], lines[0] + [LF] + rest);
      ReadsFirst(codec, limit, rs[0], rest);
      RequestsRoundTrip(codec, limit, pads[1..], rs[1..]);
      ParseStep(codec, limit, input, rs[0], rest, rs[1..], None);
      assert [rs[0]] + rs[1..] == rs;
    }
  }

  /** What the host decodes from a stream of complete lines: None when a line is not decodable. */
  function DecodeWire(codec: Codec, limit: nat, input: bytes): Option<seq<Outgoing>> {
    var texts := AllTexts(limit, input);
    if texts.complete then DecodeLines(codec, texts.lines) else None
  }

  function DecodeLines(codec: Codec, lines: seq<bytes>): Option<seq<Outgoing>> {
    if lines == [] then Some([])
    else match codec.Classify(lines[0])
         case Err(_) => None
         case Ok(m) =>
           match DecodeLines(codec, lines[1..])
           case None => None
           case Some(ms) => Some([m] + ms)
  }

  predicate AllFit(codec: Codec, limit: nat, ms: seq<Outgoing>) {
    forall i :: 0 <= i < |ms| ==> |codec.encodeOut(ms[i])| < limit
  }

  lemma {:induction false} DecodeLinesUndoesEncoded(codec: Codec, ms: seq<Outgoing>)
    requires codec.Valid()
    ensures DecodeLines(codec, Encoded(codec, ms)) == Some(ms)
  {
    if ms == [] {
    } else {
      codec.ClassifyUndoesEncode(ms[0]);
      DecodeLinesUndoesEncoded(codec, ms[1..]);
      assert Encoded(codec, ms)[1..] == Encoded(codec, ms[1..]);
      assert [ms[0]] + ms[1..] == ms;
    }
  }

  /** The messages an extension wrote, with blank lines anywhere between them, are those decoded. */
  lemma MessagesRoundTrip(codec: Codec, limit: nat, pads: seq<bytes>, ms: seq<Outgoing>)
    requires codec.Valid() && limit > 1
    requires |pads| == |ms| + 1 && forall i :: 0 <= i < |pads| ==> Blank(pads[i])
    requires AllFit(codec, limit, ms)
    ensures DecodeWire(codec, limit, Padded(pads, Encoded(codec, ms))) == Some(ms)
  {
    forall i | 0 <= i < |ms|
      ensures Fitting(limit, Encoded(codec, ms)[i])
    {
      assert Clean(codec.encodeOut(ms[i]));
    }
    RoundTrip(limit, pads, Encoded(codec, ms));
    DecodeLinesUndoesEncoded(codec, ms);
  }

  /** The pads of a stream without blank lines. */
  function NoPads(n: nat): (pads: seq<bytes>)
    ensures |pads| == n && forall i :: 0 <= i < n ==> pads[i] == []
  {
    seq(n, i => [])
  }

  lemma {:induction false} FrameIsPadded(lines: seq<bytes>)
    ensures Padded(NoPads(|lines| + 1), lines) == Frame(lines)
  {
    if lines == [] {
    } else {
      FrameIsPadded(lines[1..]);
      assert NoPads(|lines| + 1)[1..] == NoPads(|lines|);
    }
  }

  lemma NoPadsAreBlank(n: nat)
    ensures |NoPads(n)| == n && forall i :: 0 <= i < n ==> Blank(NoPads(n)[i])
  {
  }

  lemma NothingDecodes(codec: Codec, limit: nat)
    ensures DecodeWire(codec, limit, Wire(codec, [])) == Some([])
  {
    WireEmpty(codec);
  }

  lemma LimitAboveOne(codec: Codec, limit: nat, ms: seq<Outgoing>)
    requires codec.Valid() && AllFit(codec, limit, ms) && ms != []
    ensures limit > 1
  {
    assert Clean(codec.encodeOut(ms[0])) && |codec.encodeOut(ms[0])| < limit;
  }

  /** A stream without blank lines decodes to the messages written. */
  lemma WireDecodes(codec: Codec, limit: nat, ms: seq<Outgoing>)
    requires codec.Valid() && AllFit(codec, limit, ms)
    ensures DecodeWire(codec, limit, Wire(codec, ms)) == Some(ms)
  {
    hide *;
    if ms == [] {
      NothingDecodes(codec, limit);
    } else {
      LimitAboveOne(codec, limit, ms);
      NoPadsAreBlank(|ms| + 1);
      MessagesRoundTrip(codec, limit, NoPads(|ms| + 1), ms);
      FrameIsPadded(Encoded(codec, ms));
      WireIs(codec, ms);
    }
  }

  lemma WireIs(codec: Codec, ms: seq<Outgoing>)
    ensures Wire(codec, ms) == Frame(Encoded(codec, ms)) && |Encoded(codec, ms)| == |ms|
  {
  }
}
