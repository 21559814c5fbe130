/**
 The host side of a session, harness/harness.go: FakeKova numbers its calls, sorts what it reads
 into notifications and responses, and matches a response to its call by ID.

 `unread` stands for everything the extension will have written, so reading never blocks here; how
 the bytes come about while the host waits is the subject of Concurrent.dfy. A failed assertion of
 the test that owns the harness is an Err.
 */
module Harness {
  import opened Wrappers

  import opened Envelope
  import opened Framing
  import opened Ndjson

  datatype Failure =
    | MarshalParams(reason: string)
    | ReadFailed
    | ClosedUnexpectedly
    | Garbled(line: BadLine)
    | Mismatch(got: int, want: int)
    | RemoteError(error: RPCError)
    | ExpectedError

  type Store = map<string, seq<Raw>>

  function Get(stored: Store, name: string): seq<Raw> {
    if name in stored then stored[name] else []
  }

  function StoreOne(stored: Store, n: Notification): Store {
    stored[n.name := Get(stored, n.name) + [n.params]]
  }

  /** The next message, and the input after it. */
  function NextMessage(codec: Codec, limit: nat, input: bytes): (r: (Result<Outgoing, Failure>, bytes))
    ensures r.0.Ok? ==> |r.1| < |input|
  {
    match NextText(limit, input)
    case End => (Err(ClosedUnexpectedly), [])
    case TooLong(rest) => (Err(ReadFailed), rest)
    case Line(text, rest) =>
      match codec.Classify(text)
      case Ok(m) => (Ok(m), rest)
      case Err(why) => (Err(Garbled(why)), rest)
  }

  /** How a wait for a response ends, with the notifications stored and the input left by then. */
  datatype Awaited = Awaited(outcome: Result<Response, Failure>, stored: Store, rest: bytes)

  function Await(codec: Codec, limit: nat, id: int, stored: Store, input: bytes): Awaited
    decreases |input|
  {
    var (m, rest) := NextMessage(codec, limit, input);
    match m
    case Err(f) => Awaited(Err(f), stored, rest)
    case Ok(Notif(n)) => Await(codec, limit, id, StoreOne(stored, n), rest)
    case Ok(Resp(r)) => Awaited(if r.id == id then Ok(r) else Err(Mismatch(r.id, id)), stored, rest)
  }

  /** What a call that wants a result makes of its response, and one that wants an error. */
  function WantResult(outcome: Result<Response, Failure>): Result<Option<Raw>, Failure> {
    match outcome
    case Err(f) => Err(f)
    case Ok(r) => if r.error.Some? then Err(RemoteError(r.error.value)) else Ok(r.result)
  }

  function WantError(outcome: Result<Response, Failure>): Result<RPCError, Failure> {
    match outcome
    case Err(f) => Err(f)
    case Ok(r) => if r.error == None then Err(ExpectedError) else Ok(r.error.value)
  }

  class FakeKova {
    const codec: Codec
    const limit: nat
    var nextID: int
    var toExt: bytes
    var unread: bytes
    var notifications: Store

    constructor (codec: Codec, limit: nat, unread: bytes)
      ensures this.codec == codec && this.limit == limit && this.unread == unread
      ensures nextID == 0 && toExt == [] && notifications == map[]
    {
      this.codec, this.limit, this.unread := codec, limit, unread;
      nextID, toExt, notifications := 0, [], map[];
    }

    method SendRequest(id: int, name: string, params: Option<Payload>) returns (failed: Option<Failure>)
      modifies this`toExt
      ensures match params
              case Some(Unmarshallable(reason)) => failed == Some(MarshalParams(reason)) && toExt == old(toExt)
              case Some(Json(raw)) =>
                failed == None && toExt == old(toExt) + codec.encodeRequest(Request(name, Some(raw), id)) + [LF]
              case None =>
                failed == None && toExt == old(toExt) + codec.encodeRequest(Request(name, None, id)) + [LF]
    {
      var raw: Option<Raw> := None;
      if params.Some? {
        match params.value
        case Unmarshallable(reason) => return Some(MarshalParams(reason));
        case Json(text) => raw := Some(text);
      }
      var data := codec.encodeRequest(Request(name, raw, id));
      data := data + [LF];
      assert toExt + data == toExt + codec.encodeRequest(Request(name, raw, id)) + [LF];
      toExt := toExt + data;
      return None;
    }

    method ReadMessage() returns (m: Result<Outgoing, Failure>)
      modifies this`unread
      ensures (m, unread) == NextMessage(codec, limit, old(unread))
    {
      while true
        invariant NextText(limit, unread) == NextText(limit, old(unread))
        decreases |unread|
      {
        var line := ScanLine(limit, unread);
        if line.TooLong? {
          return Err(ReadFailed);
        }
        if line.End? {
          return Err(ClosedUnexpectedly);
        }
        unread := line.rest;
        if line.text == [] {
          continue;
        }
        var peek := codec.hasMethodKey(line.text);
        if peek == None {
          return Err(Garbled(InvalidJson));
        }
        if peek.value {
          var n := codec.decodeNotification(line.text);
          return if n == None then Err(Garbled(BadNotification)) else Ok(Notif(n.value));
        }
        var r := codec.decodeResponse(line.text);
        return if r == None then Err(Garbled(BadResponse)) else Ok(Resp(r.value));
      }
    }

    method StoreNotification(n: Notification)
      modifies this`notifications
      ensures notifications == StoreOne(old(notifications), n)
    {
      var before := if n.name in notifications then notifications[n.name] else [];
      notifications := notifications[n.name := before + [n.params]];
    }

    /** Everything stored for a method since it was last asked for. */
    method ReceivedNotifications(name: string) returns (result: seq<Raw>)
      modifies this`notifications
      ensures result == Get(old(notifications), name)
      ensures forall other :: Get(notifications, other) == if other == name then [] else Get(old(notifications), other)
    {
      result := if name in notifications then notifications[name] else [];
      notifications := notifications - {name};
    }

    /** The loop that both kinds of call share: notifications are stored until a response comes. */
    method AwaitResponse(id: int) returns (outcome: Result<Response, Failure>)
      modifies this`unread, this`notifications
      ensures Awaited(outcome, notifications, unread) == Await(codec, limit, id, old(notifications), old(unread))
    {
      while true
        invariant Await(codec, limit, id, notifications, unread) ==
                  Await(codec, limit, id, old(notifications), old(unread))
        decreases |unread|
      {
        var m := ReadMessage();
        if m.Err? {
          return Err(m.error);
        }
        if m.value.Notif? {
          StoreNotification(m.value.notification);
          continue;
        }
        var r := m.value.response;
        return if r.id != id then Err(Mismatch(r.id, id)) else Ok(r);
      }
    }

    /** A number is used up even by a call whose params do not marshal. */
    method CallInternal(name: string, params: Option<Payload>) returns (result: Result<Option<Raw>, Failure>)
      modifies this
      ensures nextID == old(nextID) + 1
      ensures if params.Some? && params.value.Unmarshallable? then
                && result == Err(MarshalParams(params.value.reason))
                && toExt == old(toExt) && unread == old(unread) && notifications == old(notifications)
              else
                var a := Await(codec, limit, nextID, old(notifications), old(unread));
                && result == WantResult(a.outcome) && notifications == a.stored && unread == a.rest
                && var raw := if params == None then None else Some(params.value.raw);
                   toExt == old(toExt) + codec.encodeRequest(Request(name, raw, nextID)) + [LF]
    {
      nextID := nextID + 1;
      var failed := SendRequest(nextID, name, params);
      if failed.Some? {
        return Err(failed.value);
      }
      var outcome := AwaitResponse(nextID);
      if outcome.Err? {
        return Err(outcome.error);
      }
      if outcome.value.error.Some? {
        return Err(RemoteError(outcome.value.error.value));
      }
      return Ok(outcome.value.result);
    }

    method CallExpectError(name: string, params: Option<Payload>) returns (result: Result<RPCError, Failure>)
      modifies this
      ensures nextID == old(nextID) + 1
      ensures if params.Some? && params.value.Unmarshallable? then
                && result == Err(MarshalParams(params.value.reason))
                && toExt == old(toExt) && unread == old(unread) && notifications == old(notifications)
              else
                var a := Await(codec, limit, nextID, old(notifications), old(unread));
                && result == WantError(a.outcome) && notifications == a.stored && unread == a.rest
                && var raw := if params == None then None else Some(params.value.raw);
                   toExt == old(toExt) + codec.encodeRequest(Request(name, raw, nextID)) + [LF]
    {
      nextID := nextID + 1;
      var failed := SendRequest(nextID, name, params);
      if failed.Some? {
        return Err(failed.value);
      }
      var outcome := AwaitResponse(nextID);
      if outcome.Err? {
        return Err(outcome.error);
      }
      if outcome.value.error == None {
        return Err(ExpectedError);
      }
      return Ok(outcome.value.error.value);
    }
  }

  // ----- What a wait does -------------------------------------------------------------------

  /** The params of the notifications with a given method, in order. */
  function ParamsOf(ms: seq<Outgoing>, name: string): seq<Raw> {
    if ms == [] then [] else ParamsOf(ms[..|ms| - 1], name) + ParamsIn(ms[|ms| - 1], name)
  }

  function ParamsIn(m: Outgoing, name: string): seq<Raw> {
    if m.Notif? && m.notification.name == name then [m.notification.params] else []
  }

  lemma ParamsSnoc(ms: seq<Outgoing>, m: Outgoing, name: string)
    ensures ParamsOf(ms + [m], name) == ParamsOf(ms, name) + ParamsIn(m, name)
  {
    assert (ms + [m])[..|ms|] == ms;
  }

  lemma {:induction false} ParamsAppend(a: seq<Outgoing>, b: seq<Outgoing>, name: string)
    ensures ParamsOf(a + b, name) == ParamsOf(a, name) + ParamsOf(b, name)
    decreases |b|
  {
    if b == [] {
      assert a + b == a;
    } else {
      hide *;
      var init, last := b[..|b| - 1], b[|b| - 1];
      assert b == init + [last];
      Across(a, init, [last]);
      ParamsAppend(a, init, name);
      ParamsSnoc(a + init, last, name);
      ParamsSnoc(init, last, name);
      Across(ParamsOf(a, name), ParamsOf(init, name), ParamsIn(last, name));
    }
  }

  lemma WireFirst(codec: Codec, ms: seq<Outgoing>, tail: bytes)
    requires ms != []
    ensures Wire(codec, ms) + tail == codec.encodeOut(ms[0]) + [LF] + (Wire(codec, ms[1..]) + tail)
  {
    assert ms == [ms[0]] + ms[1..];
    EncodedAppend(codec, [ms[0]], ms[1..]);
    WireOne(codec, ms[0]);
  }

  lemma ReadsNext(codec: Codec, limit: nat, ms: seq<Outgoing>, tail: bytes)
    requires codec.Valid() && ms != [] && AllFit(codec, limit, ms)
    ensures NextMessage(codec, limit, Wire(codec, ms) + tail) == (Ok(ms[0]), Wire(codec, ms[1..]) + tail)
  {
    var line := codec.encodeOut(ms[0]);
    WireFirst(codec, ms, tail);
    codec.ClassifyUndoesEncode(ms[0]);
    assert Clean(line);
    hide NextText, Wire;
    ScanClean(limit, line, Wire(codec, ms[1..]) + tail);
  }

  /** Reading message after message gives `ms` and leaves `rest`. */
  predicate ReadsOff(codec: Codec, limit: nat, input: bytes, ms: seq<Outgoing>, rest: bytes)
    decreases |ms|
  {
    if ms == [] then input == rest
    else
      var (m, next) := NextMessage(codec, limit, input);
      m == Ok(ms[0]) && ReadsOff(codec, limit, next, ms[1..], rest)
  }

  lemma {:induction false} ReadsWire(codec: Codec, limit: nat, ms: seq<Outgoing>, tail: bytes)
    requires codec.Valid() && AllFit(codec, limit, ms)
    ensures ReadsOff(codec, limit, Wire(codec, ms) + tail, ms, tail)
    decreases |ms|
  {
    hide NextMessage;
    if ms == [] {
      WireEmpty(codec);
      Across(tail, [], []);
    } else {
      ReadsNext(codec, limit, ms, tail);
      FitsRest(codec, limit, ms);
      ReadsWire(codec, limit, ms[1..], tail);
    }
  }

  /** Each list in the store is extended by what the messages hold for its method. */
  ghost predicate ExtendedBy(before: Store, after: Store, ms: seq<Outgoing>) {
    forall name :: Get(after, name) == Get(before, name) + ParamsOf(ms, name)
  }

  lemma GetOne(stored: Store, n: Notification, name: string)
    ensures Get(StoreOne(stored, n), name) == Get(stored, name) + ParamsIn(Notif(n), name)
  {
  }

  lemma ParamsFirst(m: Outgoing, ms: seq<Outgoing>, name: string)
    ensures ParamsOf([m] + ms, name) == ParamsIn(m, name) + ParamsOf(ms, name)
  {
    ParamsAppend([m], ms, name);
    ParamsSnoc([], m, name);
    assert [] + [m] == [m];
  }

  lemma ExtendedNextFor(before: Store, n: Notification, after: Store, ms: seq<Outgoing>, name: string)
    requires Get(after, name) == Get(StoreOne(before, n), name) + ParamsOf(ms, name)
    ensures Get(after, name) == Get(before, name) + ParamsOf([Notif(n)] + ms, name)
  {
    hide *;
    GetOne(before, n, name);
    ParamsFirst(Notif(n), ms, name);
    Across(Get(before, name), ParamsIn(Notif(n), name), ParamsOf(ms, name));
  }

  lemma ExtendedNext(before: Store, n: Notification, after: Store, ms: seq<Outgoing>)
    requires ExtendedBy(StoreOne(before, n), after, ms)
    ensures ExtendedBy(before, after, [Notif(n)] + ms)
  {
    hide Get, StoreOne, ParamsOf;
    forall name
      ensures Get(after, name) == Get(before, name) + ParamsOf([Notif(n)] + ms, name)
    {
      ExtendedNextFor(before, n, after, ms, name);
    }
  }

  /** The first response decides; the notifications before it are stored, and nothing after it is touched. */
  lemma {:induction false} FirstResponseDecides(codec: Codec, limit: nat, id: int, stored: Store,
                                                before: seq<Outgoing>, r: Response, after: seq<Outgoing>, tail: bytes)
    requires codec.Valid() && AllFit(codec, limit, before + [Resp(r)] + after)
    requires forall i :: 0 <= i < |before| ==> before[i].Notif?
    ensures var a := Await(codec, limit, id, stored, Wire(codec, before + [Resp(r)] + after) + tail);
            && a.outcome == (if r.id == id then Ok(r) else Err(Mismatch(r.id, id)))
            && a.rest == Wire(codec, after) + tail
            && ExtendedBy(stored, a.stored, before)
    decreases |before|
  {
    var ms := before + [Resp(r)] + after;
    hide NextMessage, Wire, AllFit, ExtendedBy;
    ReadsNext(codec, limit, ms, tail);
    if before == [] {
      assert ms[1..] == after;
      NotExtended(stored);
    } else {
      var n := before[0].notification;
      assert ms[1..] == before[1..] + [Resp(r)] + after;
      FitsRest(codec, limit, ms);
      FirstResponseDecides(codec, limit, id, StoreOne(stored, n), before[1..], r, after, tail);
      ExtendedNext(stored, n, Await(codec, limit, id, stored, Wire(codec, ms) + tail).stored, before[1..]);
      assert before == [Notif(n)] + before[1..];
    }
  }

  lemma FitsRest(codec: Codec, limit: nat, ms: seq<Outgoing>)
    requires ms != [] && AllFit(codec, limit, ms)
    ensures AllFit(codec, limit, ms[1..])
  {
  }

  lemma NotExtended(stored: Store)
    ensures ExtendedBy(stored, stored, [])
  {
  }

  /** On the wire: an error response fails a call that wants a result, and is what the other kind returns. */
  lemma ErrorOnTheWire(codec: Codec, limit: nat, id: int, stored: Store, before: seq<Outgoing>, result: Option<Raw>,
                       error: RPCError, after: seq<Outgoing>, tail: bytes)
    requires codec.Valid() && AllFit(codec, limit, before + [Resp(Response(result, Some(error), id))] + after)
    requires forall i :: 0 <= i < |before| ==> before[i].Notif?
    ensures var wire := Wire(codec, before + [Resp(Response(result, Some(error), id))] + after) + tail;
            var outcome := Await(codec, limit, id, stored, wire).outcome;
            WantResult(outcome) == Err(RemoteError(error)) && WantError(outcome) == Ok(error)
  {
    FirstResponseDecides(codec, limit, id, stored, before, Response(result, Some(error), id), after, tail);
    hide Await, Wire, AllFit;
  }

  /** And a success response the other way round. */
  lemma SuccessOnTheWire(codec: Codec, limit: nat, id: int, stored: Store, before: seq<Outgoing>, raw: Raw,
                         after: seq<Outgoing>, tail: bytes)
    requires codec.Valid() && AllFit(codec, limit, before + [Resp(Response(Some(raw), None, id))] + after)
    requires forall i :: 0 <= i < |before| ==> before[i].Notif?
    ensures var wire := Wire(codec, before + [Resp(Response(Some(raw), None, id))] + after) + tail;
            var outcome := Await(codec, limit, id, stored, wire).outcome;
            WantResult(outcome) == Ok(Some(raw)) && WantError(outcome) == Err(ExpectedError)
  {
    FirstResponseDecides(codec, limit, id, stored, before, Response(Some(raw), None, id), after, tail);
    hide Await, Wire, AllFit;
  }

  /** Both kinds of call fail with whatever ends the wait without a response. */
  lemma FailureFailsBoth(f: Failure)
    ensures WantResult(Err(f)) == Err(f) && WantError(Err(f)) == Err(f)
  {
  }

  // ----- How a wait fails -------------------------------------------------------------------

  /** Notifications are passed over, and stored. */
  lemma {:induction false} NotificationsPass(codec: Codec, limit: nat, id: int, stored: Store, before: seq<Outgoing>,
                                             rest: bytes)
    returns (later: Store)
    requires codec.Valid() && AllFit(codec, limit, before)
    requires forall i :: 0 <= i < |before| ==> before[i].Notif?
    ensures Await(codec, limit, id, stored, Wire(codec, before) + rest) == Await(codec, limit, id, later, rest)
    ensures ExtendedBy(stored, later, before)
    decreases |before|
  {
    hide NextMessage, Wire, AllFit, ExtendedBy;
    if before == [] {
      WireEmpty(codec);
      Across(rest, [], []);
      assert Wire(codec, before) + rest == rest;
      later := stored;
      NotExtended(stored);
    } else {
      var n := before[0].notification;
      ReadsNext(codec, limit, before, rest);
      FitsRest(codec, limit, before);
      later := NotificationsPass(codec, limit, id, StoreOne(stored, n), before[1..], rest);
      ExtendedNext(stored, n, later, before[1..]);
      assert before == [Notif(n)] + before[1..];
    }
  }

  lemma NextIs(codec: Codec, limit: nat, id: int, stored: Store, input: bytes, f: Failure, rest: bytes)
    requires NextMessage(codec, limit, input) == (Err(f), rest)
    ensures Await(codec, limit, id, stored, input) == Awaited(Err(f), stored, rest)
  {
  }

  /** A line that is no message fails the wait, by what is wrong with it. */
  lemma GarbledLineFails(codec: Codec, limit: nat, id: int, stored: Store, before: seq<Outgoing>, line: bytes,
                         tail: bytes, why: BadLine)
    requires codec.Valid() && AllFit(codec, limit, before) && Fitting(limit, line)
    requires forall i :: 0 <= i < |before| ==> before[i].Notif?
    requires match why
             case InvalidJson => codec.hasMethodKey(line) == None
             case BadNotification => codec.hasMethodKey(line) == Some(true) && codec.decodeNotification(line) == None
             case BadResponse => codec.hasMethodKey(line) == Some(false) && codec.decodeResponse(line) == None
    ensures var a := Await(codec, limit, id, stored, Wire(codec, before) + (line + [LF] + tail));
            a.outcome == Err(Garbled(why)) && a.rest == tail && ExtendedBy(stored, a.stored, before)
  {
    assert Clean(line) && |line| < limit && codec.Classify(line) == Err(why);
    ScanClean(limit, line, tail);
    assert NextMessage(codec, limit, line + [LF] + tail) == (Err(Garbled(why)), tail);
    hide *;
    var later := NotificationsPass(codec, limit, id, stored, before, line + [LF] + tail);
    NextIs(codec, limit, id, later, line + [LF] + tail, Garbled(why), tail);
  }

  /** The end of the extension's output fails the wait, and so does a line over the limit. */
  lemma EndOfOutputFails(codec: Codec, limit: nat, id: int, stored: Store, before: seq<Outgoing>, long: bytes)
    requires codec.Valid() && AllFit(codec, limit, before)
    requires forall i :: 0 <= i < |before| ==> before[i].Notif?
    requires LF !in long && (long == [] || |long| >= limit)
    ensures var a := Await(codec, limit, id, stored, Wire(codec, before) + long);
            && a.outcome == Err(if long == [] then ClosedUnexpectedly else ReadFailed)
            && ExtendedBy(stored, a.stored, before)
  {
    var f := if long == [] then ClosedUnexpectedly else ReadFailed;
    assert NextMessage(codec, limit, long) == (Err(f), long);
    hide *;
    var later := NotificationsPass(codec, limit, id, stored, before, long);
    NextIs(codec, limit, id, later, long, f, long);
  }
}
