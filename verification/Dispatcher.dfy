/**
 The request loop of extension/extension.go over a composite extension.

 First the answer to one request as a value, then the loop that produces it, then what holds of
 every session.
 */
module Dispatcher {
  import opened Wrappers

  import opened Envelope
  import opened Ndjson
  import opened Handlers
  import opened CompositeExtension

  // ----- One request ------------------------------------------------------------------------

  /** The handler calls one request causes, and its response; None when it gets none. */
  datatype Handled = Handled(calls: seq<Call>, response: Option<Response>)

  function UnknownMethod(req: Request): Handled {
    Handled([], Some(ErrorResponse(req.id, ERR_METHOD_NOT_FOUND, "unknown method: " + req.name)))
  }

  function InvalidParams(req: Request, reason: string): Handled {
    Handled([], Some(ErrorResponse(req.id, ERR_INVALID_PARAMS, "invalid params: " + reason)))
  }

  function HandleMethod(ext: Extension, codec: Codec, k: nat, req: Request): (h: Handled)
    ensures h.response.Some?
    ensures forall i :: 0 <= i < |h.calls| ==> h.calls[i].MethodCall?
  {
    match RouteOf(req.name)
    case None => UnknownMethod(req)
    case Some(route) =>
      if !ext.installed(route.owner) then UnknownMethod(req)
      else match ParamsError(ext, req, route.policy)
           case Some(reason) => InvalidParams(req, reason)
           case None =>
             var calls := [MethodCall(route.owner, req.name)];
             match ext.handle(k, req)
             case MethodFailed(reason) => Handled(calls, Some(ErrorResponse(req.id, route.errorCode, reason)))
             case Returned(result) =>
               match if route.void then Json(codec.emptyObject) else result
               case Json(raw) => Handled(calls, Some(SuccessResponse(req.id, raw)))
               case Unmarshallable(reason) =>
                 Handled(calls, Some(ErrorResponse(req.id, ERR_INTERNAL, "marshal result: " + reason)))
  }

  function HandleInitialize(ext: Extension, k: nat, req: Request): Handled {
    match ParamsError(ext, req, Optional)
    case Some(reason) => InvalidParams(req, reason)
    case None =>
      var s := InitAfter(ext, k, |ORDER|);
      match s.failed
      case Some(reason) => Handled(s.calls, Some(ErrorResponse(req.id, ERR_NOT_READY, reason)))
      case None =>
        match ext.regsPayload(s.merged)
        case Json(raw) => Handled(s.calls, Some(SuccessResponse(req.id, raw)))
        case Unmarshallable(_) => Handled(s.calls, None)
  }

  function HandleShutdown(ext: Extension, codec: Codec, k: nat, req: Request): Handled {
    var s := ShutdownAfter(ext, k, |ORDER|);
    match ShutdownError(s.errs)
    case Some(reason) => Handled(s.calls, Some(ErrorResponse(req.id, ERR_INTERNAL, reason)))
    case None => Handled(s.calls, Some(SuccessResponse(req.id, codec.emptyObject)))
  }

  function Handle(ext: Extension, codec: Codec, k: nat, req: Request): Handled {
    if req.name == METHOD_INITIALIZE then HandleInitialize(ext, k, req)
    else if req.name == METHOD_SHUTDOWN then HandleShutdown(ext, codec, k, req)
    else HandleMethod(ext, codec, k, req)
  }

  /** Everything one request makes the extension write: what handlers emit, then the response. */
  function Written(ext: Extension, k: nat, h: Handled): seq<Outgoing> {
    Emitted(ext, k, h.calls) + match h.response case Some(r) => [Resp(r)] case None => []
  }

  /** The only request that is handled without an answer. */
  predicate Unanswerable(ext: Extension, k: nat, req: Request) {
    && req.name == METHOD_INITIALIZE
    && ParamsError(ext, req, Optional) == None
    && InitAfter(ext, k, |ORDER|).failed == None
    && ext.regsPayload(InitAfter(ext, k, |ORDER|).merged).Unmarshallable?
  }

  lemma OneAnswer(ext: Extension, codec: Codec, k: nat, req: Request)
    ensures var r := Handle(ext, codec, k, req).response;
            && (r == None <==> Unanswerable(ext, k, req))
            && (r.Some? ==> r.value.id == req.id && r.value.WellFormed())
  {
  }

  // ----- Sessions ---------------------------------------------------------------------------

  function Outputs(ext: Extension, codec: Codec, rs: seq<Request>): seq<Outgoing> {
    if rs == [] then []
    else
      var k := |rs| - 1;
      Outputs(ext, codec, rs[..k]) + Written(ext, k, Handle(ext, codec, k, rs[k]))
  }

  function AllCalls(ext: Extension, codec: Codec, rs: seq<Request>): seq<Call> {
    if rs == [] then []
    else
      var k := |rs| - 1;
      AllCalls(ext, codec, rs[..k]) + Handle(ext, codec, k, rs[k]).calls
  }

  /** How many of the requests the loop handles; `cancelled(k)` is the context after the k-th read. */
  function Taken(cancelled: nat -> bool, k: nat, rs: seq<Request>): (n: nat)
    ensures n <= |rs|
    decreases |rs|
  {
    if rs == [] || cancelled(k) then 0
    else if rs[0].name == METHOD_SHUTDOWN then 1
    else 1 + Taken(cancelled, k + 1, rs[1..])
  }

  predicate EndsInShutdown(rs: seq<Request>) {
    rs != [] && rs[|rs| - 1].name == METHOD_SHUTDOWN
  }

  function ParseErrorResponse(reason: string): Response {
    ErrorResponse(0, ERR_PARSE, "invalid request: " + reason)
  }

  /** A whole session over an input: what is handled, what is written, what Run returns. */
  datatype Session = Session(handled: seq<Request>, written: seq<Outgoing>, calls: seq<Call>, err: Option<string>)

  function SessionOver(ext: Extension, codec: Codec, limit: nat, cancelled: nat -> bool, input: bytes): Session {
    var p := Parse(codec, limit, input);
    var handled := p.requests[..Taken(cancelled, 0, p.requests)];
    var ranOut := handled == p.requests && !EndsInShutdown(handled);
    Session(handled,
            Outputs(ext, codec, handled) +
            if ranOut && p.unreadable.Some? then [Resp(ParseErrorResponse(p.unreadable.value))] else [],
            AllCalls(ext, codec, handled),
            if ranOut then p.unreadable else None)
  }

  class Dispatcher {
    const composite: Composite
    const transport: Transport
    const cancelled: nat -> bool

    constructor (composite: Composite, cancelled: nat -> bool)
      ensures this.composite == composite && this.transport == composite.transport
      ensures this.cancelled == cancelled
    {
      this.composite, this.transport := composite, composite.transport;
      this.cancelled := cancelled;
    }

    /** The session laws are about a transport whose writes succeed. */
    ghost predicate Valid() {
      transport == composite.transport && transport.Reliable()
    }

    /** What the composite has logged and written since a given point. */
    ghost predicate Wrote(calls0: seq<Call>, out0: bytes, calls: seq<Call>, written: seq<Outgoing>)
      reads composite, transport
    {
      && composite.calls == calls0 + calls
      && transport.output == out0 + Wire(transport.codec, written)
    }

    /** What a sequence of handled requests has made it log and write. */
    ghost predicate WroteFor(calls0: seq<Call>, out0: bytes, rs: seq<Request>)
      reads composite, transport
    {
      Wrote(calls0, out0, AllCalls(composite.ext, transport.codec, rs), Outputs(composite.ext, transport.codec, rs))
    }

    method Respond(id: int, result: Payload, ghost out0: bytes, ghost written: seq<Outgoing>)
      returns (err: Option<string>)
      requires transport.Reliable() && transport.output == out0 + Wire(transport.codec, written)
      modifies transport`output, transport`writes
      ensures match result
              case Json(raw) =>
                err == None &&
                transport.output == out0 + Wire(transport.codec, written + [Resp(SuccessResponse(id, raw))])
              case Unmarshallable(reason) =>
                err == Some("marshal result: " + reason) && transport.output == old(transport.output)
    {
      err := transport.SendResponse(id, result);
      if result.Json? {
        WireAssoc(transport.codec, out0, written, [Resp(SuccessResponse(id, result.raw))]);
      }
    }

    method RespondError(id: int, code: int, message: string, ghost out0: bytes, ghost written: seq<Outgoing>)
      requires transport.Reliable() && transport.output == out0 + Wire(transport.codec, written)
      modifies transport`output, transport`writes
      ensures transport.output == out0 + Wire(transport.codec, written + [Resp(ErrorResponse(id, code, message))])
    {
      var _ := transport.SendError(id, code, message);
      WireAssoc(transport.codec, out0, written, [Resp(ErrorResponse(id, code, message))]);
    }

    method HandleInitializeRequest(k: nat, req: Request)
      requires Valid()
      modifies composite`calls, transport`output, transport`writes
      ensures var h := HandleInitialize(composite.ext, k, req);
              Wrote(old(composite.calls), old(transport.output), h.calls, Written(composite.ext, k, h))
    {
      WireEmpty(transport.codec);
      ghost var out0 := transport.output;
      if req.params.Some? {
        var bad := composite.ext.badParams(req);
        if bad.Some? {
          RespondError(req.id, ERR_INVALID_PARAMS, "invalid params: " + bad.value, out0, []);
          return;
        }
      }
      var regs := composite.Initialize(k);
      ghost var emitted := Emitted(composite.ext, k, InitAfter(composite.ext, k, |ORDER|).calls);
      match regs
      case Err(reason) =>
        RespondError(req.id, ERR_NOT_READY, reason, out0, emitted);
      case Ok(merged) =>
        var _ := Respond(req.id, composite.ext.regsPayload(merged), out0, emitted);
        assert emitted + [] == emitted;
    }

    method HandleShutdownRequest(k: nat, req: Request)
      requires Valid()
      modifies composite`calls, transport`output, transport`writes
      ensures var h := HandleShutdown(composite.ext, transport.codec, k, req);
              Wrote(old(composite.calls), old(transport.output), h.calls, Written(composite.ext, k, h))
    {
      ghost var out0 := transport.output;
      var err := composite.Shutdown(k);
      ghost var emitted := Emitted(composite.ext, k, ShutdownAfter(composite.ext, k, |ORDER|).calls);
      if err.Some? {
        RespondError(req.id, ERR_INTERNAL, err.value, out0, emitted);
        return;
      }
      var _ := Respond(req.id, Json(transport.codec.emptyObject), out0, emitted);
    }

    /**
     compositeDispatch and the dispatch function of the owning handler. Its error, a result that
     does not marshal, is left to the caller to answer.
     */
    method DispatchMethod(k: nat, req: Request) returns (err: Option<string>)
      requires Valid()
      modifies composite`calls, transport`output, transport`writes
      ensures var h := HandleMethod(composite.ext, transport.codec, k, req);
              match err
              case None =>
                Wrote(old(composite.calls), old(transport.output), h.calls, Written(composite.ext, k, h))
              case Some(reason) =>
                && Wrote(old(composite.calls), old(transport.output), h.calls, Emitted(composite.ext, k, h.calls))
                && h.response == Some(ErrorResponse(req.id, ERR_INTERNAL, reason))
    {
      hide RouteOf, ParamsError, Wire;
      WireEmpty(transport.codec);
      ghost var calls0, out0 := composite.calls, transport.output;
      var route := RouteOf(req.name);
      if route == None || !composite.ext.installed(route.value.owner) {
        RespondError(req.id, ERR_METHOD_NOT_FOUND, "unknown method: " + req.name, out0, []);
        return None;
      }
      var bad := ParamsError(composite.ext, req, route.value.policy);
      if bad.Some? {
        RespondError(req.id, ERR_INVALID_PARAMS, "invalid params: " + bad.value, out0, []);
        return None;
      }
      var call := MethodCall(route.value.owner, req.name);
      composite.EnterNext(k, call, calls0, out0, []);
      ghost var emitted := Emitted(composite.ext, k, [call]);
      assert [] + [call] == [call];
      match composite.ext.handle(k, req)
      case MethodFailed(reason) =>
        RespondError(req.id, route.value.errorCode, reason, out0, emitted);
        return None;
      case Returned(result) =>
        err := Respond(req.id, if route.value.void then Json(transport.codec.emptyObject) else result, out0, emitted);
    }

    /** One turn of the switch in the loop: the k-th request. */
    method HandleRequest(k: nat, req: Request)
      requires Valid()
      modifies composite`calls, transport`output, transport`writes
      ensures var h := Handle(composite.ext, transport.codec, k, req);
              Wrote(old(composite.calls), old(transport.output), h.calls, Written(composite.ext, k, h))
    {
      if req.name == METHOD_INITIALIZE {
        HandleInitializeRequest(k, req);
      } else if req.name == METHOD_SHUTDOWN {
        HandleShutdownRequest(k, req);
      } else {
        ghost var out0 := transport.output;
        var err := DispatchMethod(k, req);
        if err.Some? {
          ghost var h := HandleMethod(composite.ext, transport.codec, k, req);
          RespondError(req.id, ERR_INTERNAL, err.value, out0, Emitted(composite.ext, k, h.calls));
        }
      }
    }

    /** After the requests `rs`, this one. */
    method HandleNext(k: nat, req: Request, ghost rs: seq<Request>, ghost calls0: seq<Call>, ghost out0: bytes)
      requires Valid() && k == |rs|
      requires WroteFor(calls0, out0, rs)
      modifies composite`calls, transport`output, transport`writes
      ensures WroteFor(calls0, out0, rs + [req])
    {
      hide Handle, Written, Wire;
      HandleRequest(k, req);
      ghost var h := Handle(composite.ext, transport.codec, k, req);
      assert (rs + [req])[..k] == rs;
      WireAssoc(transport.codec, out0, Outputs(composite.ext, transport.codec, rs), Written(composite.ext, k, h));
      assert composite.calls == calls0 + (AllCalls(composite.ext, transport.codec, rs) + h.calls);
    }

    /** One turn of the loop, after the requests `rs`. */
    method Turn(k: nat, ghost input0: bytes, ghost rs: seq<Request>, ghost calls0: seq<Call>, ghost out0: bytes)
      returns (stop: bool, err: Option<string>, ghost rs': seq<Request>)
      requires Valid() && k == |rs| && !EndsInShutdown(rs)
      requires Prefix(transport.codec, transport.limit, cancelled, input0, rs, transport.input)
      requires WroteFor(calls0, out0, rs)
      modifies composite`calls, transport`input, transport`output, transport`writes
      ensures !stop ==>
                && |rs'| == k + 1 && !EndsInShutdown(rs') && |transport.input| < old(|transport.input|)
                && Prefix(transport.codec, transport.limit, cancelled, input0, rs', transport.input)
                && WroteFor(calls0, out0, rs')
      ensures stop ==>
                var s := SessionOver(composite.ext, transport.codec, transport.limit, cancelled, input0);
                Wrote(calls0, out0, s.calls, s.written) && err == s.err
    {
      ghost var ext, codec, limit, input := composite.ext, transport.codec, transport.limit, transport.input;
      var r := transport.ReadRequest();
      hide *;
      rs' := rs;
      match r
      case EOF =>
        SessionRunsOut(ext, codec, limit, cancelled, input0, rs, input);
        return true, None, rs;
      case Unreadable(reason) =>
        SessionRunsOut(ext, codec, limit, cancelled, input0, rs, input);
        ReportUnreadable(reason, calls0, out0, AllCalls(ext, codec, rs), Outputs(ext, codec, rs));
        return true, Some(reason), rs;
      case Req(req) =>
        if cancelled(k) {
          SessionCancelled(ext, codec, limit, cancelled, input0, rs, input);
          return true, None, rs;
        }
        PrefixGrows(codec, limit, cancelled, input0, rs, input);
        HandleNext(k, req, rs, calls0, out0);
        rs' := rs + [req];
        LastRequest(rs, req);
        if req.name == METHOD_SHUTDOWN {
          SessionShutDown(ext, codec, limit, cancelled, input0, rs', transport.input);
          return true, None, rs';
        }
        return false, None, rs';
    }

    /** The answer to a line that cannot be read. */
    method ReportUnreadable(reason: string, ghost calls0: seq<Call>, ghost out0: bytes,
                            ghost calls: seq<Call>, ghost written: seq<Outgoing>)
      requires Valid() && Wrote(calls0, out0, calls, written)
      modifies transport`output, transport`writes
      ensures Wrote(calls0, out0, calls, written + [Resp(ParseErrorResponse(reason))])
    {
      var _ := transport.SendError(0, ERR_PARSE, "invalid request: " + reason);
      WireAssoc(transport.codec, out0, written, [Resp(ParseErrorResponse(reason))]);
    }

    method Run() returns (err: Option<string>)
      requires Valid()
      modifies composite`calls, transport`input, transport`output, transport`writes
      ensures var s := SessionOver(composite.ext, transport.codec, transport.limit, cancelled, old(transport.input));
              Wrote(old(composite.calls), old(transport.output), s.calls, s.written) && err == s.err
    {
      ghost var input0, calls0, out0 := transport.input, composite.calls, transport.output;
      ghost var rs := [];
      var k: nat := 0;
      WireEmpty(transport.codec);
      while true
        invariant k == |rs| && !EndsInShutdown(rs)
        invariant Prefix(transport.codec, transport.limit, cancelled, input0, rs, transport.input)
        invariant WroteFor(calls0, out0, rs)
        decreases |transport.input|
      {
        var stop;
        stop, err, rs := Turn(k, input0, rs, calls0, out0);
        if stop {
          return;
        }
        k := k + 1;
      }
    }
  }

  lemma LastRequest(rs: seq<Request>, req: Request)
    ensures EndsInShutdown(rs + [req]) <==> req.name == METHOD_SHUTDOWN
  {
  }

  // ----- The loop's progress ----------------------------------------------------------------

  /** Reading `rs` from the input leaves `rest`, and all of `rs` are to be handled. */
  ghost predicate Prefix(codec: Codec, limit: nat, cancelled: nat -> bool, input: bytes, rs: seq<Request>,
                         rest: bytes)
  {
    var p, q := Parse(codec, limit, input), Parse(codec, limit, rest);
    && p.requests == rs + q.requests
    && p.unreadable == q.unreadable
    && Taken(cancelled, 0, p.requests) ==
       if EndsInShutdown(rs) then |rs| else |rs| + Taken(cancelled, |rs|, q.requests)
  }

  lemma PrefixGrows(codec: Codec, limit: nat, cancelled: nat -> bool, input: bytes, rs: seq<Request>, rest: bytes)
    requires Prefix(codec, limit, cancelled, input, rs, rest) && !EndsInShutdown(rs)
    requires NextRequest(codec, limit, rest).0.Req? && !cancelled(|rs|)
    ensures var r := NextRequest(codec, limit, rest);
            Prefix(codec, limit, cancelled, input, rs + [r.0.request], r.1)
  {
    hide NextRequest;
    var r := NextRequest(codec, limit, rest);
    var q := Parse(codec, limit, rest).requests;
    assert q[1..] == Parse(codec, limit, r.1).requests;
    assert rs + q == rs + [r.0.request] + q[1..];
  }

  lemma SessionRunsOut(ext: Extension, codec: Codec, limit: nat, cancelled: nat -> bool, input: bytes,
                       rs: seq<Request>, rest: bytes)
    requires Prefix(codec, limit, cancelled, input, rs, rest) && !EndsInShutdown(rs)
    requires !NextRequest(codec, limit, rest).0.Req?
    ensures var s := SessionOver(ext, codec, limit, cancelled, input);
            && s.calls == AllCalls(ext, codec, rs)
            && match NextRequest(codec, limit, rest).0
               case Unreadable(reason) =>
                 && s.err == Some(reason)
                 && s.written == Outputs(ext, codec, rs) + [Resp(ParseErrorResponse(reason))]
               case _ => s.err == None && s.written == Outputs(ext, codec, rs)
  {
    var p := Parse(codec, limit, input);
    assert p.requests == rs && p.requests[..|rs|] == rs;
  }

  lemma SessionCancelled(ext: Extension, codec: Codec, limit: nat, cancelled: nat -> bool, input: bytes,
                         rs: seq<Request>, rest: bytes)
    requires Prefix(codec, limit, cancelled, input, rs, rest) && !EndsInShutdown(rs)
    requires NextRequest(codec, limit, rest).0.Req? && cancelled(|rs|)
    ensures SessionOver(ext, codec, limit, cancelled, input) ==
            Session(rs, Outputs(ext, codec, rs), AllCalls(ext, codec, rs), None)
  {
    var p := Parse(codec, limit, input);
    assert p.requests[..|rs|] == rs && |p.requests| > |rs|;
    assert Outputs(ext, codec, rs) + [] == Outputs(ext, codec, rs);
  }

  lemma SessionShutDown(ext: Extension, codec: Codec, limit: nat, cancelled: nat -> bool, input: bytes,
                        rs: seq<Request>, rest: bytes)
    requires Prefix(codec, limit, cancelled, input, rs, rest) && EndsInShutdown(rs)
    ensures SessionOver(ext, codec, limit, cancelled, input) ==
            Session(rs, Outputs(ext, codec, rs), AllCalls(ext, codec, rs), None)
  {
    var p := Parse(codec, limit, input);
    assert p.requests[..|rs|] == rs;
    assert Outputs(ext, codec, rs) + [] == Outputs(ext, codec, rs);
  }
}
