/**
 What a host gets for a request, in terms of the handlers alone: the routing table, the answer to each
 kind of request, the notifications in front of it, and the same over whole sessions.
 */
module MethodAnswers {
  import opened Wrappers

  import opened Envelope
  import opened Framing
  import opened Ndjson
  import opened Handlers
  import opened CompositeExtension
  import opened Dispatcher
  import opened SessionLaws

  // ----- The table --------------------------------------------------------------------------

  /** Which handler a method belongs to. */
  predicate Owns(owner: Slot, name: string) {
    match owner
    case Channel =>
      || name == "channel_send" || name == "channel_typing" || name == "channel_reaction_add"
      || name == "channel_reaction_remove" || name == "prompt_user" || name == "channel_capabilities"
    case Provider =>
      name == "provider_create_message" || name == "provider_stream_message" || name == "provider_capabilities"
    case Tool => name == "tool_call"
    case TTS => name == "tts_synthesize" || name == "tts_voices"
    case STT => name == "stt_transcribe" || name == "stt_models"
    case Hook => name == "hook_event"
    case HTTP => name == "http_request"
    case Service => name == "service_start" || name == "service_health" || name == "service_stop"
  }

  /** Methods whose handlers return nothing but an error. */
  predicate ReturnsNothing(name: string) {
    || name == "channel_send" || name == "channel_typing" || name == "channel_reaction_add"
    || name == "channel_reaction_remove"
  }

  predicate TakesNoParams(name: string) {
    name == "tts_voices" || name == "stt_models"
  }

  predicate TakesOptionalParams(name: string) {
    name == "channel_capabilities" || name == "provider_capabilities"
  }

  /** The code with which a handler's own error is answered. */
  function FailureCode(owner: Slot, name: string): int {
    match owner
    case Channel => -32603
    case Provider => if name == "provider_stream_message" then -32011 else -32010
    case Tool => -32001
    case TTS => -32013
    case STT => -32015
    case Hook => -32020
    case HTTP => -32021
    case Service => -32022
  }

  lemma OwnedIsRouted(name: string, owner: Slot)
    requires Owns(owner, name)
    ensures RouteOf(name).Some? && RouteOf(name).value.owner == owner
  {
  }

  lemma RoutedIsOwned(name: string)
    requires RouteOf(name).Some?
    ensures Owns(RouteOf(name).value.owner, name)
  {
  }

  lemma RouteOwner(name: string, owner: Slot)
    ensures Owns(owner, name) <==> RouteOf(name).Some? && RouteOf(name).value.owner == owner
  {
    hide *;
    if Owns(owner, name) {
      OwnedIsRouted(name, owner);
    }
    if RouteOf(name).Some? {
      RoutedIsOwned(name);
    }
  }

  lemma RouteResult(name: string)
    ensures RouteOf(name).Some? ==> (RouteOf(name).value.void <==> ReturnsNothing(name))
  {
  }

  lemma RoutePolicy(name: string)
    ensures RouteOf(name).Some? ==> (RouteOf(name).value.policy.Ignored? <==> TakesNoParams(name))
    ensures RouteOf(name).Some? ==> (RouteOf(name).value.policy.Optional? <==> TakesOptionalParams(name))
  {
  }

  lemma RouteCode(name: string)
    ensures RouteOf(name).Some? ==> RouteOf(name).value.errorCode == FailureCode(RouteOf(name).value.owner, name)
  {
  }

  /** The code's table says the same, of every method and of no other name. */
  lemma RouteIsTable(name: string)
    ensures RouteOf(name) == None <==> forall owner :: !Owns(owner, name)
    ensures RouteOf(name).Some? ==>
              var route := RouteOf(name).value;
              && (forall owner :: Owns(owner, name) <==> owner == route.owner)
              && (route.void <==> ReturnsNothing(name))
              && (route.policy.Ignored? <==> TakesNoParams(name))
              && (route.policy.Optional? <==> TakesOptionalParams(name))
              && route.errorCode == FailureCode(route.owner, name)
  {
    hide *;
    forall owner
      ensures Owns(owner, name) <==> RouteOf(name).Some? && RouteOf(name).value.owner == owner
    {
      RouteOwner(name, owner);
    }
    assert RouteOf(name).Some? ==> Owns(RouteOf(name).value.owner, name);
    RouteResult(name);
    RoutePolicy(name);
    RouteCode(name);
  }

  /** The error of decoding the params of a method request. */
  function BadParams(ext: Extension, req: Request): Option<string> {
    if TakesNoParams(req.name) then None
    else if req.params.Some? then ext.badParams(req)
    else if TakesOptionalParams(req.name) then None
    else Some("unexpected end of JSON input")
  }

  // ----- The answer to one request ----------------------------------------------------------

  /** The answer to a method request, from what its handler returns. */
  ghost predicate IsMethodAnswer(ext: Extension, codec: Codec, k: nat, req: Request, r: Response) {
    if forall owner :: !(Owns(owner, req.name) && ext.installed(owner)) then
      r == Response(None, Some(RPCError(-32601, "unknown method: " + req.name)), req.id)
    else if BadParams(ext, req).Some? then
      r == Response(None, Some(RPCError(-32602, "invalid params: " + BadParams(ext, req).value)), req.id)
    else
      match ext.handle(k, req)
      case MethodFailed(reason) =>
        exists owner :: Owns(owner, req.name)
          && r == Response(None, Some(RPCError(FailureCode(owner, req.name), reason)), req.id)
      case Returned(result) =>
        if ReturnsNothing(req.name) then r == Response(Some(codec.emptyObject), None, req.id)
        else match result
             case Json(raw) => r == Response(Some(raw), None, req.id)
             case Unmarshallable(why) => r == Response(None, Some(RPCError(-32603, "marshal result: " + why)), req.id)
  }

  predicate IsLifecycle(req: Request) {
    req.name == "initialize" || req.name == "shutdown"
  }

  /** The calls into handlers that a method request causes: its owner's, if it is served. */
  ghost predicate AreMethodCalls(ext: Extension, req: Request, calls: seq<Call>) {
    if (exists owner :: Owns(owner, req.name) && ext.installed(owner)) && BadParams(ext, req) == None then
      exists owner :: Owns(owner, req.name) && ext.installed(owner) && calls == [MethodCall(owner, req.name)]
    else calls == []
  }

  lemma ParamsErrorIs(ext: Extension, req: Request)
    requires RouteOf(req.name).Some?
    ensures ParamsError(ext, req, RouteOf(req.name).value.policy) == BadParams(ext, req)
  {
    RouteIsTable(req.name);
    hide RouteOf;
  }

  lemma MethodAnswer(ext: Extension, codec: Codec, k: nat, req: Request)
    requires !IsLifecycle(req)
    ensures var h := Handle(ext, codec, k, req);
            && h.response.Some? && IsMethodAnswer(ext, codec, k, req, h.response.value)
            && AreMethodCalls(ext, req, h.calls)
  {
    RouteIsTable(req.name);
    if RouteOf(req.name).Some? {
      var owner := RouteOf(req.name).value.owner;
      assert Owns(owner, req.name);
      ParamsErrorIs(ext, req);
    }
    hide RouteOf, ParamsError, BadParams, Owns, ReturnsNothing, TakesNoParams, TakesOptionalParams, FailureCode;
  }

  /** An initialize whose params do not decode reaches no handler. */
  lemma InitializeBadParams(ext: Extension, codec: Codec, k: nat, req: Request, why: string)
    requires req.name == "initialize" && req.params.Some? && ext.badParams(req) == Some(why)
    ensures Handle(ext, codec, k, req) ==
            Handled([], Some(Response(None, Some(RPCError(-32602, "invalid params: " + why)), req.id)))
  {
  }

  /** Params that are absent, or that decode, are good. */
  lemma InitializeParams(ext: Extension, req: Request)
    ensures ParamsError(ext, req, Optional) == None <==> req.params == None || ext.badParams(req) == None
  {
  }

  // ----- The names and the order of the handlers --------------------------------------------

  /** With every handler installed, they are initialized and shut down in this order, under these names. */
  lemma AllInOrder(ext: Extension)
    requires forall slot :: ext.installed(slot)
    ensures Live(ext, |ORDER|) == [Channel, Provider, Tool, TTS, STT, Hook, HTTP, Service]
    ensures Channel.Name() == "channel" && Provider.Name() == "provider" && Tool.Name() == "tool"
    ensures TTS.Name() == "tts" && STT.Name() == "stt" && Hook.Name() == "hook"
    ensures HTTP.Name() == "http" && Service.Name() == "service"
  {
    LiveIsOrder(ext, 8);
  }

  lemma {:induction false} LiveIsOrder(ext: Extension, n: nat)
    requires n <= |ORDER| && forall slot :: ext.installed(slot)
    ensures Live(ext, n) == ORDER[..n]
  {
    if n == 0 {
    } else {
      LiveIsOrder(ext, n - 1);
    }
  }

  // ----- The answer to a shutdown -----------------------------------------------------------

  /** Several errors in one text, each in front of a semicolon. */
  function Joined(texts: seq<string>): string {
    if texts == [] then "" else " " + texts[0] + ";" + Joined(texts[1..])
  }

  lemma {:induction false} JoinedSnoc(texts: seq<string>, last: string)
    ensures Joined(texts + [last]) == Joined(texts) + " " + last + ";"
  {
    if texts == [] {
      assert [last][1..] == [];
    } else {
      JoinedSnoc(texts[1..], last);
      assert (texts + [last])[1..] == texts[1..] + [last];
      var first := " " + texts[0] + ";";
      assert first + (Joined(texts[1..]) + " " + last + ";") == first + Joined(texts[1..]) + " " + last + ";";
    }
  }

  lemma ListedSnoc(texts: seq<string>, last: string)
    ensures Listed(texts + [last]) == Listed(texts) + " " + last + ";"
  {
    assert (texts + [last])[..|texts|] == texts;
  }

  lemma ListedNone()
    ensures Listed([]) == "multiple shutdown errors:" + Joined([])
  {
  }

  lemma {:induction false} ListedIsJoined(texts: seq<string>)
    ensures Listed(texts) == "multiple shutdown errors:" + Joined(texts)
  {
    hide *;
    if texts == [] {
      ListedNone();
    } else {
      var before, last := texts[..|texts| - 1], texts[|texts| - 1];
      assert texts == before + [last];
      ListedIsJoined(before);
      ListedSnoc(before, last);
      JoinedSnoc(before, last);
      var head := "multiple shutdown errors:";
      Across(head, Joined(before), " ");
      Across(head, Joined(before) + " ", last);
      Across(head, Joined(before) + " " + last, ";");
    }
  }

  /**
   The answer to a shutdown: the empty object if no handler fails, the only error as it is, and
   several errors in one text, in the order of the handlers, each labelled with its handler.
   */
  lemma ShutdownAnswerIs(ext: Extension, codec: Codec, k: nat, req: Request)
    requires req.name == "shutdown"
    ensures var texts := ShutdownTexts(ext, k, Live(ext, |ORDER|));
            Handle(ext, codec, k, req).response ==
            Some(if texts == [] then Response(Some(codec.emptyObject), None, req.id)
                 else if |texts| == 1 then Response(None, Some(RPCError(-32603, texts[0])), req.id)
                 else Response(None, Some(RPCError(-32603, "multiple shutdown errors:" + Joined(texts))), req.id))
    ensures Handle(ext, codec, k, req).calls == ShutdownCalls(Live(ext, |ORDER|))
  {
    ShutdownMeans(ext, k, |ORDER|);
    ListedIsJoined(ShutdownTexts(ext, k, Live(ext, |ORDER|)));
    hide ShutdownAfter, ShutdownTexts, Live, Listed, Joined;
  }

  // ----- Notifications ----------------------------------------------------------------------

  /** How many of the first i emissions have params that marshal. */
  function Marshalled(es: seq<Emission>, i: nat): (n: nat)
    requires i <= |es|
    ensures n <= i
  {
    if i == 0 then 0 else Marshalled(es, i - 1) + if es[i - 1].params.Json? then 1 else 0
  }

  lemma {:induction false} MarshalledPrefix(es: seq<Emission>, last: Emission, i: nat)
    requires i <= |es|
    ensures Marshalled(es + [last], i) == Marshalled(es, i)
  {
    if i == 0 {
    } else {
      MarshalledPrefix(es, last, i - 1);
    }
  }

  /**
   What goes out of a handler's emissions is exactly those whose params marshal, in order: each of
   them stands where the count of those before it says, and there is nothing else.
   */
  lemma {:induction false} NotificationsAre(es: seq<Emission>)
    ensures |Notifications(es)| == Marshalled(es, |es|)
    ensures forall i :: 0 <= i < |es| && es[i].params.Json? ==>
              && Marshalled(es, i) < |Notifications(es)|
              && Notifications(es)[Marshalled(es, i)] == Notif(Notification(es[i].name, es[i].params.raw))
  {
    if es == [] {
    } else {
      var before, last := es[..|es| - 1], es[|es| - 1];
      assert es == before + [last];
      NotificationsAre(before);
      forall i | 0 <= i < |es|
        ensures Marshalled(es, i) == Marshalled(before, i)
      {
        MarshalledPrefix(before, last, i);
      }
    }
  }

  lemma {:induction false} AllMarshalled(es: seq<Emission>, i: nat)
    requires i <= |es| && forall j :: 0 <= j < |es| ==> es[j].params.Json?
    ensures Marshalled(es, i) == i
  {
    if i == 0 {
    } else {
      AllMarshalled(es, i - 1);
    }
  }

  /** If all params marshal, every emission goes out, in order. */
  lemma AllEmissionsGoOut(es: seq<Emission>)
    requires forall j :: 0 <= j < |es| ==> es[j].params.Json?
    ensures |Notifications(es)| == |es|
    ensures forall i :: 0 <= i < |es| ==> Notifications(es)[i] == Notif(Notification(es[i].name, es[i].params.raw))
  {
    NotificationsAre(es);
    forall i | 0 <= i <= |es|
      ensures Marshalled(es, i) == i
    {
      AllMarshalled(es, i);
    }
  }

  /** Everything that the handlers behind some calls emit, in the order of the calls. */
  function EmissionsOf(ext: Extension, k: nat, calls: seq<Call>): seq<Emission> {
    if calls == [] then [] else ext.emits(k, calls[0]) + EmissionsOf(ext, k, calls[1..])
  }

  lemma {:induction false} NotificationsAppend(a: seq<Emission>, b: seq<Emission>)
    ensures Notifications(a + b) == Notifications(a) + Notifications(b)
    decreases |b|
  {
    if b == [] {
      assert a + b == a;
    } else {
      var init, last := b[..|b| - 1], b[|b| - 1];
      assert (a + b)[..|a + b| - 1] == a + init;
      NotificationsAppend(a, init);
      assert Notifications(a) + Notifications(init) + NotificationOf(last) ==
             Notifications(a) + (Notifications(init) + NotificationOf(last));
    }
  }

  lemma {:induction false} EmissionsSnoc(ext: Extension, k: nat, calls: seq<Call>, last: Call)
    ensures EmissionsOf(ext, k, calls + [last]) == EmissionsOf(ext, k, calls) + ext.emits(k, last)
  {
    if calls == [] {
      assert [last][1..] == [];
    } else {
      EmissionsSnoc(ext, k, calls[1..], last);
      assert (calls + [last])[1..] == calls[1..] + [last];
    }
  }

  /** What some calls make the extension write is what goes out of all that their handlers emit. */
  lemma {:induction false} EmittedIs(ext: Extension, k: nat, calls: seq<Call>)
    ensures Emitted(ext, k, calls) == Notifications(EmissionsOf(ext, k, calls))
    decreases |calls|
  {
    if calls == [] {
    } else {
      var before, last := calls[..|calls| - 1], calls[|calls| - 1];
      assert calls == before + [last];
      EmittedIs(ext, k, before);
      EmissionsSnoc(ext, k, before, last);
      NotificationsAppend(EmissionsOf(ext, k, before), ext.emits(k, last));
    }
  }

  lemma EmissionsOfOne(ext: Extension, k: nat, call: Call)
    ensures EmissionsOf(ext, k, [call]) == ext.emits(k, call)
  {
    assert [call][1..] == [];
  }

  // ----- Whole sessions ---------------------------------------------------------------------

  /** One request's part of a session's output, between what comes before and after it. */
  ghost predicate IsPart(out: seq<Outgoing>, before: seq<Outgoing>, own: seq<Outgoing>, after: seq<Outgoing>) {
    out == before + own + after
  }

  /** The output for some requests is theirs one after the other, and so is the log of handler calls. */
  lemma {:induction false} RequestWrites(ext: Extension, codec: Codec, rs: seq<Request>, k: nat)
    returns (after: seq<Outgoing>, later: seq<Call>)
    requires k < |rs|
    ensures var h := Handle(ext, codec, k, rs[k]);
            && IsPart(Outputs(ext, codec, rs), Outputs(ext, codec, rs[..k]),
                      Notifications(EmissionsOf(ext, k, h.calls)) +
                      match h.response case Some(r) => [Resp(r)] case None => [],
                      after)
            && AllCalls(ext, codec, rs) == AllCalls(ext, codec, rs[..k]) + h.calls + later
    decreases |rs|
  {
    hide Handle, Notifications, EmissionsOf;
    var before, last := rs[..|rs| - 1], rs[|rs| - 1];
    if k == |before| {
      EmittedIs(ext, k, Handle(ext, codec, k, rs[k]).calls);
      after, later := [], [];
    } else {
      assert before[..k] == rs[..k] && before[k] == rs[k];
      after, later := RequestWrites(ext, codec, before, k);
      var j := |before|;
      Across(Outputs(ext, codec, rs[..k]) + (Notifications(EmissionsOf(ext, k, Handle(ext, codec, k, rs[k]).calls)) +
             match Handle(ext, codec, k, rs[k]).response case Some(r) => [Resp(r)] case None => []),
             after, Written(ext, j, Handle(ext, codec, j, last)));
      Across(AllCalls(ext, codec, rs[..k]) + Handle(ext, codec, k, rs[k]).calls,
             later, Handle(ext, codec, j, last).calls);
      after := after + Written(ext, j, Handle(ext, codec, j, last));
      later := later + Handle(ext, codec, j, last).calls;
    }
  }

  /** The owner's notifications, if the request is served, and then its answer. */
  ghost predicate IsMethodOutput(ext: Extension, codec: Codec, k: nat, req: Request, own: seq<Outgoing>) {
    exists calls, r :: AreMethodCalls(ext, req, calls) && IsMethodAnswer(ext, codec, k, req, r)
      && own == Notifications(EmissionsOf(ext, k, calls)) + [Resp(r)]
  }

  lemma IsMethodOutputIs(ext: Extension, codec: Codec, k: nat, req: Request, calls: seq<Call>, r: Response)
    requires AreMethodCalls(ext, req, calls) && IsMethodAnswer(ext, codec, k, req, r)
    ensures IsMethodOutput(ext, codec, k, req, Notifications(EmissionsOf(ext, k, calls)) + [Resp(r)])
  {
    hide AreMethodCalls, IsMethodAnswer, Notifications, EmissionsOf;
  }

  /**
   Over whole sessions, as a host decodes them: each method request that is handled puts on the wire,
   behind the output of the requests before it, what its handler emitted while it ran, and then the
   answer that its handler's outcome calls for.
   */
  lemma MethodsOfSession(ext: Extension, codec: Codec, limit: nat, cancelled: nat -> bool, input: bytes,
                         hostLimit: nat, s: Session, k: nat)
    returns (own: seq<Outgoing>, after: seq<Outgoing>)
    requires codec.Valid()
    requires s == SessionOver(ext, codec, limit, cancelled, input) && AllFit(codec, hostLimit, s.written)
    requires k < |s.handled| && !IsLifecycle(s.handled[k])
    ensures var decoded := DecodeWire(codec, hostLimit, Wire(codec, s.written));
            var before := Outputs(ext, codec, s.handled[..k]);
            && decoded.Some? && IsPart(decoded.value, before, own, after)
            && IsMethodOutput(ext, codec, k, s.handled[k], own)
            && Ids(Answers(before)) == OwedIds(ext, s.handled[..k])
  {
    hide *;
    var req, before := s.handled[k], Outputs(ext, codec, s.handled[..k]);
    var h := Handle(ext, codec, k, req);
    WireDecodes(codec, hostLimit, s.written);
    SessionOutput(ext, codec, limit, cancelled, input);
    OutputsAnswerOnce(ext, codec, s.handled[..k]);
    MethodAnswer(ext, codec, k, req);
    IsMethodOutputIs(ext, codec, k, req, h.calls, h.response.value);
    own := Notifications(EmissionsOf(ext, k, h.calls)) + [Resp(h.response.value)];
    var later;
    after, later := RequestWrites(ext, codec, s.handled, k);
    if s.err.Some? {
      var last := [Resp(ParseErrorResponse(s.err.value))];
      PartAppend(Outputs(ext, codec, s.handled), before, own, after, last);
      after := after + last;
    }
  }

  lemma PartAppend(out: seq<Outgoing>, before: seq<Outgoing>, own: seq<Outgoing>, after: seq<Outgoing>,
                   more: seq<Outgoing>)
    requires IsPart(out, before, own, after)
    ensures IsPart(out + more, before, own, after + more)
  {
  }
}
