/**
 The eight optional handlers of a composite extension, as the dispatcher sees them.

 Handler code is the user's: each of its outcomes is an oracle, indexed by the number of requests
 handled before the current one, so that a stateful handler is covered too.
 */
module Handlers {
  import opened Wrappers

  import opened Envelope

  datatype Slot = Channel | Provider | Tool | TTS | STT | Hook | HTTP | Service {
    function Name(): string {
      match this
      case Channel => "channel"
      case Provider => "provider"
      case Tool => "tool"
      case TTS => "tts"
      case STT => "stt"
      case Hook => "hook"
      case HTTP => "http"
      case Service => "service"
    }
  }

  /** The fixed order in which handlers are initialized and shut down. */
  const ORDER: seq<Slot> := [Channel, Provider, Tool, TTS, STT, Hook, HTTP, Service]

  /** One entry of a registration list. */
  type Def = string

  datatype Registrations = Registrations(
    tools: seq<Def>,
    httpRoutes: seq<Def>,
    hooks: seq<Def>,
    services: seq<Def>,
    providers: seq<Def>,
    ttsProviders: seq<Def>,
    sttProviders: seq<Def>,
    cliCommands: seq<Def>
  )

  const NO_REGISTRATIONS := Registrations([], [], [], [], [], [], [], [])

  /** A notification a handler sends while it runs. */
  datatype Emission = Emission(name: string, params: Payload)

  datatype Call =
    | InitCall(slot: Slot)
    | ShutdownCall(slot: Slot)
    | MethodCall(slot: Slot, name: string)

  datatype InitOutcome = Registered(regs: Option<Registrations>) | InitFailed(reason: string)

  datatype MethodOutcome = Returned(result: Payload) | MethodFailed(reason: string)

  datatype Extension = Extension(
    installed: Slot -> bool,
    init: (nat, Slot) -> InitOutcome,
    shutdown: (nat, Slot) -> Option<string>,
    handle: (nat, Request) -> MethodOutcome,
    emits: (nat, Call) -> seq<Emission>,
    badParams: Request -> Option<string>,          // the error of decoding params that are present
    regsPayload: Registrations -> Payload          // marshalling the initialize result
  )

  // ----- Routes -----------------------------------------------------------------------------

  datatype Policy = Required | Optional | Ignored

  /** How one method is dispatched; a void handler's result is sent as the empty object. */
  datatype Route = Route(owner: Slot, policy: Policy, errorCode: int, void: bool)

  function RouteOf(name: string): Option<Route> {
    match name
    case "channel_send" => Some(Route(Channel, Required, ERR_INTERNAL, true))
    case "channel_typing" => Some(Route(Channel, Required, ERR_INTERNAL, true))
    case "channel_reaction_add" => Some(Route(Channel, Required, ERR_INTERNAL, true))
    case "channel_reaction_remove" => Some(Route(Channel, Required, ERR_INTERNAL, true))
    case "prompt_user" => Some(Route(Channel, Required, ERR_INTERNAL, false))
    case "channel_capabilities" => Some(Route(Channel, Optional, ERR_INTERNAL, false))
    case "provider_create_message" => Some(Route(Provider, Required, ERR_PROVIDER_FAILED, false))
    case "provider_stream_message" => Some(Route(Provider, Required, ERR_STREAM_FAILED, false))
    case "provider_capabilities" => Some(Route(Provider, Optional, ERR_PROVIDER_FAILED, false))
    case "tool_call" => Some(Route(Tool, Required, ERR_TOOL_FAILED, false))
    case "tts_synthesize" => Some(Route(TTS, Required, ERR_TTS_FAILED, false))
    case "tts_voices" => Some(Route(TTS, Ignored, ERR_TTS_FAILED, false))
    case "stt_transcribe" => Some(Route(STT, Required, ERR_STT_FAILED, false))
    case "stt_models" => Some(Route(STT, Ignored, ERR_STT_FAILED, false))
    case "hook_event" => Some(Route(Hook, Required, ERR_HOOK_FAILED, false))
    case "http_request" => Some(Route(HTTP, Required, ERR_HTTP_FAILED, false))
    case "service_start" => Some(Route(Service, Required, ERR_SERVICE_FAILED, false))
    case "service_health" => Some(Route(Service, Required, ERR_SERVICE_FAILED, false))
    case "service_stop" => Some(Route(Service, Required, ERR_SERVICE_FAILED, false))
    case _ => None
  }

  const NO_PARAMS := "unexpected end of JSON input"

  /** The decoding error of a request's params under a policy. */
  function ParamsError(ext: Extension, req: Request, policy: Policy): Option<string> {
    match policy
    case Ignored => None
    case Optional => if req.params == None then None else ext.badParams(req)
    case Required => if req.params == None then Some(NO_PARAMS) else ext.badParams(req)
  }

  // ----- Initialization and shutdown as folds over the order --------------------------------

  function Plus(a: Registrations, b: Registrations): Registrations {
    Registrations(a.tools + b.tools, a.httpRoutes + b.httpRoutes, a.hooks + b.hooks, a.services + b.services,
                  a.providers + b.providers, a.ttsProviders + b.ttsProviders, a.sttProviders + b.sttProviders,
                  a.cliCommands + b.cliCommands)
  }

  datatype InitState = InitState(merged: Registrations, failed: Option<string>, calls: seq<Call>)

  /** One guarded block: an absent handler, or any handler after a failure, is left alone. */
  function InitStep(ext: Extension, k: nat, s: InitState, slot: Slot): InitState {
    if s.failed.Some? || !ext.installed(slot) then s
    else
      var calls := s.calls + [InitCall(slot)];
      match ext.init(k, slot)
      case InitFailed(reason) => InitState(s.merged, Some(slot.Name() + " init: " + reason), calls)
      case Registered(None) => InitState(s.merged, None, calls)
      case Registered(Some(regs)) => InitState(Plus(s.merged, regs), None, calls)
  }

  /** Where initialization stands after the first n slots of the order. */
  function InitAfter(ext: Extension, k: nat, n: nat): InitState
    requires n <= |ORDER|
  {
    if n == 0 then InitState(NO_REGISTRATIONS, None, [])
    else InitStep(ext, k, InitAfter(ext, k, n - 1), ORDER[n - 1])
  }

  datatype ShutdownState = ShutdownState(errs: seq<string>, calls: seq<Call>)

  function ShutdownAfter(ext: Extension, k: nat, n: nat): ShutdownState
    requires n <= |ORDER|
  {
    if n == 0 then ShutdownState([], [])
    else
      var s := ShutdownAfter(ext, k, n - 1);
      var slot := ORDER[n - 1];
      if !ext.installed(slot) then s
      else
        ShutdownState(s.errs + match ext.shutdown(k, slot)
                               case None => []
                               case Some(reason) => [slot.Name() + " shutdown: " + reason],
                      s.calls + [ShutdownCall(slot)])
  }

  function Listed(errs: seq<string>): string {
    if errs == [] then "multiple shutdown errors:"
    else Listed(errs[..|errs| - 1]) + " " + errs[|errs| - 1] + ";"
  }

  function ShutdownError(errs: seq<string>): Option<string> {
    if errs == [] then None
    else if |errs| == 1 then Some(errs[0])
    else Some(Listed(errs))
  }

  // ----- What the folds mean ----------------------------------------------------------------

  /** The installed handlers among the first n slots, in order. */
  function Live(ext: Extension, n: nat): seq<Slot>
    requires n <= |ORDER|
  {
    if n == 0 then []
    else Live(ext, n - 1) + if ext.installed(ORDER[n - 1]) then [ORDER[n - 1]] else []
  }

  predicate InitSucceeds(ext: Extension, k: nat, slot: Slot) {
    ext.init(k, slot).Registered?
  }

  function Own(ext: Extension, k: nat, slot: Slot): Registrations {
    match ext.init(k, slot)
    case Registered(Some(regs)) => regs
    case _ => NO_REGISTRATIONS
  }

  /** One list of a registration set. */
  datatype Field = Tools | HTTPRoutes | Hooks | Services | Providers | TTSProviders | STTProviders | CLICommands

  function ListOf(r: Registrations, f: Field): seq<Def> {
    match f
    case Tools => r.tools
    case HTTPRoutes => r.httpRoutes
    case Hooks => r.hooks
    case Services => r.services
    case Providers => r.providers
    case TTSProviders => r.ttsProviders
    case STTProviders => r.sttProviders
    case CLICommands => r.cliCommands
  }

  /** The in-order concatenation of the handlers' own lists. */
  function Concatenated(ext: Extension, k: nat, slots: seq<Slot>, f: Field): seq<Def> {
    if slots == [] then []
    else Concatenated(ext, k, slots[..|slots| - 1], f) + ListOf(Own(ext, k, slots[|slots| - 1]), f)
  }

  function InitCalls(slots: seq<Slot>): (calls: seq<Call>)
    ensures |calls| == |slots| && forall i :: 0 <= i < |slots| ==> calls[i] == InitCall(slots[i])
  {
    seq(|slots|, i requires 0 <= i < |slots| => InitCall(slots[i]))
  }

  function ShutdownCalls(slots: seq<Slot>): (calls: seq<Call>)
    ensures |calls| == |slots| && forall i :: 0 <= i < |slots| ==> calls[i] == ShutdownCall(slots[i])
  {
    seq(|slots|, i requires 0 <= i < |slots| => ShutdownCall(slots[i]))
  }

  /** The first handler, in order, whose Initialize fails is at position i of the live ones. */
  ghost predicate FirstFailure(ext: Extension, k: nat, live: seq<Slot>, i: nat) {
    i < |live| && !InitSucceeds(ext, k, live[i]) && forall j :: 0 <= j < i ==> InitSucceeds(ext, k, live[j])
  }

  /** Every live handler initialized, and each of the eight lists is the concatenation of theirs. */
  ghost predicate InitDone(ext: Extension, k: nat, live: seq<Slot>, s: InitState) {
    && (forall i :: 0 <= i < |live| ==> InitSucceeds(ext, k, live[i]))
    && s.failed == None
    && s.calls == InitCalls(live)
    && (forall f :: ListOf(s.merged, f) == Concatenated(ext, k, live, f))
  }

  /** Initialization stopped right at the first failing handler, position i. */
  ghost predicate InitStoppedAt(ext: Extension, k: nat, live: seq<Slot>, s: InitState, i: nat) {
    && FirstFailure(ext, k, live, i)
    && s.failed == Some(live[i].Name() + " init: " + ext.init(k, live[i]).reason)
    && s.calls == InitCalls(live[..i + 1])
  }

  lemma ListsAreMerged(a: Registrations, outcome: InitOutcome, r: Registrations, f: Field)
    requires outcome.Registered?
    requires r == match outcome.regs case Some(b) => Plus(a, b) case None => a
    ensures ListOf(r, f) == ListOf(a, f) + match outcome.regs case Some(b) => ListOf(b, f) case None => []
  {
  }

  lemma InitGoesOn(ext: Extension, k: nat, before: seq<Slot>, slot: Slot, s: InitState)
    requires ext.installed(slot) && InitDone(ext, k, before, s)
    ensures var live, t := before + [slot], InitStep(ext, k, s, slot);
            if InitSucceeds(ext, k, slot) then InitDone(ext, k, live, t)
            else InitStoppedAt(ext, k, live, t, |before|)
  {
    var live, t := before + [slot], InitStep(ext, k, s, slot);
    assert live[..|live| - 1] == before && live[..|live|] == live;
    assert t.calls == InitCalls(live);
    if InitSucceeds(ext, k, slot) {
      forall f
        ensures ListOf(t.merged, f) == Concatenated(ext, k, live, f)
      {
        ListsAreMerged(s.merged, ext.init(k, slot), t.merged, f);
      }
    }
  }

  lemma StoppedStays(ext: Extension, k: nat, before: seq<Slot>, live: seq<Slot>, s: InitState, i: nat)
    requires before <= live && InitStoppedAt(ext, k, before, s, i)
    ensures InitStoppedAt(ext, k, live, s, i)
  {
    assert live[..i + 1] == before[..i + 1];
  }

  /**
   Initialization over the installed handlers ends in one of two ways: all of them succeeded and
   their registrations are merged, or it stopped right at the first failure.
   */
  lemma {:induction false} InitMeans(ext: Extension, k: nat, n: nat)
    requires n <= |ORDER|
    ensures var s, live := InitAfter(ext, k, n), Live(ext, n);
            InitDone(ext, k, live, s) || exists i: nat :: InitStoppedAt(ext, k, live, s, i)
  {
    if n == 0 {
    } else {
      InitMeans(ext, k, n - 1);
      var before, live := Live(ext, n - 1), Live(ext, n);
      var s, t := InitAfter(ext, k, n - 1), InitAfter(ext, k, n);
      if InitDone(ext, k, before, s) {
        if ext.installed(ORDER[n - 1]) {
          InitGoesOn(ext, k, before, ORDER[n - 1], s);
        } else {
          assert live == before && t == s;
        }
      } else {
        var i: nat :| InitStoppedAt(ext, k, before, s, i);
        assert t == s;
        StoppedStays(ext, k, before, live, s, i);
      }
    }
  }

  predicate ShutdownSucceeds(ext: Extension, k: nat, slot: Slot) {
    ext.shutdown(k, slot) == None
  }

  /** The labelled errors of the handlers whose Shutdown fails, in order. */
  function ShutdownTexts(ext: Extension, k: nat, slots: seq<Slot>): seq<string> {
    if slots == [] then []
    else
      var last := slots[|slots| - 1];
      ShutdownTexts(ext, k, slots[..|slots| - 1]) +
      if ShutdownSucceeds(ext, k, last) then [] else [last.Name() + " shutdown: " + ext.shutdown(k, last).value]
  }

  lemma {:induction false} NoTextsIff(ext: Extension, k: nat, slots: seq<Slot>)
    ensures ShutdownTexts(ext, k, slots) == [] <==> forall i :: 0 <= i < |slots| ==> ShutdownSucceeds(ext, k, slots[i])
  {
    if slots == [] {
    } else {
      NoTextsIff(ext, k, slots[..|slots| - 1]);
      assert forall i :: 0 <= i < |slots| - 1 ==> slots[i] == slots[..|slots| - 1][i];
    }
  }

  lemma {:induction false} ShutdownFold(ext: Extension, k: nat, n: nat)
    requires n <= |ORDER|
    ensures ShutdownAfter(ext, k, n).calls == ShutdownCalls(Live(ext, n))
    ensures ShutdownAfter(ext, k, n).errs == ShutdownTexts(ext, k, Live(ext, n))
  {
    if n == 0 {
    } else {
      ShutdownFold(ext, k, n - 1);
      var slot, before, live := ORDER[n - 1], Live(ext, n - 1), Live(ext, n);
      if ext.installed(slot) {
        assert live[..|live| - 1] == before && live[|live| - 1] == slot;
        assert ShutdownCalls(before) + [ShutdownCall(slot)] == ShutdownCalls(live);
      } else {
        assert live == before;
      }
    }
  }

  /** Shutdown reaches every installed handler exactly once, in order, whatever the others return. */
  lemma ShutdownMeans(ext: Extension, k: nat, n: nat)
    requires n <= |ORDER|
    ensures var s, live := ShutdownAfter(ext, k, n), Live(ext, n);
            && s.calls == ShutdownCalls(live)
            && s.errs == ShutdownTexts(ext, k, live)
            && (ShutdownError(s.errs) == None <==> forall i :: 0 <= i < |live| ==> ShutdownSucceeds(ext, k, live[i]))
  {
    ShutdownFold(ext, k, n);
    NoTextsIff(ext, k, Live(ext, n));
  }

  lemma SlotsDiffer(i: nat, j: nat)
    requires i < j < |ORDER|
    ensures ORDER[i] != ORDER[j]
  {
  }

  /** Every live handler among the first n slots is the one at some place of the order. */
  lemma {:induction false} LivePlace(ext: Extension, n: nat, i: nat) returns (place: nat)
    requires n <= |ORDER| && i < |Live(ext, n)|
    ensures place < n && Live(ext, n)[i] == ORDER[place] && ext.installed(ORDER[place])
  {
    if i < |Live(ext, n - 1)| {
      place := LivePlace(ext, n - 1, i);
    } else {
      place := n - 1;
    }
  }

  lemma {:induction false} LiveHas(ext: Extension, n: nat, place: nat)
    requires place < n <= |ORDER|
    ensures ORDER[place] in Live(ext, n) <==> ext.installed(ORDER[place])
  {
    if place < n - 1 {
      LiveHas(ext, n - 1, place);
      SlotsDiffer(place, n - 1);
    } else {
      var before := Live(ext, n - 1);
      forall i | 0 <= i < |before|
        ensures before[i] != ORDER[place]
      {
        var other := LivePlace(ext, n - 1, i);
        SlotsDiffer(other, place);
      }
    }
  }

  lemma {:induction false} LiveOnce(ext: Extension, n: nat, i: nat, j: nat)
    requires n <= |ORDER| && i < j < |Live(ext, n)|
    ensures Live(ext, n)[i] != Live(ext, n)[j]
  {
    if j < |Live(ext, n - 1)| {
      LiveOnce(ext, n - 1, i, j);
    } else {
      var place := LivePlace(ext, n - 1, i);
      SlotsDiffer(place, n - 1);
    }
  }

  /** Live handlers are exactly the installed ones, each once. */
  lemma LiveIsInstalled(ext: Extension, n: nat)
    requires n <= |ORDER|
    ensures forall i: nat :: i < n ==> (ORDER[i] in Live(ext, n) <==> ext.installed(ORDER[i]))
    ensures forall i :: 0 <= i < |Live(ext, n)| ==> Live(ext, n)[i] in ORDER[..n]
    ensures forall i, j :: 0 <= i < j < |Live(ext, n)| ==> Live(ext, n)[i] != Live(ext, n)[j]
  {
    hide Live;
    forall i: nat | i < n
      ensures ORDER[i] in Live(ext, n) <==> ext.installed(ORDER[i])
    {
      LiveHas(ext, n, i);
    }
    forall i | 0 <= i < |Live(ext, n)|
      ensures Live(ext, n)[i] in ORDER[..n]
    {
      var place := LivePlace(ext, n, i);
      assert ORDER[..n][place] == Live(ext, n)[i];
    }
    forall i, j | 0 <= i < j < |Live(ext, n)|
      ensures Live(ext, n)[i] != Live(ext, n)[j]
    {
      LiveOnce(ext, n, i, j);
    }
  }
}
