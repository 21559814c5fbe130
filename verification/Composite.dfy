/**
 The composite extension of extension/run.go: initialization, dispatch and shutdown over the
 installed handlers, writing to the transport and keeping a log of the calls into handlers.
 */
module CompositeExtension {
  import opened Wrappers

  import opened Envelope
  import opened Ndjson
  import opened Handlers

  /** The notifications that marshal; the others are dropped with an error to the handler. */
  function Notifications(es: seq<Emission>): seq<Outgoing> {
    if es == [] then []
    else Notifications(es[..|es| - 1]) + NotificationOf(es[|es| - 1])
  }

  function NotificationOf(e: Emission): seq<Outgoing> {
    match e.params
    case Json(raw) => [Notif(Notification(e.name, raw))]
    case Unmarshallable(_) => []
  }

  /** What the handlers behind a sequence of calls send, in order. */
  function Emitted(ext: Extension, k: nat, calls: seq<Call>): seq<Outgoing> {
    if calls == [] then []
    else Emitted(ext, k, calls[..|calls| - 1]) + Notifications(ext.emits(k, calls[|calls| - 1]))
  }

  /** The registrations an initialization merges into. */
  class RegistrationSet {
    var tools: seq<Def>
    var httpRoutes: seq<Def>
    var hooks: seq<Def>
    var services: seq<Def>
    var providers: seq<Def>
    var ttsProviders: seq<Def>
    var sttProviders: seq<Def>
    var cliCommands: seq<Def>

    function View(): Registrations
      reads this
    {
      Registrations(tools, httpRoutes, hooks, services, providers, ttsProviders, sttProviders, cliCommands)
    }

    constructor ()
      ensures View() == NO_REGISTRATIONS
    {
      tools, httpRoutes, hooks, services := [], [], [], [];
      providers, ttsProviders, sttProviders, cliCommands := [], [], [], [];
    }

    /** mergeRegistrations: a handler may return no registrations at all. */
    method Merge(src: Option<Registrations>)
      modifies this
      ensures src == None ==> View() == old(View())
      ensures forall f :: ListOf(View(), f) ==
                          ListOf(old(View()), f) + if src.Some? then ListOf(src.value, f) else []
    {
      if src == None {
        return;
      }
      tools := tools + src.value.tools;
      httpRoutes := httpRoutes + src.value.httpRoutes;
      hooks := hooks + src.value.hooks;
      services := services + src.value.services;
      providers := providers + src.value.providers;
      ttsProviders := ttsProviders + src.value.ttsProviders;
      sttProviders := sttProviders + src.value.sttProviders;
      cliCommands := cliCommands + src.value.cliCommands;
    }
  }

  lemma SameLists(a: Registrations, b: Registrations)
    requires forall f :: ListOf(a, f) == ListOf(b, f)
    ensures a == b
  {
    assert ListOf(a, Tools) == ListOf(b, Tools) && ListOf(a, HTTPRoutes) == ListOf(b, HTTPRoutes);
    assert ListOf(a, Hooks) == ListOf(b, Hooks) && ListOf(a, Services) == ListOf(b, Services);
    assert ListOf(a, Providers) == ListOf(b, Providers) && ListOf(a, TTSProviders) == ListOf(b, TTSProviders);
    assert ListOf(a, STTProviders) == ListOf(b, STTProviders) && ListOf(a, CLICommands) == ListOf(b, CLICommands);
  }

  class Composite {
    const ext: Extension
    const transport: Transport
    var calls: seq<Call>

    constructor (ext: Extension, transport: Transport)
      ensures this.ext == ext && this.transport == transport && calls == []
    {
      this.ext, this.transport := ext, transport;
      calls := [];
    }

    /** Enters a handler: the call is logged and what it sends while running goes out. */
    method Enter(k: nat, call: Call)
      requires transport.Reliable()
      modifies this`calls, transport`output, transport`writes
      ensures calls == old(calls) + [call]
      ensures transport.output == old(transport.output) + Wire(transport.codec, Notifications(ext.emits(k, call)))
    {
      calls := calls + [call];
      var es := ext.emits(k, call);
      WireEmpty(transport.codec);
      for i := 0 to |es|
        invariant calls == old(calls) + [call]
        invariant transport.output == old(transport.output) + Wire(transport.codec, Notifications(es[..i]))
      {
        var _ := transport.SendNotification(es[i].name, es[i].params);
        assert es[..i + 1][..i] == es[..i];
        WireAssoc(transport.codec, old(transport.output), Notifications(es[..i]), NotificationOf(es[i]));
      }
      assert es[..|es|] == es;
    }

    /** The log and the output, from given beginnings, after the given calls. */
    ghost predicate Logged(k: nat, calls0: seq<Call>, out0: bytes, made: seq<Call>)
      reads this, transport
    {
      && calls == calls0 + made
      && transport.output == out0 + Wire(transport.codec, Emitted(ext, k, made))
    }

    /** Entering one more handler extends the log and the output alike. */
    method EnterNext(k: nat, call: Call, ghost calls0: seq<Call>, ghost out0: bytes, ghost made: seq<Call>)
      requires Logged(k, calls0, out0, made)
      requires transport.Reliable()
      modifies this`calls, transport`output, transport`writes
      ensures Logged(k, calls0, out0, made + [call])
    {
      Enter(k, call);
      assert (made + [call])[..|made|] == made;
      WireAssoc(transport.codec, out0, Emitted(ext, k, made), Notifications(ext.emits(k, call)));
      assert calls0 + made + [call] == calls0 + (made + [call]);
    }

    /** Initialization stands after the first n slots, and none has failed. */
    ghost predicate Initialized(k: nat, n: nat, merged: RegistrationSet, calls0: seq<Call>, out0: bytes)
      requires n <= |ORDER|
      reads this, transport, merged
    {
      var s := InitAfter(ext, k, n);
      s.failed == None && s.merged == merged.View() && Logged(k, calls0, out0, s.calls)
    }

    /** Initialization is over with a failure. */
    ghost predicate InitializeFailed(k: nat, err: string, calls0: seq<Call>, out0: bytes)
      reads this, transport
    {
      var s := InitAfter(ext, k, |ORDER|);
      s.failed == Some(err) && Logged(k, calls0, out0, s.calls)
    }

    /** One guarded block of Initialize: the n-th slot of the order. */
    method InitializeOne(k: nat, n: nat, merged: RegistrationSet, ghost calls0: seq<Call>, ghost out0: bytes)
      returns (err: Option<string>)
      requires n < |ORDER|
      requires Initialized(k, n, merged, calls0, out0)
      requires transport.Reliable()
      modifies this`calls, transport`output, transport`writes, merged
      ensures err == None ==> Initialized(k, n + 1, merged, calls0, out0)
      ensures err.Some? ==> InitializeFailed(k, err.value, calls0, out0)
    {
      var slot := ORDER[n];
      if ext.installed(slot) {
        EnterNext(k, InitCall(slot), calls0, out0, InitAfter(ext, k, n).calls);
        match ext.init(k, slot)
        case InitFailed(reason) =>
          FailureStays(ext, k, n + 1);
          return Some(slot.Name() + " init: " + reason);
        case Registered(regs) =>
          ghost var before := merged.View();
          merged.Merge(regs);
          if regs.Some? {
            SameLists(merged.View(), Plus(before, regs.value));
          }
      }
      return None;
    }

    /** The eight guarded blocks in their order. */
    method Initialize(k: nat) returns (r: Result<Registrations, string>)
      requires transport.Reliable()
      modifies this`calls, transport`output, transport`writes
      ensures var s := InitAfter(ext, k, |ORDER|);
              && Logged(k, old(calls), old(transport.output), s.calls)
              && r == if s.failed.Some? then Err(s.failed.value) else Ok(s.merged)
    {
      ghost var calls0, out0 := calls, transport.output;
      var merged := new RegistrationSet();
      assert Initialized(k, 0, merged, calls0, out0) by {
        WireEmpty(transport.codec);
      }

      hide InitAfter, Wire, Emitted;
      for n := 0 to |ORDER|
        invariant Initialized(k, n, merged, calls0, out0)
      {
        var err := InitializeOne(k, n, merged, calls0, out0);
        if err.Some? {
          return Err(err.value);
        }
      }
      return Ok(merged.View());
    }

    /** One guarded block of Shutdown. */
    method ShutdownOne(k: nat, n: nat, errs: seq<string>, ghost calls0: seq<Call>, ghost out0: bytes)
      returns (errs': seq<string>)
      requires n < |ORDER|
      requires errs == ShutdownAfter(ext, k, n).errs
      requires Logged(k, calls0, out0, ShutdownAfter(ext, k, n).calls)
      requires transport.Reliable()
      modifies this`calls, transport`output, transport`writes
      ensures errs' == ShutdownAfter(ext, k, n + 1).errs
      ensures Logged(k, calls0, out0, ShutdownAfter(ext, k, n + 1).calls)
    {
      errs' := errs;
      var slot := ORDER[n];
      if ext.installed(slot) {
        EnterNext(k, ShutdownCall(slot), calls0, out0, ShutdownAfter(ext, k, n).calls);
        match ext.shutdown(k, slot)
        case None =>
        case Some(reason) =>
          errs' := errs + [slot.Name() + " shutdown: " + reason];
      }
    }

    /** The eight guarded blocks in their order, then one error made of all. */
    method Shutdown(k: nat) returns (err: Option<string>)
      requires transport.Reliable()
      modifies this`calls, transport`output, transport`writes
      ensures var s := ShutdownAfter(ext, k, |ORDER|);
              && Logged(k, old(calls), old(transport.output), s.calls)
              && err == ShutdownError(s.errs)
    {
      ghost var calls0, out0 := calls, transport.output;
      WireEmpty(transport.codec);
      var errs := [];
      for n := 0 to |ORDER|
        invariant errs == ShutdownAfter(ext, k, n).errs
        invariant Logged(k, calls0, out0, ShutdownAfter(ext, k, n).calls)
      {
        errs := ShutdownOne(k, n, errs, calls0, out0);
      }

      if errs == [] {
        return None;
      }
      if |errs| == 1 {
        return Some(errs[0]);
      }
      var msg := "multiple shutdown errors:";
      for i := 0 to |errs|
        invariant msg == Listed(errs[..i])
      {
        msg := msg + " " + errs[i] + ";";
        assert errs[..i + 1][..i] == errs[..i];
      }
      assert errs[..|errs|] == errs;
      return Some(msg);
    }
  }

  lemma {:induction false} FailureStays(ext: Extension, k: nat, n: nat)
    requires n <= |ORDER| && InitAfter(ext, k, n).failed.Some?
    ensures InitAfter(ext, k, |ORDER|) == InitAfter(ext, k, n)
    decreases |ORDER| - n
  {
    if n < |ORDER| {
      FailureStays(ext, k, n + 1);
    }
  }
}
