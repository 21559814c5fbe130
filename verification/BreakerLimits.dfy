/**
 How many calls get through: probes in a half-open period, and calls started in a window of time.
 */
module BreakerLimits {
  import opened Breaker
  import opened BreakerRuns

  // ----- Probes -----------------------------------------------------------------------------

  /** The calls admitted so far in the half-open period the run ends in; none in another state. */
  function Probes(cfg: Config, run: Run): set<nat> {
    if run == [] || After(cfg, run).core.state != HalfOpen then {}
    else Probes(cfg, Butlast(run)) + if Last(run).event.Admit? then {Last(run).event.call} else {}
  }

  /** Any recorded outcome ends the period, so the probes of a period are all still in flight. */
  lemma {:induction false} ProbesAreInFlight(cfg: Config, run: Run)
    requires Legal(cfg, run)
    ensures Probes(cfg, run) <= After(cfg, run).inFlight
    decreases |run|
  {
    if run == [] {
    } else {
      ProbesAreInFlight(cfg, Butlast(run));
      StateIsHistory(cfg, Butlast(run), Last(run).time);
    }
  }

  /**
   Event i is a caller that is still at work: it was admitted, its outcome is not recorded yet, and
   the breaker has not opened since.
   */
  predicate Pending(cfg: Config, run: Run, i: nat)
    requires i < |run|
  {
    && run[i].event.Admit? && run[i].event.call in After(cfg, run).inFlight
    && forall k :: i < k < |run| ==> !Opening(cfg, run, k)
  }

  predicate PendingCall(cfg: Config, run: Run, call: nat) {
    exists i: nat :: i < |run| && Pending(cfg, run, i) && run[i].event.call == call
  }

  lemma PendingKept(cfg: Config, run: Run, i: nat)
    requires run != [] && i < |run| - 1
    ensures Pending(cfg, run, i) <==>
              && run[i].event.Admit? && run[i].event.call in After(cfg, run).inFlight
              && (forall k :: i < k < |run| - 1 ==> !Opening(cfg, Butlast(run), k))
              && !Opening(cfg, run, |run| - 1)
  {
    forall k | i < k < |run| - 1
      ensures Opening(cfg, run, k) == Opening(cfg, Butlast(run), k)
    {
      assert run[..k + 1] == Butlast(run)[..k + 1];
    }
  }

  /** An outcome that leaves the breaker tripped has opened it, and no call is pending. */
  lemma RecordedWhenTripped(cfg: Config, run: Run, call: nat)
    requires run != [] && Legal(cfg, run) && Last(run).event.Record?
    requires After(cfg, run).core.state != Closed
    ensures After(cfg, run).core.state == Open && !PendingCall(cfg, run, call)
  {
    StateIsHistory(cfg, Butlast(run), Last(run).time);
    StateIsHistory(cfg, run, Last(run).time);
    assert run[..|run| - 1 + 1] == run;
    assert Opening(cfg, run, |run| - 1);
  }

  /** One event that opens nothing adds to the pending calls the call it starts, if it starts one. */
  lemma PendingNext(cfg: Config, run: Run, call: nat)
    requires run != [] && Legal(cfg, run) && !Last(run).event.Record?
    ensures PendingCall(cfg, run, call) <==>
              || PendingCall(cfg, Butlast(run), call)
              || (Last(run).event == Admit(call) && call in After(cfg, run).inFlight)
  {
    var before, last := Butlast(run), |run| - 1;
    assert After(cfg, before).inFlight <= After(cfg, run).inFlight;
    if PendingCall(cfg, before, call) {
      var i: nat :| i < |before| && Pending(cfg, before, i) && before[i].event.call == call;
      PendingKept(cfg, run, i);
      assert Pending(cfg, run, i);
    }
    if Last(run).event == Admit(call) && call in After(cfg, run).inFlight {
      assert Pending(cfg, run, last);
    }
    if PendingCall(cfg, run, call) {
      var i: nat :| i < |run| && Pending(cfg, run, i) && run[i].event.call == call;
      if i < last {
        PendingKept(cfg, run, i);
        assert call in After(cfg, before).inFlight ==> Pending(cfg, before, i);
      }
    }
  }

  /**
   Probes, seen from the history: in a half-open period they are the pending calls, and an open
   breaker has none.
   */
  lemma {:induction false} ProbesArePending(cfg: Config, run: Run, call: nat)
    requires Legal(cfg, run)
    ensures After(cfg, run).core.state == HalfOpen ==> (call in Probes(cfg, run) <==> PendingCall(cfg, run, call))
    ensures After(cfg, run).core.state == Open ==> !PendingCall(cfg, run, call)
    decreases |run|
  {
    if run == [] {
    } else {
      ProbesArePending(cfg, Butlast(run), call);
      if Last(run).event.Record? {
        if After(cfg, run).core.state != Closed {
          RecordedWhenTripped(cfg, run, call);
        }
      } else {
        PendingNext(cfg, run, call);
      }
    }
  }

  /**
   The documentation's "one probe request", exactly: a caller admitted to a half-open breaker is the
   only probe of its period if and only if no call admitted since the breaker last opened is still
   at work when it arrives.
   */
  lemma OneProbeIff(cfg: Config, run: Run)
    requires run != [] && Legal(cfg, run) && Last(run).event.Admit?
    requires After(cfg, run).core.state == HalfOpen
    ensures Probes(cfg, run) == {Last(run).event.call} <==>
            forall i: nat :: i < |run| - 1 ==> !Pending(cfg, Butlast(run), i)
  {
    var before := Butlast(run);
    ProbesAreInFlight(cfg, before);
    forall call: nat
      ensures call in Probes(cfg, before) <==> PendingCall(cfg, before, call)
    {
      ProbesArePending(cfg, before, call);
    }
    forall i: nat | i < |before| && Pending(cfg, before, i)
      ensures before[i].event.call in Probes(cfg, before)
    {
      assert PendingCall(cfg, before, before[i].event.call);
    }
  }

  /** Callers that do not overlap: a call is only made when none is in flight. */
  predicate Sequential(cfg: Config, run: Run) {
    run != [] ==>
      && Sequential(cfg, Butlast(run))
      && (Last(run).event.Admit? ==> After(cfg, Butlast(run)).inFlight == {})
  }

  lemma {:induction false} SequentialInFlight(cfg: Config, run: Run)
    requires Legal(cfg, run) && Sequential(cfg, run)
    ensures |After(cfg, run).inFlight| <= 1
    decreases |run|
  {
    if run == [] {
    } else {
      SequentialInFlight(cfg, Butlast(run));
    }
  }

  lemma SetSizeMonotone<T>(a: set<T>, b: set<T>)
    requires a <= b
    ensures |a| <= |b|
  {
    assert b == a + (b - a);
  }

  lemma SequentialProbesOnce(cfg: Config, run: Run)
    requires Legal(cfg, run) && Sequential(cfg, run)
    ensures |Probes(cfg, run)| <= 1
  {
    ProbesAreInFlight(cfg, run);
    SequentialInFlight(cfg, run);
    SetSizeMonotone(Probes(cfg, run), After(cfg, run).inFlight);
  }

  /** Overlapping callers do get two probes through one half-open period. */
  lemma TwoProbesOverlap() returns (cfg: Config, run: Run)
    ensures Legal(cfg, run) && |Probes(cfg, run)| == 2
  {
    cfg := Config(1, 5);
    var r1 := [Timed(0, Admit(0))];
    var r2 := r1 + [Timed(0, Record(0, false))];
    var r3 := r2 + [Timed(5, Admit(1))];
    run := r3 + [Timed(5, Admit(2))];
    assert Butlast(r1) == [] && Butlast(r2) == r1 && Butlast(r3) == r2 && Butlast(run) == r3;
    assert After(cfg, []) == Sys(INITIAL, {});
    assert After(cfg, r1) == Sys(INITIAL, {0});
    assert After(cfg, r2) == Sys(Core(Open, 1, 0), {});
    assert After(cfg, r3) == Sys(Core(HalfOpen, 1, 0), {1});
    assert After(cfg, run) == Sys(Core(HalfOpen, 1, 0), {1, 2});
    assert Legal(cfg, r1) && Legal(cfg, r2) && Legal(cfg, r3) && Legal(cfg, run);
    assert Probes(cfg, r2) == {};
    assert Probes(cfg, r3) == {1};
    assert Probes(cfg, run) == {1, 2};
  }

  // ----- Rate -------------------------------------------------------------------------------

  /** The times at which functions were started, in order. */
  function Starts(cfg: Config, run: Run): seq<int> {
    if run == [] then []
    else Starts(cfg, Butlast(run)) +
         if Last(run).event.Admit? && Started(cfg, run, |run| - 1) then [Last(run).time] else []
  }

  predicate NeverRecovers(run: Run) {
    forall i :: 0 <= i < |run| ==> !Recovery(run[i].event)
  }

  function CountIn(xs: seq<int>, lo: int, hi: int): nat {
    if xs == [] then 0
    else CountIn(xs[..|xs| - 1], lo, hi) + if lo <= xs[|xs| - 1] <= hi then 1 else 0
  }

  /** After the first `free` entries each entry is at least `gap` after the one before it. */
  predicate Spaced(xs: seq<int>, free: nat, gap: int) {
    && (forall i, j :: 0 <= i <= j < |xs| ==> xs[i] <= xs[j])
    && (forall i, j :: 0 <= i < j < |xs| && free <= j ==> xs[i] + gap <= xs[j])
  }

  lemma {:induction false} CountInShrinks(xs: seq<int>, lo: int, hi: int, cap: int)
    requires forall i :: 0 <= i < |xs| ==> xs[i] <= cap
    ensures CountIn(xs, lo, hi) <= |xs|
    ensures CountIn(xs, lo, hi) <= CountIn(xs, lo, cap)
    ensures cap < lo ==> CountIn(xs, lo, cap) == 0
    decreases |xs|
  {
    if xs == [] {
    } else {
      CountInShrinks(xs[..|xs| - 1], lo, hi, cap);
    }
  }

  /** With gap `gap`, a window shorter than `q + 1` gaps holds at most `free + q` entries. */
  lemma {:induction false} SpacedCount(xs: seq<int>, free: nat, gap: int, lo: int, hi: int, q: nat)
    requires free >= 1 && gap > 0
    requires Spaced(xs, free, gap)
    requires hi - lo < (q + 1) * gap
    ensures CountIn(xs, lo, hi) <= free + q
    decreases |xs|
  {
    if xs == [] {
    } else {
      var init, x := xs[..|xs| - 1], xs[|xs| - 1];
      if !(lo <= x <= hi) {
        SpacedCount(init, free, gap, lo, hi, q);
      } else if |xs| <= free {
        CountInShrinks(init, lo, hi, x);
      } else {
        CountInShrinks(init, lo, hi, x - gap);
        if x - gap >= lo {
          assert (q + 1) * gap == q * gap + gap;
          assert q >= 1;
          SpacedCount(init, free, gap, lo, x - gap, q - 1);
        }
      }
    }
  }

  predicate NoneAfter(xs: seq<int>, time: int) {
    forall i :: 0 <= i < |xs| ==> xs[i] <= time
  }

  /** What a sequential run of failures keeps about the times at which it started functions. */
  ghost predicate Rated(cfg: Config, run: Run) {
    && Spaced(Starts(cfg, run), cfg.Trip(), cfg.cooldown)
    && |Starts(cfg, run)| == FailuresSince(run) + |After(cfg, run).inFlight|
    && (if run == [] then Starts(cfg, run) == [] else NoneAfter(Starts(cfg, run), Last(run).time))
    && (After(cfg, run).inFlight == {} && FailuresSince(run) >= cfg.Trip() ==>
          NoneAfter(Starts(cfg, run), LastOpening(cfg, run)))
  }

  lemma SpacedSnoc(xs: seq<int>, x: int, free: nat, gap: int)
    requires Spaced(xs, free, gap) && NoneAfter(xs, x) && (|xs| >= free ==> NoneAfter(xs, x - gap))
    ensures Spaced(xs + [x], free, gap) && NoneAfter(xs + [x], x)
  {
  }

  lemma NoneAfterLater(xs: seq<int>, time: int, later: int)
    requires NoneAfter(xs, time) && time <= later
    ensures NoneAfter(xs, later)
  {
  }

  lemma StartsBefore(cfg: Config, run: Run)
    requires run != [] && Legal(cfg, run) && Rated(cfg, Butlast(run))
    ensures NoneAfter(Starts(cfg, Butlast(run)), Last(run).time)
  {
    var before := Butlast(run);
    assert NotBefore(before, Last(run).time);
    hide Spaced, Starts, After, FailuresSince, LastOpening, Legal;
  }

  lemma AdmitShape(cfg: Config, run: Run)
    requires run != [] && Legal(cfg, run) && Sequential(cfg, run) && Last(run).event.Admit?
    ensures FailuresSince(run) == FailuresSince(Butlast(run)) && After(cfg, Butlast(run)).inFlight == {}
    ensures LastOpening(cfg, run) == LastOpening(cfg, Butlast(run))
    ensures if Started(cfg, run, |run| - 1) then
              && |After(cfg, run).inFlight| == 1
              && Starts(cfg, run) == Starts(cfg, Butlast(run)) + [Last(run).time]
            else
              After(cfg, run).inFlight == {} && Starts(cfg, run) == Starts(cfg, Butlast(run))
  {
    assert run[..|run| - 1 + 1] == run;
    assert {} + {Last(run).event.call} == {Last(run).event.call};
  }

  /** A tripped breaker starts a function only a cooldown after it opened. */
  lemma StartsCooled(cfg: Config, run: Run)
    requires run != [] && Legal(cfg, run) && Last(run).event.Admit? && Started(cfg, run, |run| - 1)
    requires FailuresSince(Butlast(run)) >= cfg.Trip()
    ensures LastOpening(cfg, Butlast(run)) <= Last(run).time - cfg.cooldown
  {
    assert run[..|run| - 1 + 1] == run;
    StateIsHistory(cfg, Butlast(run), Last(run).time);
  }

  lemma AdmitRated(cfg: Config, run: Run)
    requires cfg.cooldown > 0 && run != [] && Legal(cfg, run) && Sequential(cfg, run)
    requires Last(run).event.Admit? && Rated(cfg, Butlast(run))
    ensures Rated(cfg, run)
  {
    hide Spaced, NoneAfter, Starts, After, FailuresSince, LastOpening, Legal, Sequential, Started;
    var xs, now := Starts(cfg, Butlast(run)), Last(run).time;
    AdmitShape(cfg, run);
    StartsBefore(cfg, run);
    if Started(cfg, run, |run| - 1) {
      if FailuresSince(Butlast(run)) >= cfg.Trip() {
        StartsCooled(cfg, run);
        NoneAfterLater(xs, LastOpening(cfg, Butlast(run)), now - cfg.cooldown);
      }
      SpacedSnoc(xs, now, cfg.Trip(), cfg.cooldown);
    }
  }

  lemma RecordRated(cfg: Config, run: Run)
    requires run != [] && Legal(cfg, run) && Sequential(cfg, run) && !Recovery(Last(run).event)
    requires Last(run).event.Record? && Rated(cfg, Butlast(run))
    ensures Rated(cfg, run)
  {
    assert run[..|run| - 1 + 1] == run;
    SequentialInFlight(cfg, Butlast(run));
    SingletonOf(After(cfg, Butlast(run)).inFlight, Last(run).event.call);
  }

  lemma PollShape(cfg: Config, run: Run)
    requires run != [] && Last(run).event.Poll?
    ensures FailuresSince(run) == FailuresSince(Butlast(run))
    ensures LastOpening(cfg, run) == LastOpening(cfg, Butlast(run))
    ensures After(cfg, run).inFlight == After(cfg, Butlast(run)).inFlight
    ensures Starts(cfg, run) == Starts(cfg, Butlast(run))
  {
    assert run[..|run| - 1 + 1] == run;
  }

  lemma PollRated(cfg: Config, run: Run)
    requires run != [] && Legal(cfg, run)
    requires Last(run).event.Poll? && Rated(cfg, Butlast(run))
    ensures Rated(cfg, run)
  {
    hide Spaced, NoneAfter, Starts, After, FailuresSince, LastOpening, Legal;
    PollShape(cfg, run);
    StartsBefore(cfg, run);
  }

  /** While every call fails, the starts of callers that do not overlap are spaced. */
  lemma {:induction false} StartsAreSpaced(cfg: Config, run: Run)
    requires cfg.cooldown > 0
    requires Legal(cfg, run) && Sequential(cfg, run) && NeverRecovers(run)
    ensures Rated(cfg, run)
    decreases |run|
  {
    if run == [] {
    } else {
      StartsAreSpaced(cfg, Butlast(run));
      assert !Recovery(Last(run).event);
      hide Rated;
      match Last(run).event
      case Admit(_) => AdmitRated(cfg, run);
      case Record(_, _) => RecordRated(cfg, run);
      case Poll => PollRated(cfg, run);
    }
  }

  lemma SingletonOf<T>(s: set<T>, x: T)
    requires x in s && |s| <= 1
    ensures s == {x}
  {
    assert |s - {x}| == 0;
  }

  lemma RatedIsSpaced(cfg: Config, run: Run)
    requires Rated(cfg, run)
    ensures Spaced(Starts(cfg, run), cfg.Trip(), cfg.cooldown)
  {
    hide Spaced, Starts, After, FailuresSince, LastOpening;
  }

  lemma NextMultiple(n: nat, d: int)
    requires d > 0
    ensures n / d >= 0 && n < (n / d + 1) * d
  {
    assert n == (n / d) * d + n % d;
  }

  /**
   The rate bound: while every call fails, callers that do not overlap start at most
   max(threshold, 1) + T / cooldown functions in any closed window of length T.
   */
  lemma RateBound(cfg: Config, run: Run, from: int, length: nat)
    requires cfg.cooldown > 0
    requires Legal(cfg, run) && Sequential(cfg, run) && NeverRecovers(run)
    ensures CountIn(Starts(cfg, run), from, from + length) <= cfg.Trip() + length / cfg.cooldown
  {
    hide *;
    StartsAreSpaced(cfg, run);
    RatedIsSpaced(cfg, run);
    NextMultiple(length, cfg.cooldown);
    SpacedCount(Starts(cfg, run), cfg.Trip(), cfg.cooldown, from, from + length, length / cfg.cooldown);
  }

  /** A failing call made and recorded at `time`. */
  function FailingCall(time: int): Run {
    [Timed(time, Admit(0)), Timed(time, Record(0, false))]
  }

  /** The busiest sequential run: trip the breaker at once, then probe as soon as it allows. */
  function Busiest(cfg: Config, calls: nat): Run {
    if calls == 0 then []
    else Busiest(cfg, calls - 1) + FailingCall(BusyTime(cfg, calls - 1))
  }

  /** The time of the call with the given index in the busiest run. */
  function BusyTime(cfg: Config, k: nat): int {
    if k < cfg.Trip() then 0 else (k - cfg.Trip() + 1) * cfg.cooldown
  }

  lemma BusyStep(cfg: Config, k: nat)
    requires cfg.cooldown > 0
    ensures 0 <= BusyTime(cfg, k)
    ensures BusyTime(cfg, k + 1) == BusyTime(cfg, k) + if k + 1 < cfg.Trip() then 0 else cfg.cooldown
  {
    if k >= cfg.Trip() {
      var m := k - cfg.Trip() + 1;
      assert (m + 1) * cfg.cooldown == m * cfg.cooldown + cfg.cooldown;
    }
  }

  /** What the busiest run of a given number of calls looks like. */
  ghost predicate Busy(cfg: Config, run: Run, calls: nat) {
    && Legal(cfg, run) && Sequential(cfg, run) && NeverRecovers(run)
    && FailuresSince(run) == calls
    && After(cfg, run).inFlight == {}
    && (run == [] <==> calls == 0)
    && (calls > 0 ==> Last(run).time == BusyTime(cfg, calls - 1))
    && (calls >= cfg.Trip() ==> LastOpening(cfg, run) == BusyTime(cfg, calls - 1))
  }

  /** The busiest run while its last call is in flight. */
  ghost predicate Calling(cfg: Config, run: Run, calls: nat, time: int) {
    && run != [] && Legal(cfg, run) && Sequential(cfg, run) && NeverRecovers(run)
    && FailuresSince(run) == calls && After(cfg, run).inFlight == {0} && Last(run).time == time
  }

  /** The breaker lets the next call of the busiest run through. */
  lemma BusyIsLet(cfg: Config, before: Run, calls: nat)
    requires cfg.cooldown > 0 && Busy(cfg, before, calls)
    ensures Effective(cfg, After(cfg, before).core, BusyTime(cfg, calls)) != Open
    ensures NotBefore(before, BusyTime(cfg, calls))
  {
    BusyStep(cfg, if calls > 0 then calls - 1 else 0);
    StateIsHistory(cfg, before, BusyTime(cfg, calls));
    hide Legal, Sequential, NeverRecovers, BusyTime, LastOpening, FailuresSince, After, Effective;
  }

  lemma AdmitNext(cfg: Config, before: Run, t: int)
    requires Legal(cfg, before) && Sequential(cfg, before) && NeverRecovers(before) && NotBefore(before, t)
    requires After(cfg, before).inFlight == {} && Effective(cfg, After(cfg, before).core, t) != Open
    ensures var mid := before + [Timed(t, Admit(0))];
            && Calling(cfg, mid, FailuresSince(before), t)
            && Starts(cfg, mid) == Starts(cfg, before) + [t]
  {
    var mid := before + [Timed(t, Admit(0))];
    assert Butlast(mid) == before && mid[..|mid| - 1 + 1] == mid;
    hide Effective;
    assert After(cfg, mid).inFlight == {0};
    assert Started(cfg, mid, |mid| - 1);
  }

  lemma BusyAdmit(cfg: Config, before: Run, calls: nat)
    requires cfg.cooldown > 0 && Busy(cfg, before, calls)
    ensures var t := BusyTime(cfg, calls);
            var mid := before + [Timed(t, Admit(0))];
            Calling(cfg, mid, calls, t) && Starts(cfg, mid) == Starts(cfg, before) + [t]
  {
    BusyIsLet(cfg, before, calls);
    hide Legal, Sequential, NeverRecovers, BusyTime, LastOpening, FailuresSince, After, Effective, Calling, Starts;
    AdmitNext(cfg, before, BusyTime(cfg, calls));
  }

  lemma BusyRecord(cfg: Config, mid: Run, calls: nat, t: int)
    requires Calling(cfg, mid, calls, t) && t == BusyTime(cfg, calls)
    ensures var run := mid + [Timed(t, Record(0, false))];
            Busy(cfg, run, calls + 1) && Starts(cfg, run) == Starts(cfg, mid)
  {
    var run := mid + [Timed(t, Record(0, false))];
    assert Butlast(run) == mid && run[..|run| - 1 + 1] == run;
    hide BusyTime;
  }

  lemma BusyCall(cfg: Config, before: Run, calls: nat)
    requires cfg.cooldown > 0
    requires Busy(cfg, before, calls)
    ensures var t := BusyTime(cfg, calls);
            && Busy(cfg, before + FailingCall(t), calls + 1)
            && Starts(cfg, before + FailingCall(t)) == Starts(cfg, before) + [t]
  {
    var t := BusyTime(cfg, calls);
    var mid := before + [Timed(t, Admit(0))];
    assert mid + [Timed(t, Record(0, false))] == before + FailingCall(t);
    hide *;
    BusyAdmit(cfg, before, calls);
    BusyRecord(cfg, mid, calls, t);
  }

  lemma {:induction false} BusiestRun(cfg: Config, calls: nat)
    requires cfg.cooldown > 0
    ensures Busy(cfg, Busiest(cfg, calls), calls)
    ensures |Starts(cfg, Busiest(cfg, calls))| == calls
    ensures forall k :: 0 <= k < calls ==> Starts(cfg, Busiest(cfg, calls))[k] == BusyTime(cfg, k)
  {
    if calls == 0 {
    } else {
      BusiestRun(cfg, calls - 1);
      BusyCall(cfg, Busiest(cfg, calls - 1), calls - 1);
    }
  }

  lemma {:induction false} CountAll(xs: seq<int>, lo: int, hi: int)
    requires forall i :: 0 <= i < |xs| ==> lo <= xs[i] <= hi
    ensures CountIn(xs, lo, hi) == |xs|
    decreases |xs|
  {
    if xs == [] {
    } else {
      CountAll(xs[..|xs| - 1], lo, hi);
    }
  }

  lemma {:induction false} BusyWithin(cfg: Config, k: nat, q: nat, length: int)
    requires cfg.cooldown > 0 && k < cfg.Trip() + q && q * cfg.cooldown <= length
    ensures 0 <= BusyTime(cfg, k) <= length
    decreases q
  {
    if k >= cfg.Trip() {
      if k < cfg.Trip() + q - 1 {
        assert q * cfg.cooldown == (q - 1) * cfg.cooldown + cfg.cooldown;
        BusyWithin(cfg, k, q - 1, length);
      } else {
        assert q * cfg.cooldown >= 0;
      }
    }
  }

  /** The rate bound is attained, for every configuration with a positive cooldown and every window length. */
  lemma RateBoundIsTight(cfg: Config, length: nat) returns (run: Run)
    requires cfg.cooldown > 0
    ensures Legal(cfg, run) && Sequential(cfg, run) && NeverRecovers(run)
    ensures CountIn(Starts(cfg, run), 0, length) == cfg.Trip() + length / cfg.cooldown
  {
    var q := length / cfg.cooldown;
    assert q * cfg.cooldown <= length;
    var calls := cfg.Trip() + q;
    run := Busiest(cfg, calls);
    BusiestRun(cfg, calls);
    forall k: nat | k < calls
      ensures 0 <= BusyTime(cfg, k) <= length
    {
      BusyWithin(cfg, k, q, length);
    }
    CountAll(Starts(cfg, run), 0, length);
  }
}
