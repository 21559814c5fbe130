/**
 Every interleaving of callers around one circuit breaker, and what all of them keep.

 A run is a sequence of timed critical sections. Any number of calls may be in flight: a call is
 admitted in one section and records its outcome in a later one, with any other sections between.
 */
module BreakerRuns {
  import opened Breaker

  datatype Event =
    | Admit(call: nat)
    | Record(call: nat, ok: bool)
    | Poll
    | ResetBreaker

  datatype Timed = Timed(time: int, event: Event)

  type Run = seq<Timed>

  datatype Sys = Sys(core: Core, inFlight: set<nat>)

  function Step(cfg: Config, s: Sys, e: Timed): Sys {
    match e.event
    case Admit(c) =>
      var core := Polled(cfg, s.core, e.time);
      Sys(core, if core.state == Open then s.inFlight else s.inFlight + {c})
    case Record(c, ok) =>
      Sys(Recorded(cfg, s.core, e.time, ok), s.inFlight - {c})
    case Poll =>
      s.(core := Polled(cfg, s.core, e.time))
    case ResetBreaker =>
      s.(core := Cleared(s.core))
  }

  function Butlast(run: Run): Run
    requires run != []
  {
    run[..|run| - 1]
  }

  function Last(run: Run): Timed
    requires run != []
  {
    run[|run| - 1]
  }

  function After(cfg: Config, run: Run): Sys {
    if run == [] then Sys(INITIAL, {}) else Step(cfg, After(cfg, Butlast(run)), Last(run))
  }

  predicate NotBefore(run: Run, now: int) {
    run != [] ==> Last(run).time <= now
  }

  /** The clock never goes back, a call is admitted once, and only calls in flight record. */
  predicate Legal(cfg: Config, run: Run) {
    run != [] ==>
      var before := Butlast(run);
      && Legal(cfg, before)
      && NotBefore(before, Last(run).time)
      && match Last(run).event
         case Admit(c) => c !in After(cfg, before).inFlight
         case Record(c, _) => c in After(cfg, before).inFlight
         case _ => true
  }

  // ----- The state is a function of the history ---------------------------------------------

  predicate Recovery(e: Event) {
    e.ResetBreaker? || (e.Record? && e.ok)
  }

  predicate Failure(e: Event) {
    e.Record? && !e.ok
  }

  /** Failures recorded since the last recorded success or Reset. */
  function FailuresSince(run: Run): nat {
    if run == [] then 0
    else if Recovery(Last(run).event) then 0
    else FailuresSince(Butlast(run)) + if Failure(Last(run).event) then 1 else 0
  }

  /** Event i opens the breaker: a failure that brings the count to the trip level or beyond. */
  predicate Opening(cfg: Config, run: Run, i: nat)
    requires i < |run|
  {
    Failure(run[i].event) && FailuresSince(run[..i + 1]) >= cfg.Trip()
  }

  /** The time of the latest opening; 0 when there was none. */
  function LastOpening(cfg: Config, run: Run): int {
    if run == [] then 0
    else if Opening(cfg, run, |run| - 1) then Last(run).time
    else LastOpening(cfg, Butlast(run))
  }

  /** What the documentation promises, read off the history and the clock alone. */
  function HistoryState(cfg: Config, run: Run, now: int): BreakerState {
    if FailuresSince(run) < cfg.Trip() then Closed
    else if now - LastOpening(cfg, run) < cfg.cooldown then Open
    else HalfOpen
  }

  lemma {:induction false} StateIsHistory(cfg: Config, run: Run, now: int)
    requires Legal(cfg, run) && NotBefore(run, now)
    ensures After(cfg, run).core.failures == FailuresSince(run)
    ensures Effective(cfg, After(cfg, run).core, now) == HistoryState(cfg, run, now)
    ensures After(cfg, run).core.state == Closed <==> FailuresSince(run) < cfg.Trip()
    ensures After(cfg, run).core.state != Closed ==> After(cfg, run).core.openedAt == LastOpening(cfg, run)
    decreases |run|
  {
    if run == [] {
    } else {
      StateIsHistory(cfg, Butlast(run), Last(run).time);
      assert run[..|run| - 1 + 1] == run;
    }
  }

  /** A failure recorded while the breaker is half-open always reopens it, at its own time. */
  lemma HalfOpenFailureReopens(cfg: Config, run: Run, call: nat, time: int)
    requires Legal(cfg, run) && NotBefore(run, time)
    requires After(cfg, run).core.state != Closed
    ensures Recorded(cfg, After(cfg, run).core, time, false).state == Open
    ensures Recorded(cfg, After(cfg, run).core, time, false).openedAt == time
  {
    StateIsHistory(cfg, run, time);
  }

  // ----- Admission, exactly -----------------------------------------------------------------

  lemma {:induction false} LegalPrefix(cfg: Config, run: Run, i: nat)
    requires Legal(cfg, run) && i <= |run|
    ensures Legal(cfg, run[..i])
    decreases |run|
  {
    if i < |run| {
      LegalPrefix(cfg, Butlast(run), i);
      assert Butlast(run)[..i] == run[..i];
    } else {
      assert run[..i] == run;
    }
  }

  lemma {:induction false} Monotone(cfg: Config, run: Run, i: nat, j: nat)
    requires Legal(cfg, run) && i <= j < |run|
    ensures run[i].time <= run[j].time
    decreases |run|
  {
    if j < |run| - 1 {
      Monotone(cfg, Butlast(run), i, j);
    } else if i < j {
      Monotone(cfg, Butlast(run), i, j - 1);
    }
  }

  predicate Started(cfg: Config, run: Run, j: nat)
    requires j < |run| && run[j].event.Admit?
  {
    run[j].event.call in After(cfg, run[..j + 1]).inFlight
  }

  predicate NoRecovery(run: Run, i: nat, j: nat)
    requires i < j <= |run|
  {
    forall k :: i < k < j ==> !Recovery(run[k].event)
  }

  /** Event i is an opening that still holds at event j: no recovery since, and too recent. */
  predicate HeldOpenBy(cfg: Config, run: Run, j: nat, i: nat)
    requires i < j < |run|
  {
    Opening(cfg, run, i) && NoRecovery(run, i, j) && run[j].time - run[i].time < cfg.cooldown
  }

  /** An opening without a later recovery leaves the count tripped, and LastOpening no earlier. */
  lemma {:induction false} OpeningPersists(cfg: Config, run: Run, i: nat, j: nat)
    requires Legal(cfg, run) && i < j <= |run|
    requires Opening(cfg, run, i) && NoRecovery(run, i, j)
    ensures FailuresSince(run[..j]) >= cfg.Trip()
    ensures LastOpening(cfg, run[..j]) >= run[i].time
    decreases j
  {
    var p := run[..j];
    assert Butlast(p) == run[..j - 1];
    assert p[..|p| - 1 + 1] == p;
    if i == j - 1 {
    } else {
      OpeningPersists(cfg, run, i, j - 1);
      Monotone(cfg, run, i, j - 1);
      assert !Recovery(run[j - 1].event);
    }
  }

  /** A tripped count has an opening behind it, at LastOpening, with no recovery since. */
  lemma {:induction false} LastOpeningExists(cfg: Config, run: Run, j: nat) returns (i: nat)
    requires Legal(cfg, run) && j <= |run|
    requires FailuresSince(run[..j]) >= cfg.Trip()
    ensures i < j && Opening(cfg, run, i) && NoRecovery(run, i, j)
    ensures run[i].time == LastOpening(cfg, run[..j])
    decreases j
  {
    var p := run[..j];
    assert Butlast(p) == run[..j - 1];
    assert p[..|p| - 1 + 1] == p;
    if Opening(cfg, p, |p| - 1) {
      i := j - 1;
    } else {
      i := LastOpeningExists(cfg, run, j - 1);
    }
  }

  /**
   Admission safety and its converse, over every interleaving: a caller is turned away exactly when
   some opening less than a cooldown old has seen neither a recorded success nor a Reset since.
   */
  lemma RejectedIff(cfg: Config, run: Run, j: nat)
    requires Legal(cfg, run) && j < |run| && run[j].event.Admit?
    ensures !Started(cfg, run, j) <==> exists i: nat :: i < j && HeldOpenBy(cfg, run, j, i)
  {
    var p := run[..j + 1];
    assert Butlast(p) == run[..j];
    LegalPrefix(cfg, run, j + 1);
    StateIsHistory(cfg, run[..j], run[j].time);
    if !Started(cfg, run, j) {
      var i := LastOpeningExists(cfg, run, j);
      assert HeldOpenBy(cfg, run, j, i);
    }
    forall i: nat | i < j && HeldOpenBy(cfg, run, j, i)
      ensures !Started(cfg, run, j)
    {
      OpeningPersists(cfg, run, i, j);
    }
  }

  // ----- The lazy breaker is an eager one ---------------------------------------------------

  /** A breaker that stores no state: it is computed from the clock whenever it is needed. */
  datatype Eager = Eager(failures: int, openedAt: int, inFlight: set<nat>) {
    function State(cfg: Config, now: int): BreakerState {
      if failures < cfg.Trip() then Closed
      else if now - openedAt >= cfg.cooldown then HalfOpen
      else Open
    }
  }

  function EagerStep(cfg: Config, s: Eager, e: Timed): Eager {
    match e.event
    case Admit(c) =>
      if s.State(cfg, e.time) == Open then s else s.(inFlight := s.inFlight + {c})
    case Record(c, true) =>
      s.(failures := 0, inFlight := s.inFlight - {c})
    case Record(c, false) =>
      Eager(s.failures + 1, if s.failures + 1 >= cfg.Trip() then e.time else s.openedAt, s.inFlight - {c})
    case Poll => s
    case ResetBreaker => s.(failures := 0)
  }

  function EagerAfter(cfg: Config, run: Run): Eager {
    if run == [] then Eager(0, 0, {}) else EagerStep(cfg, EagerAfter(cfg, Butlast(run)), Last(run))
  }

  lemma {:induction false} LazyIsEager(cfg: Config, run: Run, now: int)
    requires Legal(cfg, run) && NotBefore(run, now)
    ensures After(cfg, run).inFlight == EagerAfter(cfg, run).inFlight
    ensures Effective(cfg, After(cfg, run).core, now) == EagerAfter(cfg, run).State(cfg, now)
    ensures EagerAfter(cfg, run).failures == FailuresSince(run)
    ensures EagerAfter(cfg, run).openedAt == LastOpening(cfg, run)
    decreases |run|
  {
    if run == [] {
    } else {
      LazyIsEager(cfg, Butlast(run), Last(run).time);
      assert run[..|run| - 1 + 1] == run;
    }
    StateIsHistory(cfg, run, now);
  }

  /** The run without its calls to State(). */
  function Strip(run: Run): Run {
    if run == [] then []
    else if Last(run).event.Poll? then Strip(Butlast(run))
    else Strip(Butlast(run)) + [Last(run)]
  }

  /** For each Admit in order, whether the function was started. */
  function Decisions(cfg: Config, run: Run): seq<bool> {
    if run == [] then []
    else Decisions(cfg, Butlast(run)) +
         if Last(run).event.Admit? then [Started(cfg, run, |run| - 1)] else []
  }

  function EagerDecisions(cfg: Config, run: Run): seq<bool> {
    if run == [] then []
    else EagerDecisions(cfg, Butlast(run)) +
         if Last(run).event.Admit? then [Last(run).event.call in EagerAfter(cfg, run).inFlight] else []
  }

  lemma {:induction false} SameDecisions(cfg: Config, run: Run)
    requires Legal(cfg, run)
    ensures Decisions(cfg, run) == EagerDecisions(cfg, run)
    decreases |run|
  {
    if run == [] {
    } else {
      SameDecisions(cfg, Butlast(run));
      LazyIsEager(cfg, run, Last(run).time);
      assert run[..|run| - 1 + 1] == run;
    }
  }

  lemma {:induction false} EagerIgnoresPolls(cfg: Config, run: Run)
    ensures EagerAfter(cfg, run) == EagerAfter(cfg, Strip(run))
    ensures EagerDecisions(cfg, run) == EagerDecisions(cfg, Strip(run))
    decreases |run|
  {
    if run == [] {
    } else {
      EagerIgnoresPolls(cfg, Butlast(run));
      if !Last(run).event.Poll? {
        assert Butlast(Strip(run)) == Strip(Butlast(run));
        assert Last(Strip(run)) == Last(run);
      }
    }
  }

  /** The clock never goes back. */
  predicate Ordered(run: Run) {
    run != [] ==> Ordered(Butlast(run)) && NotBefore(Butlast(run), Last(run).time)
  }

  /** Deleting every State() call from a legal run leaves a legal run. */
  lemma {:induction false} StripIsLegal(cfg: Config, run: Run)
    requires Legal(cfg, run)
    ensures Legal(cfg, Strip(run))
    ensures run != [] ==> NotBefore(Strip(run), Last(run).time)
    decreases |run|
  {
    if run == [] {
    } else {
      var before := Butlast(run);
      StripIsLegal(cfg, before);
      if !Last(run).event.Poll? {
        assert Butlast(Strip(run)) == Strip(before);
        EagerIgnoresPolls(cfg, before);
        if before != [] {
          LazyIsEager(cfg, before, Last(run).time);
          LazyIsEager(cfg, Strip(before), Last(run).time);
        }
      }
    }
  }

  lemma {:induction false} LegalIsOrdered(cfg: Config, run: Run)
    requires Legal(cfg, run)
    ensures Ordered(run)
    decreases |run|
  {
    if run == [] {
    } else {
      LegalIsOrdered(cfg, Butlast(run));
    }
  }

  /** State() calls may be inserted anywhere in a legal run, at any time that keeps the clock in order. */
  lemma {:induction false} InsertIsLegal(cfg: Config, run: Run)
    requires Ordered(run) && Legal(cfg, Strip(run))
    ensures Legal(cfg, run)
    decreases |run|
  {
    if run == [] {
    } else {
      var before := Butlast(run);
      if Last(run).event.Poll? {
        InsertIsLegal(cfg, before);
      } else {
        assert Butlast(Strip(run)) == Strip(before) && Last(Strip(run)) == Last(run);
        InsertIsLegal(cfg, before);
        EagerIgnoresPolls(cfg, before);
        LazyIsEager(cfg, before, Last(run).time);
        LazyIsEager(cfg, Strip(before), Last(run).time);
      }
    }
  }

  /**
   Inserting and deleting State() calls anywhere in a run gives a run that is possible too, and takes
   the same admission decisions.
   */
  lemma PollsAreInvisible(cfg: Config, run: Run, other: Run)
    requires Legal(cfg, run) && Ordered(other) && Strip(run) == Strip(other)
    ensures Legal(cfg, other)
    ensures Decisions(cfg, run) == Decisions(cfg, other)
    ensures After(cfg, run).inFlight == After(cfg, other).inFlight
    ensures forall now :: NotBefore(run, now) && NotBefore(other, now) ==>
              Effective(cfg, After(cfg, run).core, now) == Effective(cfg, After(cfg, other).core, now)
  {
    StripIsLegal(cfg, run);
    InsertIsLegal(cfg, other);
    SameDecisions(cfg, run);
    SameDecisions(cfg, other);
    EagerIgnoresPolls(cfg, run);
    EagerIgnoresPolls(cfg, other);
    var late := if run == [] then 0 else Last(run).time;
    LazyIsEager(cfg, run, late);
    LazyIsEager(cfg, other, if other == [] then 0 else Last(other).time);
    forall now | NotBefore(run, now) && NotBefore(other, now)
      ensures Effective(cfg, After(cfg, run).core, now) == Effective(cfg, After(cfg, other).core, now)
    {
      LazyIsEager(cfg, run, now);
      LazyIsEager(cfg, other, now);
    }
  }
}
