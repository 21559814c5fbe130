/**
 The circuit breaker of retry/breaker.go.

 The class keeps the source's fields and its two critical sections. The value functions beside it
 say what each critical section does to those fields; the runs in BreakerRuns.dfy are built from
 them. Instants and durations are integers (nanoseconds on a monotone clock), and the function a
 caller passes to `Do` is represented by its outcome.
 */
module Breaker {

  datatype BreakerState = Closed | Open | HalfOpen

  datatype Config = Config(threshold: int, cooldown: int) {
    /** The number of consecutive failures that opens the breaker: a threshold below one acts as one. */
    function Trip(): (n: nat)
      ensures n >= 1 && n >= threshold
    {
      if threshold < 1 then 1 else threshold
    }
  }

  /** The fields that change, as a value. `openedAt` is only meaningful while the state is not Closed. */
  datatype Core = Core(state: BreakerState, failures: int, openedAt: int)

  const INITIAL := Core(Closed, 0, 0)

  /** The state a caller who holds the lock at `now` observes. */
  function Effective(cfg: Config, c: Core, now: int): BreakerState {
    if c.state == Open && now - c.openedAt >= cfg.cooldown then HalfOpen else c.state
  }

  function Polled(cfg: Config, c: Core, now: int): Core {
    c.(state := Effective(cfg, c, now))
  }

  function Recorded(cfg: Config, c: Core, now: int, ok: bool): Core {
    if ok then
      c.(failures := 0, state := Closed)
    else if c.failures + 1 >= cfg.threshold then
      Core(Open, c.failures + 1, now)
    else
      c.(failures := c.failures + 1)
  }

  function Cleared(c: Core): Core {
    c.(failures := 0, state := Closed)
  }

  datatype Outcome = CircuitOpen | Failed | Succeeded

  class CircuitBreaker {
    const threshold: int
    const cooldown: int
    var state: BreakerState
    var failures: int
    var openedAt: int

    constructor (threshold: int, cooldown: int)
      ensures this.Cfg() == Config(threshold, cooldown)
      ensures View() == INITIAL
    {
      this.threshold := threshold;
      this.cooldown := cooldown;
      state, failures, openedAt := Closed, 0, 0;
    }

    function Cfg(): Config {
      Config(threshold, cooldown)
    }

    function View(): Core
      reads this
    {
      Core(state, failures, openedAt)
    }

    method CurrentState(now: int) returns (s: BreakerState)
      modifies this`state
      ensures View() == Polled(Cfg(), old(View()), now)
      ensures s == Effective(Cfg(), old(View()), now)
    {
      if state == Open && now - openedAt >= cooldown {
        state := HalfOpen;
      }
      return state;
    }

    /** State(): looks at the clock, and may move an open breaker to half-open. */
    method State(now: int) returns (s: BreakerState)
      modifies this`state
      ensures View() == Polled(Cfg(), old(View()), now)
      ensures s == Effective(Cfg(), old(View()), now)
    {
      s := CurrentState(now);
    }

    /** The first critical section of Do: may the caller start its function at `now`? */
    method Admit(now: int) returns (started: bool)
      modifies this`state
      ensures View() == Polled(Cfg(), old(View()), now)
      ensures started <==> Effective(Cfg(), old(View()), now) != Open
    {
      var s := CurrentState(now);
      started := s != Open;
    }

    /** The second critical section of Do. */
    method Record(now: int, ok: bool)
      modifies this
      ensures View() == Recorded(Cfg(), old(View()), now, ok)
    {
      if !ok {
        failures := failures + 1;
        if failures >= threshold {
          state := Open;
          openedAt := now;
        }
        return;
      }
      failures := 0;
      state := Closed;
    }

    /** Do, when no other goroutine enters the breaker while the function runs. */
    method Do(startAt: int, endAt: int, fails: bool) returns (r: Outcome)
      modifies this
      ensures r.CircuitOpen? <==> Effective(Cfg(), old(View()), startAt) == Open
      ensures r.CircuitOpen? ==> View() == old(View())
      ensures !r.CircuitOpen? ==>
                r == (if fails then Failed else Succeeded) &&
                View() == Recorded(Cfg(), Polled(Cfg(), old(View()), startAt), endAt, !fails)
    {
      var started := Admit(startAt);
      if !started {
        return CircuitOpen;
      }
      Record(endAt, !fails);
      r := if fails then Failed else Succeeded;
    }

    method Reset()
      modifies this
      ensures View() == Cleared(old(View()))
    {
      failures := 0;
      state := Closed;
    }
  }
}
