/**
 The two retry loops of retry/retry.go.

 What the loops observe of the world is an oracle: the outcome of each call, the context at each
 check and at each sleep, and the jitter draws. A loop reports the calls it made and the timers it
 started next to what it returns.
 */
module Retry {
  import opened Wrappers

  import opened Backoff

  /** Everything outside the loop, indexed by attempt. */
  datatype World<!E> = World(
    fails: nat -> Option<E>,     // the error of call i, None when it succeeds
    done: nat -> Option<E>,      // ctx.Err() at the check before call i
    wakes: nat -> Option<E>,     // ctx.Err() when the sleep after call i is interrupted
    draw: nat -> real            // the i-th random number
  )

  datatype Exit = NoAttempts | Succeeded | Exhausted | CancelledAtCheck | CancelledAsleep

  datatype Trace<+E> = Trace(exit: Exit, calls: nat, timers: seq<int>, err: Option<E>)

  /** The i-th timer of a loop that gets that far. */
  function TimerAt<E>(w: World<E>, b: Backoff, i: nat): int {
    SleepFor(b, DelayAt(b, i), w.draw(i))
  }

  /** Calls 0..n-1 were made and failed, with every sleep between them slept to the end. */
  ghost predicate Reached<E>(w: World<E>, n: nat) {
    && (forall i: nat :: i < n ==> w.done(i) == None && w.fails(i).Some?)
    && (forall i: nat :: i + 1 < n ==> w.wakes(i) == None)
  }

  /**
   What both loops promise, without saying how: where the loop stopped, why, after how many calls
   and timers, and with which error.
   */
  ghost predicate IsRun<E>(w: World<E>, attempts: int, b: Backoff, t: Trace<E>) {
    && (forall i :: 0 <= i < |t.timers| ==> t.timers[i] == TimerAt(w, b, i))
    && match t.exit
       case NoAttempts =>
         attempts <= 0 && t.calls == 0 && |t.timers| == 0 && t.err == None
       case Succeeded =>
         && 0 < t.calls <= attempts && |t.timers| == t.calls - 1 && t.err == None
         && Reached(w, t.calls - 1) && (t.calls > 1 ==> w.wakes(t.calls - 2) == None)
         && w.done(t.calls - 1) == None && w.fails(t.calls - 1) == None
       case Exhausted =>
         && 0 < t.calls == attempts && |t.timers| == t.calls - 1
         && Reached(w, t.calls) && t.err == w.fails(t.calls - 1)
       case CancelledAtCheck =>
         && t.calls < attempts && |t.timers| == t.calls && t.err.Some?
         && Reached(w, t.calls) && (t.calls > 0 ==> w.wakes(t.calls - 1) == None)
         && t.err == w.done(t.calls)
       case CancelledAsleep =>
         && 0 < t.calls < attempts && |t.timers| == t.calls && t.err.Some?
         && Reached(w, t.calls) && t.err == w.wakes(t.calls - 1)
  }

  method Do<E>(attempts: int, b: Backoff, w: World<E>) returns (t: Trace<E>)
    ensures IsRun(w, attempts, b, t)
  {
    var lastErr: Option<E> := None;
    var delay := b.initial;
    var calls, timers := 0, [];
    var i: nat := 0;
    while i < attempts
      invariant i > 0 ==> i < attempts
      invariant calls == |timers| == i
      invariant delay == DelayAt(b, i)
      invariant forall k :: 0 <= k < i ==> timers[k] == TimerAt(w, b, k)
      invariant Reached(w, i) && (i > 0 ==> w.wakes(i - 1) == None)
      invariant i == 0 ==> lastErr == None
    {
      if w.done(i).Some? {
        return Trace(CancelledAtCheck, calls, timers, w.done(i));
      }

      lastErr, calls := w.fails(i), calls + 1;
      if lastErr == None {
        return Trace(Succeeded, calls, timers, None);
      }

      if i == attempts - 1 {
        break;
      }

      var sleepDuration := delay;
      if b.jitter {
        sleepDuration := Jittered(delay, w.draw(i));
      }
      timers := timers + [sleepDuration];
      if w.wakes(i).Some? {
        return Trace(CancelledAsleep, calls, timers, w.wakes(i));
      }

      DelayStep(b, i);
      delay := NextDelay(b, delay);
      i := i + 1;
    }
    t := Trace(if attempts <= 0 then NoAttempts else Exhausted, calls, timers, lastErr);
  }

  /** `values(i)` is what call i returns next to its error; `zero` is T's zero value. */
  method DoWithResult<T, E>(attempts: int, b: Backoff, w: World<E>, values: nat -> T, zero: T)
    returns (t: Trace<E>, r: T)
    ensures IsRun(w, attempts, b, t)
    ensures r == if t.exit == Succeeded then values(t.calls - 1) else zero
  {
    var lastErr: Option<E> := None;
    var result := zero;
    var delay := b.initial;
    var calls, timers := 0, [];
    var i: nat := 0;
    while i < attempts
      invariant i > 0 ==> i < attempts
      invariant calls == |timers| == i
      invariant delay == DelayAt(b, i)
      invariant forall k :: 0 <= k < i ==> timers[k] == TimerAt(w, b, k)
      invariant Reached(w, i) && (i > 0 ==> w.wakes(i - 1) == None)
      invariant i == 0 ==> lastErr == None
    {
      if w.done(i).Some? {
        return Trace(CancelledAtCheck, calls, timers, w.done(i)), zero;
      }

      result, lastErr, calls := values(i), w.fails(i), calls + 1;
      if lastErr == None {
        return Trace(Succeeded, calls, timers, None), result;
      }

      if i == attempts - 1 {
        break;
      }

      var sleepDuration := delay;
      if b.jitter {
        sleepDuration := Jittered(delay, w.draw(i));
      }
      timers := timers + [sleepDuration];
      if w.wakes(i).Some? {
        return Trace(CancelledAsleep, calls, timers, w.wakes(i)), zero;
      }

      DelayStep(b, i);
      delay := NextDelay(b, delay);
      i := i + 1;
    }
    return Trace(if attempts <= 0 then NoAttempts else Exhausted, calls, timers, lastErr), zero;
  }

  // ----- What every run keeps ---------------------------------------------------------------

  /**
   The world admits one run only. So for the same errors, cancellations and draws Do and
   DoWithResult make the same calls, start the same timers and return the same error.
   */
  lemma RunIsUnique<E>(w: World<E>, attempts: int, b: Backoff, t: Trace<E>, u: Trace<E>)
    requires IsRun(w, attempts, b, t) && IsRun(w, attempts, b, u)
    ensures t == u
  {
    NoLaterStop(w, attempts, b, t, u);
    NoLaterStop(w, attempts, b, u, t);
    assert t.timers == u.timers;
  }

  /** The position of a stop: the check before call n is 3n, the call is 3n + 1, the sleep 3n + 2. */
  ghost function StopPoint<E>(t: Trace<E>): int {
    match t.exit
    case NoAttempts => 0
    case CancelledAtCheck => 3 * t.calls
    case CancelledAsleep => 3 * t.calls - 1
    case _ => 3 * t.calls - 2
  }

  lemma NoLaterStop<E>(w: World<E>, attempts: int, b: Backoff, t: Trace<E>, u: Trace<E>)
    requires IsRun(w, attempts, b, t) && IsRun(w, attempts, b, u)
    ensures StopPoint(t) <= StopPoint(u)
  {
    // The observation that stopped u, if any, would have stopped t at the same place.
    match u.exit
    case CancelledAtCheck =>
      assert t.calls <= u.calls;
    case Succeeded =>
      assert t.calls <= u.calls;
    case _ =>
  }

  /** The two loops side by side in one world. */
  method BothLoops<T, E>(attempts: int, b: Backoff, w: World<E>, values: nat -> T, zero: T)
    returns (plain: Trace<E>, t: Trace<E>, r: T)
    ensures t == plain
    ensures t.err == None && attempts > 0 ==> t.calls > 0 && r == values(t.calls - 1)
    ensures t.err.Some? || attempts <= 0 ==> r == zero
  {
    plain := Do(attempts, b, w);
    t, r := DoWithResult(attempts, b, w, values, zero);
    RunIsUnique(w, attempts, b, plain, t);
  }

  /** Calls, timers and the returned error, over every outcome and every point of cancellation. */
  lemma Accounting<E>(w: World<E>, attempts: int, b: Backoff, t: Trace<E>)
    requires IsRun(w, attempts, b, t)
    ensures t.calls <= Max(attempts, 0)
    ensures |t.timers| ==
            if t.exit == CancelledAtCheck || t.exit == CancelledAsleep then t.calls else Max(t.calls - 1, 0)
    ensures attempts > 0 && t.err == None ==> t.calls > 0 && w.fails(t.calls - 1) == None
    ensures forall i: nat :: w.done(i).Some? ==> t.calls <= i
    ensures forall i: nat :: w.fails(i) == None ==> t.calls <= i + 1
  {
    forall i: nat | w.done(i).Some?
      ensures t.calls <= i
    {
    }
  }

  predicate TimersWithin<E>(t: Trace<E>, max: int) {
    forall i :: 0 <= i < |t.timers| ==> t.timers[i] <= max
  }

  /**
   Max bounds the timers of a run without jitter if and only if there is none or Initial is within
   Max: the first sleep is not capped.
   */
  lemma RunCappedIff<E>(w: World<E>, attempts: int, b: Backoff, t: Trace<E>)
    requires IsRun(w, attempts, b, t) && !b.jitter
    ensures TimersWithin(t, b.max) <==> |t.timers| == 0 || b.initial <= b.max
  {
    DelayStep(b, 0);
    forall i | 0 <= i < |t.timers|
      ensures t.timers[i] == DelayAt(b, i) && (i >= 1 ==> t.timers[i] <= b.max)
    {
      assert t.timers[i] == TimerAt(w, b, i);
      if i >= 1 {
        LaterDelaysCapped(b, i);
      }
    }
    assert |t.timers| > 0 ==> t.timers[0] == b.initial;
  }

  /** A world in which the first call fails and the sleep after it is interrupted. */
  function OneSleep<E>(error: E, draw: real): World<E> {
    World(_ => Some(error), _ => None, _ => Some(error), _ => draw)
  }

  /** The run of two or more attempts in that world: one call and one timer, for Initial. */
  lemma OneSleepRun<E>(error: E, draw: real, attempts: int, b: Backoff) returns (t: Trace<E>)
    requires attempts >= 2
    ensures IsRun(OneSleep(error, draw), attempts, b, t) && t.timers == [SleepFor(b, b.initial, draw)]
  {
    var w := OneSleep(error, draw);
    t := Trace(CancelledAsleep, 1, [SleepFor(b, b.initial, draw)], Some(error));
    DelayStep(b, 0);
    assert Reached(w, 1);
    assert t.timers[0] == TimerAt(w, b, 0);
  }

  lemma FewAttempts<E>(w: World<E>, attempts: int, b: Backoff, t: Trace<E>)
    requires IsRun(w, attempts, b, t) && attempts <= 1
    ensures |t.timers| == 0
  {
  }

  /**
   Without jitter Max bounds the timers of every run if and only if there is at most one attempt or
   Initial is within Max: the first sleep is not capped.
   */
  lemma TimersCappedIff<E(!new)>(attempts: int, b: Backoff, error: E)
    requires !b.jitter
    ensures (forall w: World<E>, t :: IsRun(w, attempts, b, t) ==> TimersWithin(t, b.max)) <==>
            attempts <= 1 || b.initial <= b.max
  {
    if attempts >= 2 {
      var t := OneSleepRun(error, 0.0, attempts, b);
      assert IsRun(OneSleep(error, 0.0), attempts, b, t) && t.timers[0] == b.initial;
    }
    forall w: World<E>, t | IsRun(w, attempts, b, t) && (attempts <= 1 || b.initial <= b.max)
      ensures TimersWithin(t, b.max)
    {
      if attempts <= 1 {
        FewAttempts(w, attempts, b, t);
      } else {
        RunCappedIff(w, attempts, b, t);
      }
    }
  }

  /** A jittered sleep after a delay within Max is within Max, if Max is no negative duration. */
  lemma JitterWithin(b: Backoff, delay: int, draw: real)
    requires b.jitter && delay <= b.max && 0 <= b.max && Draw(draw)
    ensures SleepFor(b, delay, draw) <= b.max
  {
    if delay >= 0 {
      SleepBounds(b, delay, draw);
    } else {
      var factor := 0.5 + draw * 0.5;
      NonNegProduct(-(delay as real), factor);
      assert delay as real * factor == -(-(delay as real) * factor);
    }
  }

  ghost predicate AllDraws<E>(w: World<E>) {
    forall i: nat :: Draw(w.draw(i))
  }

  /** With jitter every draw takes off a nanosecond, and the bound is met up to that. */
  lemma JitteredTimersCappedIff<E(!new)>(attempts: int, b: Backoff, error: E)
    requires b.jitter && b.initial >= 1
    ensures (forall w: World<E>, t :: IsRun(w, attempts, b, t) && AllDraws(w) ==> TimersWithin(t, b.max)) <==>
            attempts <= 1 || b.initial <= b.max + 1
  {
    if attempts >= 2 {
      var draw := LargestSleep(b, b.initial);
      var t := OneSleepRun(error, draw, attempts, b);
      assert AllDraws(OneSleep(error, draw));
      assert IsRun(OneSleep(error, draw), attempts, b, t) && t.timers[0] == b.initial - 1;
    }
    forall w: World<E>, t | IsRun(w, attempts, b, t) && AllDraws(w) && (attempts <= 1 || b.initial <= b.max + 1)
      ensures TimersWithin(t, b.max)
    {
      if attempts <= 1 {
        FewAttempts(w, attempts, b, t);
      } else {
        forall i | 0 <= i < |t.timers|
          ensures t.timers[i] <= b.max
        {
          assert t.timers[i] == TimerAt(w, b, i);
          JitteredTimer(b, i, w.draw(i));
        }
      }
    }
  }

  lemma JitteredTimer(b: Backoff, i: nat, draw: real)
    requires b.jitter && 1 <= b.initial <= b.max + 1 && Draw(draw)
    ensures SleepFor(b, DelayAt(b, i), draw) <= b.max
  {
    if i == 0 {
      DelayStep(b, 0);
      SleepBelow(b, b.initial, draw);
    } else {
      LaterDelaysCapped(b, i);
      JitterWithin(b, DelayAt(b, i), draw);
    }
  }

  /** The maximum delay exceeded: two failing attempts sleep two seconds between them, with a Max of one. */
  lemma FirstSleepExceedsMax<E>(error: E) returns (w: World<E>, b: Backoff, t: Trace<E>)
    ensures IsRun(w, 2, b, t) && t.timers == [2 * SECOND] && b.max == SECOND
  {
    w := World(_ => Some(error), _ => None, _ => None, _ => 0.0);
    b := Backoff(2 * SECOND, SECOND, 2.0, false);
    t := Trace(Exhausted, 2, [2 * SECOND], Some(error));
    DelayStep(b, 0);
    assert Reached(w, 2);
  }

  function Sum(xs: seq<int>): int {
    if xs == [] then 0 else Sum(xs[..|xs| - 1]) + xs[|xs| - 1]
  }

  /** The delays behind the first n timers, and their halves rounded down. */
  function Delays(b: Backoff, n: nat): (s: seq<int>)
    ensures |s| == n && forall i :: 0 <= i < n ==> s[i] == DelayAt(b, i)
  {
    seq(n, (i: nat) => DelayAt(b, i))
  }

  function Halves(xs: seq<int>): (s: seq<int>)
    ensures |s| == |xs| && forall i :: 0 <= i < |xs| ==> s[i] == xs[i] / 2
  {
    seq(|xs|, i requires 0 <= i < |xs| => xs[i] / 2)
  }

  lemma {:induction false} SumMonotone(xs: seq<int>, ys: seq<int>)
    requires |xs| == |ys| && forall i :: 0 <= i < |xs| ==> xs[i] <= ys[i]
    ensures Sum(xs) <= Sum(ys)
  {
    if xs == [] {
    } else {
      SumMonotone(xs[..|xs| - 1], ys[..|ys| - 1]);
    }
  }

  lemma {:induction false} SumAtMost(xs: seq<int>, cap: int)
    requires forall i :: 0 <= i < |xs| ==> xs[i] <= cap
    ensures Sum(xs) <= |xs| * cap
  {
    if xs == [] {
    } else {
      SumAtMost(xs[..|xs| - 1], cap);
      assert |xs| * cap == (|xs| - 1) * cap + cap;
    }
  }

  /** Total wait: whatever the draws, between half of the delays and all of them. */
  lemma TotalWait<E>(w: World<E>, attempts: int, b: Backoff, t: Trace<E>)
    requires b.initial >= 0 && b.max >= 0 && b.multiplier >= 0.0
    requires forall i: nat :: Draw(w.draw(i))
    requires IsRun(w, attempts, b, t)
    ensures var delays := Delays(b, |t.timers|);
            Sum(Halves(delays)) <= Sum(t.timers) <= Sum(delays)
    ensures Sum(t.timers) <= |t.timers| * Max(b.initial, b.max)
  {
    var delays := Delays(b, |t.timers|);
    forall i | 0 <= i < |t.timers|
      ensures delays[i] / 2 <= t.timers[i] <= delays[i] <= Max(b.initial, b.max)
    {
      assert t.timers[i] == TimerAt(w, b, i);
      DelaysNonNegative(b, i);
      SleepBounds(b, DelayAt(b, i), w.draw(i));
    }
    SumMonotone(Halves(delays), t.timers);
    SumMonotone(t.timers, delays);
    SumAtMost(t.timers, Max(b.initial, b.max));
  }
}
