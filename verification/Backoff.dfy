/**
 The delay sequence of retry/retry.go: truncating multiplication, a cap, and jitter.

 Durations are integers (nanoseconds). The multiplier and the jitter draw are exact reals, so the
 rounding of a 64-bit float and the overflow of a 64-bit duration are not part of this model.
 */
module Backoff {

  datatype Backoff = Backoff(initial: int, max: int, multiplier: real, jitter: bool)

  const MILLISECOND := 1_000_000
  const SECOND := 1_000_000_000

  const FAST := Backoff(100 * MILLISECOND, SECOND, 2.0, true)
  const MODERATE := Backoff(500 * MILLISECOND, 30 * SECOND, 2.0, true)
  const SLOW := Backoff(SECOND, 120 * SECOND, 1.5, true)

  /** Conversion of a float to a Duration: rounds towards zero. */
  function Trunc(r: real): int {
    if r >= 0.0 then r.Floor else -(-r).Floor
  }

  function Min(a: int, b: int): int {
    if a <= b then a else b
  }

  function Max(a: int, b: int): int {
    if a <= b then b else a
  }

  function NextDelay(b: Backoff, delay: int): int {
    Min(Trunc(delay as real * b.multiplier), b.max)
  }

  function Iterate<T>(f: T -> T, x: T, k: nat): T {
    if k == 0 then x else f(Iterate(f, x, k - 1))
  }

  function Next(b: Backoff): int -> int {
    (delay: int) => NextDelay(b, delay)
  }

  /** The delay held by the loop before its k-th sleep. The first one is not capped. */
  function DelayAt(b: Backoff, k: nat): int {
    Iterate(Next(b), b.initial, k)
  }

  lemma DelayStep(b: Backoff, k: nat)
    ensures DelayAt(b, 0) == b.initial
    ensures DelayAt(b, k + 1) == NextDelay(b, DelayAt(b, k))
  {
  }

  /** Between half of the delay and all of it. */
  function Jittered(delay: int, draw: real): int {
    Trunc(delay as real * (0.5 + draw * 0.5))
  }

  /** The duration requested of the timer, given the draw of a random number in [0, 1). */
  function SleepFor(b: Backoff, delay: int, draw: real): int {
    if b.jitter then Jittered(delay, draw) else delay
  }

  predicate Draw(u: real) {
    0.0 <= u < 1.0
  }

  // ----- Closed forms -----------------------------------------------------------------------

  function Pow(m: real, k: nat): real {
    if k == 0 then 1.0 else Pow(m, k - 1) * m
  }

  function IntPow(m: int, k: nat): int {
    if k == 0 then 1 else IntPow(m, k - 1) * m
  }

  /** 1 + m + ... + m^(k-1) */
  function Geometric(m: real, k: nat): real {
    if k == 0 then 0.0 else Geometric(m, k - 1) * m + 1.0
  }

  lemma {:induction false} GeometricTelescopes(m: real, k: nat)
    ensures Geometric(m, k) * (m - 1.0) == Pow(m, k) - 1.0
  {
    if k == 0 {
    } else {
      GeometricTelescopes(m, k - 1);
      var g, p := Geometric(m, k - 1), Pow(m, k - 1);
      calc {
        (g * m + 1.0) * (m - 1.0);
        (g * (m - 1.0)) * m + (m - 1.0);
        (p - 1.0) * m + (m - 1.0);
        p * m - 1.0;
      }
    }
  }

  lemma Quotient(a: real, b: real, c: real)
    requires c > 0.0 && a * c == b
    ensures a == b / c
  {
  }

  lemma NonNegProduct(a: real, b: real)
    requires a >= 0.0 && b >= 0.0
    ensures a * b >= 0.0
  {
  }

  lemma IntMulLe(a: int, b: int, m: int)
    requires a <= b && 0 <= m
    ensures a * m <= b * m
  {
  }

  /** p is the exact product that NextDelay truncates. */
  lemma TruncProduct(d: int, m: real, p: real)
    requires d >= 0 && m >= 0.0 && p == d as real * m
    ensures 0 <= Trunc(p)
    ensures Trunc(p) as real <= p < Trunc(p) as real + 1.0
    ensures m >= 1.0 ==> d <= Trunc(p)
  {
    NonNegProduct(d as real, m);
    if m >= 1.0 {
      NonNegProduct(d as real, m - 1.0);
      assert d as real <= p;
    }
  }

  lemma WholeProduct(d: int, m: int)
    ensures Trunc(d as real * m as real) == d * m
  {
    assert d as real * m as real == (d * m) as real;
  }

  predicate Within(b: Backoff, d: int) {
    0 <= d <= Max(b.initial, b.max)
  }

  lemma NextWithin(b: Backoff, d: int)
    requires b.max >= 0 && b.multiplier >= 0.0 && Within(b, d)
    ensures Within(b, NextDelay(b, d))
  {
    TruncProduct(d, b.multiplier, d as real * b.multiplier);
  }

  lemma {:induction false} DelaysNonNegative(b: Backoff, k: nat)
    requires b.initial >= 0 && b.max >= 0 && b.multiplier >= 0.0
    ensures Within(b, DelayAt(b, k))
  {
    if k == 0 {
    } else {
      DelayStep(b, k - 1);
      DelaysNonNegative(b, k - 1);
      NextWithin(b, DelayAt(b, k - 1));
    }
  }

  lemma CapOfProduct(p: int, max: int, m: int)
    requires max >= 0 && m >= 1
    ensures Min(Min(p, max) * m, max) == Min(p * m, max)
  {
    IntMulLe(1, m, max);
    if p > max {
      IntMulLe(max, p, m);
    }
  }

  lemma NextWhole(b: Backoff, p: int, m: int)
    requires b.multiplier == m as real
    ensures NextDelay(b, p) == Min(p * m, b.max)
  {
    WholeProduct(p, m);
  }

  /** For a whole multiplier m >= 1 the k-th delay, k >= 1, is min(Initial * m^k, Max). */
  lemma {:induction false} WholeMultiplier(b: Backoff, m: int, k: nat)
    requires b.max >= 0
    requires m >= 1 && b.multiplier == m as real
    requires k >= 1
    ensures DelayAt(b, k) == Min(b.initial * IntPow(m, k), b.max)
  {
    IntPowStep(b.initial, m, k - 1);
    DelayStep(b, k - 1);
    NextWhole(b, DelayAt(b, k - 1), m);
    if k > 1 {
      WholeMultiplier(b, m, k - 1);
      CapOfProduct(b.initial * IntPow(m, k - 1), b.max, m);
    }
  }

  lemma IntPowStep(x: int, m: int, k: nat)
    ensures x * IntPow(m, k + 1) == x * IntPow(m, k) * m
    ensures x * IntPow(m, 0) == x
  {
  }

  function Times(m: real): real -> real {
    (x: real) => x * m
  }

  function TimesLess(m: real): real -> real {
    (x: real) => x * m - 1.0
  }

  /** x * m^k */
  function Scaled(x: real, m: real, k: nat): real {
    x * Pow(m, k)
  }

  lemma {:induction false} TimesIsPower(m: real, x: real, k: nat)
    ensures Iterate(Times(m), x, k) == Scaled(x, m, k)
  {
    if k == 0 {
    } else {
      TimesIsPower(m, x, k - 1);
    }
  }

  /** When every step loses a whole nanosecond, the loss is 1 + m + ... + m^(k-1). */
  lemma {:induction false} TimesLessIsGeometric(m: real, x: real, k: nat)
    ensures Iterate(TimesLess(m), x, k) == Scaled(x, m, k) - Geometric(m, k)
  {
    if k == 0 {
    } else {
      TimesLessIsGeometric(m, x, k - 1);
    }
  }

  lemma NextAtMost(b: Backoff, d: int, exact: real)
    requires 0 <= d && d as real <= exact && b.multiplier >= 1.0 && b.max >= 0
    ensures 0 <= NextDelay(b, d)
    ensures NextDelay(b, d) as real <= exact * b.multiplier
  {
    TruncProduct(d, b.multiplier, d as real * b.multiplier);
    NonNegProduct(exact - d as real, b.multiplier);
  }

  lemma NextAtLeast(b: Backoff, d: int, lower: real)
    requires 0 <= d && b.multiplier >= 1.0 && b.max >= 0
    requires d >= b.max || lower <= d as real
    ensures 0 <= NextDelay(b, d)
    ensures NextDelay(b, d) >= b.max || lower * b.multiplier - 1.0 <= NextDelay(b, d) as real
  {
    TruncProduct(d, b.multiplier, d as real * b.multiplier);
    if d < b.max {
      NonNegProduct(d as real - lower, b.multiplier);
    }
  }

  predicate AtMost(d: int, x: real) {
    0 <= d && d as real <= x
  }

  predicate AtLeast(max: int, d: int, x: real) {
    0 <= d && (d >= max || x <= d as real)
  }

  lemma StepsKeepBounds(b: Backoff, d: int, x: real)
    requires b.max >= 0 && b.multiplier >= 1.0
    ensures AtMost(d, x) ==> AtMost(Next(b)(d), Times(b.multiplier)(x))
    ensures AtLeast(b.max, d, x) ==> AtLeast(b.max, Next(b)(d), TimesLess(b.multiplier)(x))
  {
    if AtMost(d, x) {
      NextAtMost(b, d, x);
    }
    if AtLeast(b.max, d, x) {
      NextAtLeast(b, d, x);
    }
  }

  lemma {:induction false} BoundsKept(next: int -> int, scale: real -> real, less: real -> real, max: int, d: int,
                                      x: real, k: nat)
    requires AtMost(d, x) && AtLeast(max, d, x)
    requires forall t, u :: AtMost(t, u) ==> AtMost(next(t), scale(u))
    requires forall t, u :: AtLeast(max, t, u) ==> AtLeast(max, next(t), less(u))
    ensures AtMost(Iterate(next, d, k), Iterate(scale, x, k))
    ensures AtLeast(max, Iterate(next, d, k), Iterate(less, x, k))
  {
    if k == 0 {
    } else {
      BoundsKept(next, scale, less, max, d, x, k - 1);
    }
  }

  lemma DelayBounds(b: Backoff, k: nat)
    requires b.initial >= 0 && b.max >= 0 && b.multiplier >= 1.0
    ensures AtMost(DelayAt(b, k), Iterate(Times(b.multiplier), b.initial as real, k))
    ensures AtLeast(b.max, DelayAt(b, k), Iterate(TimesLess(b.multiplier), b.initial as real, k))
  {
    forall t: int, u: real
      ensures AtMost(t, u) ==> AtMost(Next(b)(t), Times(b.multiplier)(u))
      ensures AtLeast(b.max, t, u) ==> AtLeast(b.max, Next(b)(t), TimesLess(b.multiplier)(u))
    {
      StepsKeepBounds(b, t, u);
    }
    BoundsKept(Next(b), Times(b.multiplier), TimesLess(b.multiplier), b.max, b.initial, b.initial as real, k);
  }

  /** The closed form of the geometric sum. */
  lemma GeometricClosed(m: real, k: nat)
    requires m > 1.0
    ensures Geometric(m, k) == (Pow(m, k) - 1.0) / (m - 1.0)
  {
    GeometricTelescopes(m, k);
    Quotient(Geometric(m, k), Pow(m, k) - 1.0, m - 1.0);
  }

  /**
   For any multiplier m >= 1 no delay is above Initial * m^k, and truncation costs at most
   1 + m + ... + m^(k-1), which is (m^k - 1) / (m - 1), by the k-th delay, unless that delay has
   reached the cap.
   */
  lemma FractionalMultiplier(b: Backoff, k: nat)
    requires b.initial >= 0 && b.max >= 0 && b.multiplier >= 1.0
    ensures DelayAt(b, k) as real <= Scaled(b.initial as real, b.multiplier, k)
    ensures DelayAt(b, k) >= b.max
            || DelayAt(b, k) as real >= Scaled(b.initial as real, b.multiplier, k) - Geometric(b.multiplier, k)
    ensures b.multiplier > 1.0 ==>
              Geometric(b.multiplier, k) == (Pow(b.multiplier, k) - 1.0) / (b.multiplier - 1.0)
  {
    if b.multiplier > 1.0 {
      GeometricClosed(b.multiplier, k);
    }
    DelayBounds(b, k);
    TimesIsPower(b.multiplier, b.initial as real, k);
    TimesLessIsGeometric(b.multiplier, b.initial as real, k);
  }

  lemma NextWithinCap(b: Backoff, d: int)
    requires 0 <= d <= b.max && b.multiplier >= 1.0
    ensures d <= NextDelay(b, d) <= b.max
  {
    TruncProduct(d, b.multiplier, d as real * b.multiplier);
  }

  /** Once the delay is within Max, which it is from the start when Initial is, it never shrinks and Max is final. */
  lemma {:induction false} DelaysMonotone(b: Backoff, i: nat, j: nat)
    requires 0 <= b.initial && 0 <= b.max && b.multiplier >= 1.0
    requires i <= j && DelayAt(b, i) <= b.max
    ensures DelayAt(b, i) <= DelayAt(b, j) <= b.max
    ensures DelayAt(b, i) == b.max ==> DelayAt(b, j) == b.max
    decreases j - i
  {
    if i < j {
      DelaysNonNegative(b, i);
      DelayStep(b, i);
      NextWithinCap(b, DelayAt(b, i));
      DelaysMonotone(b, i + 1, j);
    }
  }

  /** Every delay after the first is within Max, whatever the configuration. */
  lemma LaterDelaysCapped(b: Backoff, k: nat)
    requires k >= 1
    ensures DelayAt(b, k) <= b.max
  {
    DelayStep(b, k - 1);
  }

  /** Max bounds the delays if and only if the first one, Initial, is within it already. */
  lemma DelaysCappedIff(b: Backoff)
    ensures (forall k: nat :: DelayAt(b, k) <= b.max) <==> b.initial <= b.max
  {
    DelayStep(b, 0);
    forall k: nat | b.initial <= b.max
      ensures DelayAt(b, k) <= b.max
    {
      if k >= 1 {
        LaterDelaysCapped(b, k);
      }
    }
  }

  /**
   Truncation can stop the growth for good: below the cap the next delay is larger exactly when one
   multiplication gains at least one nanosecond.
   */
  lemma GrowsIff(b: Backoff, d: int)
    requires 0 <= d < b.max && b.multiplier >= 1.0
    ensures NextDelay(b, d) > d <==> d as real * (b.multiplier - 1.0) >= 1.0
  {
    var p := d as real * b.multiplier;
    TruncProduct(d, b.multiplier, p);
    assert p == d as real + d as real * (b.multiplier - 1.0);
  }

  /** A jittered sleep is delay * (1 + draw) / 2, cut to whole nanoseconds; without jitter it is the delay. */
  lemma SleepIs(b: Backoff, delay: int, draw: real)
    requires delay >= 0 && Draw(draw)
    ensures !b.jitter ==> SleepFor(b, delay, draw) == delay
    ensures b.jitter ==>
              var exact := delay as real * (1.0 + draw) / 2.0;
              SleepFor(b, delay, draw) as real <= exact < SleepFor(b, delay, draw) as real + 1.0
  {
    var p := delay as real * (0.5 + draw * 0.5);
    assert p == delay as real * (1.0 + draw) / 2.0;
    NonNegProduct(delay as real, 0.5 + draw * 0.5);
  }

  /** The schedules of the presets, in nanoseconds: from 0.1, 0.5 and 1 second, up to 1, 30 and 120. */
  lemma PresetSchedules(k: nat)
    ensures FAST.jitter && MODERATE.jitter && SLOW.jitter
    ensures DelayAt(FAST, k) == Min(100_000_000 * IntPow(2, k), 1_000_000_000)
    ensures DelayAt(MODERATE, k) == Min(500_000_000 * IntPow(2, k), 30_000_000_000)
    ensures DelayAt(SLOW, 0) == 1_000_000_000 && SLOW.max == 120_000_000_000 && SLOW.multiplier == 1.5
  {
    DelayStep(FAST, 0);
    DelayStep(MODERATE, 0);
    DelayStep(SLOW, 0);
    if k >= 1 {
      WholeMultiplier(FAST, 2, k);
      WholeMultiplier(MODERATE, 2, k);
    }
  }

  /** A draw close to one asks for all of the delay but its last nanosecond. */
  lemma LargestSleep(b: Backoff, delay: int) returns (draw: real)
    requires b.jitter && delay >= 1
    ensures Draw(draw) && SleepFor(b, delay, draw) == delay - 1
  {
    var d := delay as real;
    draw := 1.0 - 1.0 / d;
    assert d * (1.0 / d) == 1.0;
    assert d * (0.5 + draw * 0.5) == d - 0.5;
  }

  lemma SleepBelow(b: Backoff, delay: int, draw: real)
    requires b.jitter && delay >= 1 && Draw(draw)
    ensures SleepFor(b, delay, draw) <= delay - 1
  {
    var factor := 0.5 + draw * 0.5;
    var p := delay as real * factor;
    assert p < delay as real by {
      assert (delay as real) * (1.0 - factor) > 0.0;
    }
  }

  /**
   With jitter the same holds of the sleeps, up to the one nanosecond that a draw below one always
   takes off: every draw respects Max before the first sleep if and only if Initial is at most Max
   plus one.
   */
  lemma JitteredCappedIff(b: Backoff)
    requires b.jitter && b.initial >= 1
    ensures (forall draw :: Draw(draw) ==> SleepFor(b, b.initial, draw) <= b.max) <==> b.initial <= b.max + 1
  {
    var largest := LargestSleep(b, b.initial);
    forall draw | Draw(draw)
      ensures SleepFor(b, b.initial, draw) <= b.initial - 1
    {
      SleepBelow(b, b.initial, draw);
    }
  }

  const TWO_TO_THE_53 := 0x20_0000_0000_0000

  /**
   With the presets the delays never shrink and never pass Max, and every product the loop forms is
   far below 2^53, where a 64-bit float and a 64-bit duration still hold it exactly.
   */
  lemma PresetDelays(b: Backoff, k: nat)
    requires b in {FAST, MODERATE, SLOW}
    ensures b.initial <= DelayAt(b, k) <= DelayAt(b, k + 1) <= b.max
    ensures 2.0 * (DelayAt(b, k) as real * b.multiplier) < TWO_TO_THE_53 as real
  {
    DelayStep(b, 0);
    DelaysMonotone(b, 0, k);
    DelaysMonotone(b, k, k + 1);
    NonNegProduct((b.max - DelayAt(b, k)) as real, 2.0 - b.multiplier);
  }

  lemma JitterBounds(delay: int, factor: real, p: real)
    requires delay >= 0 && 0.5 <= factor <= 1.0 && p == delay as real * factor
    ensures delay / 2 <= Trunc(p) <= delay
  {
    var d := delay as real;
    assert d * 0.5 <= p <= d by {
      NonNegProduct(d, 1.0 - factor);
      NonNegProduct(d, factor - 0.5);
    }
    var h := delay / 2;
    assert (h + h) as real == h as real + h as real;
  }

  /** A jittered sleep lies between half the delay, rounded down, and the delay. */
  lemma SleepBounds(b: Backoff, delay: int, draw: real)
    requires delay >= 0 && Draw(draw)
    ensures delay / 2 <= SleepFor(b, delay, draw) <= delay
  {
    var factor := 0.5 + draw * 0.5;
    JitterBounds(delay, factor, delay as real * factor);
  }
}
