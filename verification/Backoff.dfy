/**
 Capped exponential delays (internal/state/reconnect.go): the delay that the reconnection loop keeps and
 grows, and the closed form beside it. Durations are in nanoseconds, and float64 is taken as the reals.
 */
module Backoff {
  datatype Config = Config(initialDelay: int, maxDelay: int, maxAttempts: int, multiple: real)

  const SECOND := 1_000_000_000

  function Min(a: int, b: int): int
  {
    if a <= b then a else b
  }

  /** a * m^k */
  function Scaled(a: nat, m: nat, k: nat): nat
  {
    if k == 0 then a else Scaled(a, m, k - 1) * m
  }

  function RealPow(m: real, k: int): (r: real)
    requires k >= 0 || m != 0.0
    ensures m != 0.0 ==> r != 0.0
    decreases if k < 0 then 1 - k else k
  {
    if k < 0 then 1.0 / RealPow(m, -k) else if k == 0 then 1.0 else RealPow(m, k - 1) * m
  }

  /** The conversion of a float to an integer drops the fraction. */
  function Trunc(x: real): int
  {
    if x >= 0.0 then x.Floor else -((-x).Floor)
  }

  /** The delay after this one. */
  function Grow(c: Config, delay: int): int
  {
    Min(c.maxDelay, Trunc(delay as real * c.multiple))
  }

  /** The delay before the k-th attempt, as the loop computes it. */
  function Wait(c: Config, k: nat): int
    requires k >= 1
  {
    if k == 1 then c.initialDelay else Grow(c, Wait(c, k - 1))
  }

  function Uncapped(c: Config, attempt: int): real
    requires attempt >= 1 || c.multiple != 0.0
  {
    c.initialDelay as real * RealPow(c.multiple, attempt - 1)
  }

  function CalculateDelay(c: Config, attempt: int): int
    requires attempt >= 1 || c.multiple != 0.0
  {
    var delay := Uncapped(c, attempt);
    Trunc(if delay > c.maxDelay as real then c.maxDelay as real else delay)
  }

  lemma {:induction false} IntegerPower(a: nat, m: nat, k: nat)
    ensures a as real * RealPow(m as real, k) == Scaled(a, m, k) as real
  {
    if k > 0 {
      IntegerPower(a, m, k - 1);
      Associate(a as real, RealPow(m as real, k - 1), m as real);
    }
  }

  lemma Associate(a: real, b: real, m: real)
    ensures a * (b * m) == a * b * m
  {
  }

  /** Under an integer multiplier the closed form is a plain capped power. */
  lemma IntegerDelay(c: Config, m: nat, k: nat)
    requires c.multiple == m as real && c.initialDelay >= 0 && c.maxDelay >= 0 && k >= 1
    ensures CalculateDelay(c, k) == Min(c.maxDelay, Scaled(c.initialDelay, m, k - 1))
  {
    IntegerPower(c.initialDelay, m, k - 1);
  }

  /** Capping every time is capping once. */
  lemma CapTwice(cap: nat, x: nat, m: nat)
    requires m >= 1
    ensures Min(cap, Min(cap, x) * m) == Min(cap, x * m)
  {
    if cap < x {
      assert cap * m >= cap;
      assert x * m >= cap * m;
    }
  }

  lemma IntegerGrow(c: Config, m: nat, delay: nat)
    requires c.multiple == m as real
    ensures Grow(c, delay) == Min(c.maxDelay, delay * m)
  {
    assert delay as real * c.multiple == (delay * m) as real;
  }

  lemma {:induction false} WaitIsCappedPower(c: Config, m: nat, k: nat)
    requires c.multiple == m as real && m >= 1 && 0 <= c.initialDelay && 0 <= c.maxDelay && k >= 1
    ensures c.initialDelay <= c.maxDelay || k >= 2 ==> Wait(c, k) == Min(c.maxDelay, Scaled(c.initialDelay, m, k - 1))
    ensures Wait(c, k) >= 0
  {
    hide Grow;
    if k >= 2 {
      WaitIsCappedPower(c, m, k - 1);
      IntegerGrow(c, m, Wait(c, k - 1));
      CapTwice(c.maxDelay, Scaled(c.initialDelay, m, k - 2), m);
    }
  }

  /**
   With an integer multiplier the loop and the closed form agree on every attempt exactly if the first delay
   is within the cap: the loop caps a delay only when it grows.
   */
  lemma LoopIsClosedForm(c: Config, m: nat)
    requires c.multiple == m as real && m >= 1 && 0 <= c.initialDelay && 0 <= c.maxDelay
    ensures (forall k: nat :: k >= 1 ==> Wait(c, k) == CalculateDelay(c, k)) <==> c.initialDelay <= c.maxDelay
    ensures forall k: nat :: k >= 2 ==> Wait(c, k) == CalculateDelay(c, k)
  {
    forall k: nat | k >= 2 || (k == 1 && c.initialDelay <= c.maxDelay)
      ensures Wait(c, k) == CalculateDelay(c, k)
    {
      WaitIsCappedPower(c, m, k);
      IntegerDelay(c, m, k);
    }
    IntegerDelay(c, m, 1);
    assert Wait(c, 1) == c.initialDelay;
  }

  /** A multiplier that is no integer: the loop drops a fraction on every turn, the closed form only once. */
  lemma FractionsAreLost()
    ensures var c := Config(1, 60 * SECOND, 20, 1.5); Wait(c, 3) == 1 && CalculateDelay(c, 3) == 2
  {
    var c := Config(1, 60 * SECOND, 20, 1.5);
    assert Wait(c, 1) == 1;
    assert Wait(c, 2) == 1;
    assert RealPow(1.5, 0) == 1.0;
    assert RealPow(1.5, 1) == 1.5;
    assert RealPow(1.5, 2) == 2.25;
  }

  lemma ScaleUp(a: real, b: real, m: real)
    requires a <= b && m >= 0.0
    ensures a * m <= b * m
  {
  }

  lemma AtLeastOnce(a: real, m: real)
    requires a >= 0.0 && m >= 1.0
    ensures a <= a * m
  {
    assert 0.0 <= a * (m - 1.0);
  }

  lemma TruncBetween(low: nat, x: real, high: real)
    requires low as real <= x <= high
    ensures low <= Trunc(x) && Trunc(x) as real <= high
  {
  }

  lemma GrowIsBelow(c: Config, delay: nat, bound: real)
    requires c.multiple >= 1.0 && delay <= c.maxDelay && delay as real <= bound
    ensures delay <= Grow(c, delay) <= c.maxDelay && Grow(c, delay) as real <= bound * c.multiple
  {
    ScaleUp(delay as real, bound, c.multiple);
    AtLeastOnce(delay as real, c.multiple);
    TruncBetween(delay, delay as real * c.multiple, bound * c.multiple);
    hide Trunc;
  }

  /** Whatever the multiplier, from 1 up, delays only grow, stay within the cap and never exceed the closed form. */
  lemma WaitIsBelow(c: Config, k: nat)
    requires c.multiple >= 1.0 && 0 <= c.initialDelay <= c.maxDelay && k >= 1
    ensures 0 <= Wait(c, k) <= CalculateDelay(c, k) <= c.maxDelay
    ensures Wait(c, k) <= Wait(c, k + 1)
  {
    hide Grow;
    hide Trunc;
    hide Uncapped;
    WaitIsBelowPower(c, k);
    GrowIsBelow(c, Wait(c, k), Wait(c, k) as real);
    CutOff(Wait(c, k), c.maxDelay, Uncapped(c, k));
    assert Wait(c, k + 1) == Grow(c, Wait(c, k));
    hide Wait;
  }

  lemma CutOff(w: nat, cap: int, x: real)
    requires w <= cap && w as real <= x
    ensures w <= Trunc(if x > cap as real then cap as real else x) <= cap
  {
  }

  lemma {:induction false} WaitIsBelowPower(c: Config, k: nat)
    requires c.multiple >= 1.0 && 0 <= c.initialDelay <= c.maxDelay && k >= 1
    ensures 0 <= Wait(c, k) <= c.maxDelay
    ensures Wait(c, k) as real <= Uncapped(c, k)
  {
    hide Grow;
    var initial := c.initialDelay as real;
    if k == 1 {
      assert RealPow(c.multiple, 0) == 1.0;
    } else {
      WaitIsBelowPower(c, k - 1);
      var power := RealPow(c.multiple, k - 2);
      GrowIsBelow(c, Wait(c, k - 1), initial * power);
      Associate(initial, power, c.multiple);
      assert RealPow(c.multiple, k - 1) == power * c.multiple;
    }
  }

  // ---- which multipliers the two agree for

  /** With the multiplier m, whatever the first delay and the cap. */
  ghost predicate AlwaysAgree(m: real)
    requires m >= 1.0
  {
    forall initial: nat, cap: nat, k: nat :: initial <= cap && k >= 1 ==>
      Wait(Config(initial, cap, 0, m), k) == CalculateDelay(Config(initial, cap, 0, m), k)
  }

  lemma PowSteps(m: real, k: nat)
    ensures RealPow(m, 0) == 1.0 && (k >= 1 ==> RealPow(m, k) == RealPow(m, k - 1) * m)
  {
  }

  lemma {:induction false} Bernoulli(m: real, j: nat)
    requires m >= 1.0
    ensures RealPow(m, j) >= 1.0 + j as real * (m - 1.0)
  {
    hide RealPow;
    PowSteps(m, j);
    if j > 0 {
      Bernoulli(m, j - 1);
      BernoulliStep(m, RealPow(m, j - 1), (j - 1) as real);
      assert (j - 1) as real + 1.0 == j as real;
    }
  }

  lemma BernoulliStep(m: real, power: real, j: real)
    requires m >= 1.0 && j >= 0.0 && power >= 1.0 + j * (m - 1.0)
    ensures power * m >= 1.0 + (j + 1.0) * (m - 1.0)
  {
    var x := m - 1.0;
    ScaleUp(1.0 + j * x, power, m);
    assert (1.0 + j * x) * (1.0 + x) == 1.0 + (j + 1.0) * x + j * (x * x);
    ScaleUp(0.0, j, x * x);
  }

  /** Powers of m outgrow 1/f. */
  lemma OutgrownBy(m: real, f: real) returns (j: nat)
    requires 0.0 < f <= m - 1.0
    ensures f * RealPow(m, j) >= 1.0
  {
    hide RealPow;
    var g := 1.0 / f;
    j := Above(g * g);
    Bernoulli(m, j);
    Enough(f, g, m - 1.0, j as real, RealPow(m, j));
  }

  lemma Above(x: real) returns (j: nat)
    ensures j as real >= x
  {
    j := if x < 0.0 then 0 else x.Floor + 1;
  }

  lemma Enough(f: real, g: real, x: real, j: real, power: real)
    requires 0.0 < f <= x && j >= 0.0 && g * f == 1.0 && j >= g * g && power >= 1.0 + j * x
    ensures f * power >= 1.0
  {
    var y := j * f;
    ScaleUp(g * g, j, f);
    Associate(g, g, f);
    assert g <= y;
    ScaleUp(g, y, f);
    ScaleUp(f, x, y);
    ScaleUp(1.0 + j * x, power, f);
    assert (1.0 + j * x) * f == f + x * y;
  }

  lemma {:induction false} PowersGrow(m: real, k: nat)
    requires m >= 1.0
    ensures 1.0 <= RealPow(m, k) <= RealPow(m, k + 1)
  {
    hide RealPow;
    PowSteps(m, k);
    PowSteps(m, k + 1);
    if k > 0 {
      PowersGrow(m, k - 1);
    }
    AtLeastOnce(RealPow(m, k), m);
  }

  /** What the loop has dropped by its k-th wait, from 1 ns on and below the cap, is at least f * m^(k-2). */
  lemma {:induction false} Dropped(m: real, cap: nat, k: nat)
    requires m >= 1.0 && k >= 2 && RealPow(m, k - 1) <= cap as real
    ensures Wait(Config(1, cap, 0, m), k) as real
            <= RealPow(m, k - 1) - (m - m.Floor as real) * RealPow(m, k - 2)
  {
    hide RealPow;
    hide Wait;
    if k == 2 {
      DroppedFirst(m, cap);
    } else {
      NextPower(m, cap, k);
      Dropped(m, cap, k - 1);
      DroppedStep(Wait(Config(1, cap, 0, m), k - 1) as real, RealPow(m, k - 2), m - m.Floor as real,
                  RealPow(m, k - 3), m);
    }
  }

  lemma DroppedFirst(m: real, cap: nat)
    requires m >= 1.0
    ensures Wait(Config(1, cap, 0, m), 2) as real <= RealPow(m, 1) - (m - m.Floor as real) * RealPow(m, 0)
  {
    hide RealPow;
    PowSteps(m, 1);
    FirstGrow(Config(1, cap, 0, m));
    hide Wait;
    assert 1.0 * m == m;
  }

  /** The powers in the step, and that the loop's next wait is at most m times this one. */
  lemma NextPower(m: real, cap: nat, k: nat)
    requires m >= 1.0 && k >= 3 && RealPow(m, k - 1) <= cap as real
    ensures RealPow(m, k - 2) <= cap as real
    ensures RealPow(m, k - 1) == RealPow(m, k - 2) * m && RealPow(m, k - 2) == RealPow(m, k - 3) * m
    ensures Wait(Config(1, cap, 0, m), k) as real <= Wait(Config(1, cap, 0, m), k - 1) as real * m
  {
    hide RealPow;
    hide Grow;
    var c := Config(1, cap, 0, m);
    PowersGrow(m, k - 2);
    PowSteps(m, k - 1);
    PowSteps(m, k - 2);
    CapIsNatural(m, cap, k);
    WaitIsBelowPower(c, k - 1);
    GrowDrops(c, Wait(c, k - 1));
  }

  lemma CapIsNatural(m: real, cap: nat, k: nat)
    requires m >= 1.0 && k >= 1 && RealPow(m, k - 1) <= cap as real
    ensures 1 <= cap
  {
    hide RealPow;
    PowersGrow(m, k - 1);
  }

  lemma DroppedStep(w: real, power: real, f: real, before: real, m: real)
    requires w <= power - f * before && m >= 0.0
    ensures w * m <= power * m - f * (before * m)
  {
    ScaleUp(w, power - f * before, m);
    Associate(f, before, m);
    assert (power - f * before) * m == power * m - f * before * m;
  }

  lemma FirstGrow(c: Config)
    requires c.initialDelay == 1 && c.multiple >= 1.0
    ensures Wait(c, 2) <= c.multiple.Floor
  {
    assert Wait(c, 1) == 1 && 1.0 * c.multiple == c.multiple;
    assert Trunc(c.multiple) == c.multiple.Floor;
  }

  lemma GrowDrops(c: Config, delay: nat)
    requires c.multiple >= 0.0
    ensures Grow(c, delay) as real <= delay as real * c.multiple
  {
    ScaleUp(0.0, delay as real, c.multiple);
  }

  lemma GrowsFromNatural(c: Config, delay: nat)
    requires c.multiple >= 0.0 && c.maxDelay >= 0
    ensures Grow(c, delay) >= 0
  {
    ScaleUp(0.0, delay as real, c.multiple);
  }

  lemma FractionsPart(m: real)
    requires m >= 1.0 && m != m.Floor as real
    ensures !AlwaysAgree(m)
  {
    hide RealPow;
    hide Wait;
    hide Trunc;
    var f := m - m.Floor as real;
    var j := OutgrownBy(m, f);
    var k := j + 2;
    PowersGrow(m, k - 1);
    var cap := Above(RealPow(m, k - 1));
    var c := Config(1, cap, 0, m);
    Dropped(m, cap, k);
    CapIsNatural(m, cap, k);
    assert 1.0 * RealPow(m, k - 1) == RealPow(m, k - 1) == Uncapped(c, k);
    TruncIsClose(RealPow(m, k - 1));
    assert Wait(c, k) < CalculateDelay(c, k);
  }

  lemma TruncIsClose(x: real)
    requires x >= 0.0
    ensures x - 1.0 < Trunc(x) as real <= x
  {
  }

  /** The loop and the closed form agree for any first delay within any cap exactly if the multiplier is an integer. */
  lemma AgreeForIntegersOnly(m: real)
    requires m >= 1.0
    ensures AlwaysAgree(m) <==> m == m.Floor as real
  {
    if m == m.Floor as real {
      forall initial: nat, cap: nat, k: nat | initial <= cap && k >= 1
        ensures Wait(Config(initial, cap, 0, m), k) == CalculateDelay(Config(initial, cap, 0, m), k)
      {
        WaitIsCappedPower(Config(initial, cap, 0, m), m.Floor, k);
        IntegerDelay(Config(initial, cap, 0, m), m.Floor, k);
      }
    } else {
      FractionsPart(m);
    }
    hide Wait;
    hide CalculateDelay;
  }

  // ---- sums

  /** The time spent waiting before the first n attempts. */
  function TotalWait(c: Config, n: nat): int
  {
    if n == 0 then 0 else TotalWait(c, n - 1) + Wait(c, n)
  }

  /** Waiting for n attempts never takes longer than n caps. */
  lemma {:induction false} TotalIsWithinCaps(c: Config, n: nat)
    requires c.multiple >= 1.0 && 0 <= c.initialDelay <= c.maxDelay
    ensures TotalWait(c, n) <= n * c.maxDelay
  {
    hide Grow;
    hide CalculateDelay;
    if n > 0 {
      TotalIsWithinCaps(c, n - 1);
      WaitIsBelow(c, n);
      hide Wait;
      assert n * c.maxDelay == (n - 1) * c.maxDelay + c.maxDelay;
    }
  }

  /** Nor, (m - 1) times over, than the geometric series initial * (m^n - 1). */
  lemma {:induction false} TotalIsWithinSeries(c: Config, n: nat)
    requires c.multiple >= 1.0 && 0 <= c.initialDelay <= c.maxDelay
    ensures (c.multiple - 1.0) * TotalWait(c, n) as real <= Uncapped(c, n + 1) - c.initialDelay as real
  {
    hide Grow;
    hide Uncapped;
    UncappedSteps(c, n);
    if n > 0 {
      TotalIsWithinSeries(c, n - 1);
      WaitIsBelowPower(c, n);
      SeriesStep(c.multiple, Uncapped(c, n), TotalWait(c, n - 1) as real, Wait(c, n) as real);
      hide Wait;
    } else {
      assert (c.multiple - 1.0) * 0.0 == 0.0;
    }
  }

  lemma UncappedSteps(c: Config, n: nat)
    ensures Uncapped(c, 1) == c.initialDelay as real
    ensures n >= 1 ==> Uncapped(c, n + 1) == Uncapped(c, n) * c.multiple
  {
    assert RealPow(c.multiple, 0) == 1.0;
    if n >= 1 {
      Associate(c.initialDelay as real, RealPow(c.multiple, n - 1), c.multiple);
    }
  }

  lemma SeriesStep(m: real, power: real, total: real, last: real)
    requires m >= 1.0 && last <= power
    ensures (m - 1.0) * (total + last) <= (m - 1.0) * total + (power * m - power)
  {
    ScaleUp(last, power, m - 1.0);
  }

  lemma MoreCaps(n: nat, k: nat, cap: nat)
    requires n <= k
    ensures n * cap <= k * cap
  {
  }
}
