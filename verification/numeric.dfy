/**
 * Exact arithmetic that stands in for the floating-point arithmetic of the
 * lottery: Python's int() truncation of a float, sums of real sequences, and
 * the two element-wise operations the lottery performs on weights (dividing
 * by a total, multiplying by a pool).
 */
module Numeric {

  /** Python's `int(x)` for a float `x`: truncation toward zero. */
  function Trunc(x: real): (r: int)
    ensures x >= 0.0 ==> r >= 0 && r as real <= x < r as real + 1.0
    ensures x < 0.0 ==> r <= 0 && r as real - 1.0 < x <= r as real
  {
    if x >= 0.0 then x.Floor else -((-x).Floor)
  }

  /** Python's two-argument `max` on integers. */
  function Max(a: int, b: int): int
  {
    if a >= b then a else b
  }

  /** Sum of a sequence of reals, accumulated left to right as the script's loops do. */
  function Sum(xs: seq<real>): real
  {
    if xs == [] then 0.0 else Sum(xs[..|xs| - 1]) + xs[|xs| - 1]
  }

  /** Each element divided by `total`. */
  function Ratios(xs: seq<real>, total: real): seq<real>
    requires total != 0.0
  {
    seq(|xs|, k requires 0 <= k < |xs| => xs[k] / total)
  }

  /** Each element multiplied by `factor`. */
  function Scaled(xs: seq<real>, factor: real): seq<real>
  {
    seq(|xs|, k requires 0 <= k < |xs| => xs[k] * factor)
  }

  /** Extending a prefix by one element adds that element to the sum. */
  lemma SumSnoc(xs: seq<real>, i: nat)
    requires i < |xs|
    ensures Sum(xs[..i + 1]) == Sum(xs[..i]) + xs[i]
  {
    assert xs[..i + 1][..i] == xs[..i];
  }

  /** Dividing every element by the same total divides the sum by it. */
  lemma {:induction false} SumOfRatios(xs: seq<real>, total: real)
    requires total != 0.0
    ensures Sum(Ratios(xs, total)) == Sum(xs) / total
  {
    if xs != [] {
      var n := |xs| - 1;
      var r := Ratios(xs, total);
      assert r[..n] == Ratios(xs[..n], total);
      SumOfRatios(xs[..n], total);
      assert Sum(xs[..n]) / total + xs[n] / total == (Sum(xs[..n]) + xs[n]) / total;
    }
  }

  /** Multiplying every element by the same factor multiplies the sum by it. */
  lemma {:induction false} SumOfScaled(xs: seq<real>, factor: real)
    ensures Sum(Scaled(xs, factor)) == Sum(xs) * factor
  {
    if xs != [] {
      var n := |xs| - 1;
      var r := Scaled(xs, factor);
      assert forall j :: 0 <= j < n ==> r[..n][j] == Scaled(xs[..n], factor)[j];
      assert r[..n] == Scaled(xs[..n], factor);
      SumOfScaled(xs[..n], factor);
      assert Sum(xs[..n]) * factor + xs[n] * factor == (Sum(xs[..n]) + xs[n]) * factor;
    }
  }

  /** In a sequence of non-negative reals no element exceeds the sum, and the sum is non-negative. */
  lemma {:induction false} ElementAtMostSum(xs: seq<real>, k: nat)
    requires forall j :: 0 <= j < |xs| ==> xs[j] >= 0.0
    requires k < |xs|
    ensures 0.0 <= xs[k] <= Sum(xs)
  {
    var n := |xs| - 1;
    SumNonNegative(xs[..n]);
    if k < n {
      ElementAtMostSum(xs[..n], k);
    }
  }

  /** A sum of non-negative reals is non-negative. */
  lemma {:induction false} SumNonNegative(xs: seq<real>)
    requires forall j :: 0 <= j < |xs| ==> xs[j] >= 0.0
    ensures Sum(xs) >= 0.0
  {
    if xs != [] {
      SumNonNegative(xs[..|xs| - 1]);
    }
  }

  /** A sum of reals that are each at least 1 is at least their number. */
  lemma {:induction false} SumAtLeastCount(xs: seq<real>)
    requires forall j :: 0 <= j < |xs| ==> xs[j] >= 1.0
    ensures Sum(xs) >= |xs| as real
  {
    if xs != [] {
      SumAtLeastCount(xs[..|xs| - 1]);
    }
  }

  /** A non-zero total divided by itself is 1: normalised shares of a total sum to 1. */
  lemma DivideBySelf(t: real)
    requires t != 0.0
    ensures t / t == 1.0
  {
  }

  /** A part of a positive whole is a fraction in (0, 1]. */
  lemma RatioInUnitInterval(part: real, whole: real)
    requires 0.0 < part <= whole
    ensures 0.0 < part / whole <= 1.0
  {
    var q := part / whole;
    assert q * whole == part;
  }

  /** A part of a positive whole, taken as a share of a non-negative pool, lies between 0 and the pool. */
  lemma ShareWithinPool(part: real, whole: real, pool: real)
    requires 0.0 < part <= whole && pool >= 0.0
    ensures 0.0 <= part / whole * pool <= pool
  {
    RatioInUnitInterval(part, whole);
    FractionOfAmount(part / whole, pool);
  }

  /** A fraction in [0, 1] of a non-negative amount lies between 0 and the amount. */
  lemma FractionOfAmount(fraction: real, amount: real)
    requires 0.0 <= fraction <= 1.0 && amount >= 0.0
    ensures 0.0 <= fraction * amount <= amount
  {
    assert amount - fraction * amount == (1.0 - fraction) * amount;
  }

  /** For a non-negative numerator, truncating the exact quotient is integer division. */
  lemma TruncOfQuotient(a: int, b: int)
    requires a >= 0 && b > 0
    ensures Trunc(a as real / b as real) == a / b
  {
    var q, m := a / b, a % b;
    assert a == q * b + m && 0 <= m < b;
    assert a as real / b as real == q as real + m as real / b as real;
    assert 0.0 <= m as real / b as real < 1.0;
  }
}
