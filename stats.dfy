/**
 * Aggregates over a column of temperatures, as pandas and numpy compute them
 * in exact arithmetic: sum, mean, minimum, maximum, sample variance (ddof = 1),
 * sample standard deviation and the ordinary-least-squares slope.
 */
module Stats {

  function Sum(xs: seq<real>): real {
    if xs == [] then 0.0 else xs[0] + Sum(xs[1..])
  }

  function Max(xs: seq<real>): (m: real)
    requires |xs| > 0
    ensures m in xs
    ensures forall i :: 0 <= i < |xs| ==> xs[i] <= m
  {
    if |xs| == 1 then xs[0]
    else
      var rest := Max(xs[1..]);
      assert forall i :: 1 <= i < |xs| ==> xs[i] == xs[1..][i - 1];
      if xs[0] >= rest then xs[0] else rest
  }

  function Min(xs: seq<real>): (m: real)
    requires |xs| > 0
    ensures m in xs
    ensures forall i :: 0 <= i < |xs| ==> m <= xs[i]
  {
    if |xs| == 1 then xs[0]
    else
      var rest := Min(xs[1..]);
      assert forall i :: 1 <= i < |xs| ==> xs[i] == xs[1..][i - 1];
      if xs[0] <= rest then xs[0] else rest
  }

  /** `b` added `k` times; equal to `k * b`, but free of multiplication for the solver. */
  function Scaled(k: nat, b: real): real {
    if k == 0 then 0.0 else b + Scaled(k - 1, b)
  }

  lemma {:induction false} ScaledIsProduct(k: nat, b: real)
    ensures Scaled(k, b) == k as real * b
  {
    if k > 0 {
      ScaledIsProduct(k - 1, b);
    }
  }

  /** A sum of terms bounded above by `b` is at most `|xs| * b`. */
  lemma {:induction false} SumAtMost(xs: seq<real>, b: real)
    requires forall i :: 0 <= i < |xs| ==> xs[i] <= b
    ensures Sum(xs) <= Scaled(|xs|, b)
  {
    if xs != [] {
      SumAtMost(xs[1..], b);
    }
  }

  /** A sum of terms bounded below by `b` is at least `|xs| * b`. */
  lemma {:induction false} SumAtLeast(xs: seq<real>, b: real)
    requires forall i :: 0 <= i < |xs| ==> b <= xs[i]
    ensures Scaled(|xs|, b) <= Sum(xs)
  {
    if xs != [] {
      SumAtLeast(xs[1..], b);
    }
  }

  /** The arithmetic mean; it always lies between the smallest and the largest value. */
  function Mean(xs: seq<real>): (m: real)
    requires |xs| > 0
    ensures Min(xs) <= m <= Max(xs)
  {
    SumAtLeast(xs, Min(xs));
    SumAtMost(xs, Max(xs));
    QuotientBetween(Sum(xs), |xs|, Min(xs), Max(xs));
    Sum(xs) / |xs| as real
  }

  /** A total between `k * lo` and `k * hi`, divided by `k`, lies between `lo` and `hi`. */
  lemma QuotientBetween(s: real, k: nat, lo: real, hi: real)
    requires 0 < k && Scaled(k, lo) <= s <= Scaled(k, hi)
    ensures lo <= s / k as real <= hi
  {
    ScaledIsProduct(k, lo);
    ScaledIsProduct(k, hi);
    var n := k as real;
    var q := s / n;
    assert (hi - q) * n == n * hi - s;
    assert (q - lo) * n == s - n * lo;
  }

  lemma SquareNonNegative(d: real)
    ensures 0.0 <= Square(d)
  {
  }

  function Square(d: real): real {
    d * d
  }

  /** Sum of squared deviations from `c`. */
  function SquaredDeviations(xs: seq<real>, c: real): real {
    if xs == [] then 0.0 else Square(xs[0] - c) + SquaredDeviations(xs[1..], c)
  }

  /** Sum of the products of paired deviations from `cx` and `cy`. */
  function CrossDeviations(xs: seq<real>, ys: seq<real>, cx: real, cy: real): real
    requires |xs| == |ys|
  {
    if xs == [] then 0.0
    else (xs[0] - cx) * (ys[0] - cy) + CrossDeviations(xs[1..], ys[1..], cx, cy)
  }

  lemma {:induction false} SquaredDeviationsAtLeastTerm(xs: seq<real>, c: real, i: nat)
    requires i < |xs|
    ensures 0.0 <= SquaredDeviations(xs[i + 1..], c)
    ensures Square(xs[i] - c) <= SquaredDeviations(xs, c)
  {
    if i == 0 {
      SquaredDeviationsNonNegative(xs[1..], c);
    } else {
      assert xs[1..][i - 1] == xs[i];
      assert xs[1..][i..] == xs[i + 1..];
      SquaredDeviationsAtLeastTerm(xs[1..], c, i - 1);
      SquareNonNegative(xs[0] - c);
    }
  }

  lemma {:induction false} SquaredDeviationsNonNegative(xs: seq<real>, c: real)
    ensures 0.0 <= SquaredDeviations(xs, c)
  {
    if xs != [] {
      SquaredDeviationsNonNegative(xs[1..], c);
      SquareNonNegative(xs[0] - c);
    }
  }

  /** Two different values leave a strictly positive sum of squared deviations. */
  lemma SquaredDeviationsPositive(xs: seq<real>, c: real, i: nat, j: nat)
    requires i < |xs| && j < |xs| && xs[i] != xs[j]
    ensures 0.0 < SquaredDeviations(xs, c)
  {
    if xs[i] != c {
      TermPositive(xs, c, i);
    } else {
      TermPositive(xs, c, j);
    }
  }

  lemma TermPositive(xs: seq<real>, c: real, k: nat)
    requires k < |xs| && xs[k] != c
    ensures 0.0 < SquaredDeviations(xs, c)
  {
    SquaredDeviationsAtLeastTerm(xs, c, k);
    PositiveSquare(xs[k] - c);
  }

  lemma PositiveSquare(d: real)
    requires d != 0.0
    ensures 0.0 < Square(d)
  {
    SquareNonNegative(d);
    if d * d == 0.0 {
      ZeroProduct(d, d);
    }
  }

  /** Sample variance (pandas' default ddof = 1); never negative. */
  function SampleVariance(xs: seq<real>): (v: real)
    requires |xs| >= 2
    ensures 0.0 <= v
  {
    SquaredDeviationsNonNegative(xs, Mean(xs));
    SquaredDeviations(xs, Mean(xs)) / (|xs| - 1) as real
  }

  /**
   * What the numeric library's square root promises: a non-negative number
   * whose square is the argument. The model takes the square root as a
   * parameter satisfying this, since Dafny's reals have no built-in one.
   */
  ghost predicate IsSqrt(sqrt: real -> real) {
    forall x: real :: 0.0 <= x ==> 0.0 <= sqrt(x) && sqrt(x) * sqrt(x) == x
  }

  /** Sample standard deviation: the square root of the sample variance. */
  function SampleStd(xs: seq<real>, sqrt: real -> real): (s: real)
    requires |xs| >= 2
    requires IsSqrt(sqrt)
    ensures 0.0 <= s && s * s == SampleVariance(xs)
  {
    sqrt(SampleVariance(xs))
  }

  lemma ZeroProduct(a: real, b: real)
    requires a * b == 0.0
    ensures a == 0.0 || b == 0.0
  {
  }

  /** The square root of `v * v` is `v` itself when `v` is non-negative. */
  lemma RootOfSquare(sqrt: real -> real, v: real)
    requires IsSqrt(sqrt) && 0.0 <= v
    ensures sqrt(v * v) == v
  {
    var s := sqrt(v * v);
    assert (s - v) * (s + v) == s * s - v * v;
    ZeroProduct(s - v, s + v);
  }

  /** Some two entries of `xs` differ. */
  predicate Varies(xs: seq<real>) {
    exists i, j :: 0 <= i < |xs| && 0 <= j < |xs| && xs[i] != xs[j]
  }

  lemma VariesGivesPositiveSpread(xs: seq<real>, c: real)
    requires Varies(xs)
    ensures 0.0 < SquaredDeviations(xs, c)
  {
    var i, j :| 0 <= i < |xs| && 0 <= j < |xs| && xs[i] != xs[j];
    SquaredDeviationsPositive(xs, c, i, j);
  }

  /**
   * The ordinary-least-squares slope of `ys` against `xs`: covariance over the
   * spread of `xs`. Defined once `xs` takes at least two distinct values.
   */
  function OlsSlope(xs: seq<real>, ys: seq<real>): real
    requires |xs| == |ys| && Varies(xs)
  {
    VariesGivesPositiveSpread(xs, Mean(xs));
    CrossDeviations(xs, ys, Mean(xs), Mean(ys)) / SquaredDeviations(xs, Mean(xs))
  }

  lemma {:induction false} CrossDeviationsOfConstant(xs: seq<real>, ys: seq<real>, cx: real, c: real)
    requires |xs| == |ys|
    requires forall i :: 0 <= i < |ys| ==> ys[i] == c
    ensures CrossDeviations(xs, ys, cx, c) == 0.0
  {
    if xs != [] {
      assert ys[0] - c == 0.0;
      CrossDeviationsOfConstant(xs[1..], ys[1..], cx, c);
    }
  }

  /** A constant series has a least-squares slope of zero. */
  lemma OlsSlopeOfConstant(xs: seq<real>, ys: seq<real>, c: real)
    requires |xs| == |ys| && Varies(xs)
    requires forall i :: 0 <= i < |ys| ==> ys[i] == c
    ensures OlsSlope(xs, ys) == 0.0
  {
    MeanOfConstant(ys, c);
    CrossDeviationsOfConstant(xs, ys, Mean(xs), c);
    VariesGivesPositiveSpread(xs, Mean(xs));
    QuotientOfZero(CrossDeviations(xs, ys, Mean(xs), Mean(ys)), SquaredDeviations(xs, Mean(xs)));
  }

  lemma QuotientOfZero(p: real, q: real)
    requires p == 0.0 && q != 0.0
    ensures p / q == 0.0
  {
  }

  /** The mean of a column whose values are all `c` is `c`. */
  lemma MeanOfConstant(xs: seq<real>, c: real)
    requires |xs| > 0
    requires forall i :: 0 <= i < |xs| ==> xs[i] == c
    ensures Mean(xs) == c
  {
    assert Min(xs) == c && Max(xs) == c;
  }
}
