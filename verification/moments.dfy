/**
 * Mean, population variance and standard deviation of one numeric column
 * (`calculate_mean`, `calculate_variance`, `calculate_std` in
 * Linearmodel/statistics.py). A column is a sequence of exact reals with no
 * missing values: loading fills every gap with 0, so nothing is dropped.
 */
module Moments {
  import opened Sums
  import opened Roots

  /** Arithmetic mean; an empty column has mean 0.0. */
  function Mean(s: seq<real>): (m: real)
    ensures |s| == 0 ==> m == 0.0
    ensures |s| > 0 ==> m * (|s| as real) == Sum(s)
  {
    if |s| > 0 then Sum(s) / (|s| as real) else 0.0
  }

  /**
   * Σ (x - x̄)² over the whole column: the variance's numerator, each factor
   * under the root in the correlation's denominator, and the total sum of
   * squares of R².
   */
  function SquareSum(s: seq<real>): (d: real)
    ensures 0.0 <= d
  {
    SumSqDev(s, Mean(s))
  }

  /**
   * Population variance: the squared deviations from the mean divided by
   * the number of values n (not n - 1); an empty column has variance 0.0.
   */
  function Variance(s: seq<real>): (v: real)
    ensures 0.0 <= v
    ensures |s| == 0 ==> v == 0.0
    ensures |s| > 0 ==> v * (|s| as real) == SquareSum(s)
  {
    if |s| > 0 then SquareSum(s) / (|s| as real) else 0.0
  }

  /** Standard deviation: the root of the variance, stated without the root. */
  function Std(s: seq<real>, sqrt: real -> real): (d: real)
    requires IsSquareRoot(sqrt)
    ensures 0.0 <= d && d * d == Variance(s)
  {
    sqrt(Variance(s))
  }

  /** A column of one repeated value has that value as its mean. */
  lemma MeanOfConstant(s: seq<real>, c: real)
    requires |s| > 0
    requires forall i :: 0 <= i < |s| ==> s[i] == c
    ensures Mean(s) == c
  {
    SumOfConstant(s, c);
  }

  /** A constant column, and the empty column, have variance 0. */
  lemma VarianceOfConstant(s: seq<real>, c: real)
    requires forall i :: 0 <= i < |s| ==> s[i] == c
    ensures Variance(s) == 0.0
  {
    if |s| > 0 {
      MeanOfConstant(s, c);
      SumSqDevOfConstant(s, c);
    }
  }

  /** The standard deviation is the only non-negative real whose square is the variance. */
  lemma StdUnique(s: seq<real>, sqrt: real -> real, d: real)
    requires IsSquareRoot(sqrt)
    requires 0.0 <= d && d * d == Variance(s)
    ensures Std(s, sqrt) == d
  {
    SquareInjective(Std(s, sqrt), d);
  }

  /** A constant column has standard deviation 0. */
  lemma StdOfConstant(s: seq<real>, sqrt: real -> real, c: real)
    requires IsSquareRoot(sqrt)
    requires forall i :: 0 <= i < |s| ==> s[i] == c
    ensures Std(s, sqrt) == 0.0
  {
    VarianceOfConstant(s, c);
    RootOfZero(sqrt);
  }

  /** The column [1, 2, 3, 4, 5]: mean 3, variance 2, and std the root of 2 (about 1.414). */
  lemma OneToFiveMoments(sqrt: real -> real)
    requires IsSquareRoot(sqrt)
    ensures Mean([1.0, 2.0, 3.0, 4.0, 5.0]) == 3.0
    ensures Variance([1.0, 2.0, 3.0, 4.0, 5.0]) == 2.0
    ensures Std([1.0, 2.0, 3.0, 4.0, 5.0], sqrt) * Std([1.0, 2.0, 3.0, 4.0, 5.0], sqrt) == 2.0
  {
    var s := [1.0, 2.0, 3.0, 4.0, 5.0];
    assert Sum(s) == 15.0;
    assert Mean(s) == 3.0;
    assert SumSqDev(s, 3.0) == 10.0;
  }
}
