/**
 * Pearson correlation of two numeric columns (`calculate_correlation` in
 * Linearmodel/statistics.py). The numerator pairs the columns as Python's
 * `zip` does, stopping at the shorter one; each column's own sum of squared
 * deviations, about its own mean, enters the denominator. A zero denominator
 * gives a correlation of exactly 0.0. The result is a record with a single
 * field, `Correlation`.
 */
module Correlations {
  import opened Sums
  import opened Roots
  import opened Moments

  /** The dict `{'Correlation': r}`. */
  datatype CorrelationRecord = CorrelationRecord(correlation: real)

  /** Σ (x - x̄)(y - ȳ) over the zipped pairs. */
  function CrossSum(xs: seq<real>, ys: seq<real>): real
  {
    SumCrossDev(xs, ys, Mean(xs), Mean(ys))
  }

  /** The radicand of the denominator; never negative. */
  function Radicand(xs: seq<real>, ys: seq<real>): (p: real)
    ensures 0.0 <= p
  {
    NonNegativeProduct(SquareSum(xs), SquareSum(ys));
    SquareSum(xs) * SquareSum(ys)
  }

  /** A product of two non-negative reals is non-negative. */
  lemma NonNegativeProduct(a: real, b: real)
    requires 0.0 <= a && 0.0 <= b
    ensures 0.0 <= a * b
  {
  }

  /** The correlation of two columns, with `sqrt` standing for `** 0.5`. */
  function Correlation(xs: seq<real>, ys: seq<real>, sqrt: real -> real): (r: CorrelationRecord)
    requires IsSquareRoot(sqrt)
    ensures Radicand(xs, ys) == 0.0 ==> r.correlation == 0.0
    ensures Radicand(xs, ys) != 0.0 ==> r.correlation * sqrt(Radicand(xs, ys)) == CrossSum(xs, ys)
  {
    var denominator := sqrt(Radicand(xs, ys));
    RootOfZero(sqrt);
    CorrelationRecord(if denominator != 0.0 then CrossSum(xs, ys) / denominator else 0.0)
  }

  /** Swapping the two columns leaves the correlation unchanged. */
  lemma CorrelationSymmetric(xs: seq<real>, ys: seq<real>, sqrt: real -> real)
    requires IsSquareRoot(sqrt)
    ensures Correlation(xs, ys, sqrt) == Correlation(ys, xs, sqrt)
  {
    SumCrossDevSymmetric(xs, ys, Mean(xs), Mean(ys));
    assert Radicand(xs, ys) == Radicand(ys, xs);
  }

  /** The root of the radicand of a column with itself is its sum of squared deviations. */
  lemma SelfRoot(xs: seq<real>, sqrt: real -> real)
    requires IsSquareRoot(sqrt)
    ensures sqrt(Radicand(xs, xs)) == SquareSum(xs)
  {
    var q := SquareSum(xs);
    assert Radicand(xs, xs) == q * q;
    RootOfSquare(sqrt, q);
  }

  /** A non-zero real divided by itself is 1. */
  lemma DivideBySelf(q: real)
    requires q != 0.0
    ensures q / q == 1.0
  {
  }

  /** A column that is not constant has correlation 1 with itself. */
  lemma CorrelationWithItself(xs: seq<real>, sqrt: real -> real)
    requires IsSquareRoot(sqrt)
    requires SquareSum(xs) != 0.0
    ensures Correlation(xs, xs, sqrt).correlation == 1.0
  {
    var q := SquareSum(xs);
    SumCrossDevSelf(xs, Mean(xs));
    SelfRoot(xs, sqrt);
    DivideBySelf(q);
  }

  /** When the radicand is the square of a positive `a`, the correlation is the cross sum over `a`. */
  lemma CorrelationOfSquareRadicand(xs: seq<real>, ys: seq<real>, sqrt: real -> real, a: real)
    requires IsSquareRoot(sqrt)
    requires 0.0 < a && Radicand(xs, ys) == a * a
    ensures Correlation(xs, ys, sqrt).correlation == CrossSum(xs, ys) / a
  {
    RootOfSquare(sqrt, a);
  }

  /** The columns [1, 2, 3] and [4, 5, 6] have correlation 1. */
  lemma CorrelationExample(sqrt: real -> real)
    requires IsSquareRoot(sqrt)
    ensures Correlation([1.0, 2.0, 3.0], [4.0, 5.0, 6.0], sqrt).correlation == 1.0
  {
    var xs, ys := [1.0, 2.0, 3.0], [4.0, 5.0, 6.0];
    ExampleSums();
    CorrelationOfSquareRadicand(xs, ys, sqrt, 2.0);
  }

  /** The squared-deviation sums of the two example columns. */
  lemma ExampleSums()
    ensures SquareSum([1.0, 2.0, 3.0]) == 2.0
    ensures SquareSum([4.0, 5.0, 6.0]) == 2.0
    ensures CrossSum([1.0, 2.0, 3.0], [4.0, 5.0, 6.0]) == 2.0
  {
    assert Mean([1.0, 2.0, 3.0]) == 2.0;
    assert Mean([4.0, 5.0, 6.0]) == 5.0;
  }
}
