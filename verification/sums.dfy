/**
 * Finite sums over columns of exact reals: the plain sum, the sum of squared
 * deviations from a centre, and the sum of products of paired deviations.
 * Every statistic of the model is built from these folds.
 */
module Sums {

  /** Sum of the values of a column (Python's `sum`). */
  function Sum(s: seq<real>): real
  {
    if |s| == 0 then 0.0 else s[0] + Sum(s[1..])
  }

  /** The deviation of a value from a centre, `x - c`. */
  function Dev(x: real, c: real): real
  {
    x - c
  }

  /** A square is never negative, and the square of zero is zero. */
  lemma SquareSign(x: real)
    ensures 0.0 <= x * x
    ensures x == 0.0 ==> x * x == 0.0
  {
  }

  /** Sum of squared deviations of the values from the centre `c`, Σ (x - c)². */
  function SumSqDev(s: seq<real>, c: real): (d: real)
    ensures 0.0 <= d
  {
    if |s| == 0 then 0.0
    else
      SquareSign(Dev(s[0], c));
      Dev(s[0], c) * Dev(s[0], c) + SumSqDev(s[1..], c)
  }

  /**
   * Sum of products of paired deviations, Σ (x - cx)(y - cy), over the pairs
   * that Python's `zip` forms: it stops at the end of the shorter column.
   */
  function SumCrossDev(xs: seq<real>, ys: seq<real>, cx: real, cy: real): real
  {
    if |xs| == 0 || |ys| == 0 then 0.0
    else Dev(xs[0], cx) * Dev(ys[0], cy) + SumCrossDev(xs[1..], ys[1..], cx, cy)
  }

  /** A column of identical values sums to the count times that value. */
  lemma {:induction false} SumOfConstant(s: seq<real>, c: real)
    requires forall i :: 0 <= i < |s| ==> s[i] == c
    ensures Sum(s) == (|s| as real) * c
  {
    if |s| > 0 {
      SumOfConstant(s[1..], c);
    }
  }

  /** When every value equals the centre, the squared deviations vanish. */
  lemma {:induction false} SumSqDevOfConstant(s: seq<real>, c: real)
    requires forall i :: 0 <= i < |s| ==> s[i] == c
    ensures SumSqDev(s, c) == 0.0
  {
    if |s| > 0 {
      SumSqDevOfConstant(s[1..], c);
      SquareSign(Dev(s[0], c));
    }
  }

  /** Pairing is symmetric: swapping the two columns leaves the cross sum unchanged. */
  lemma {:induction false} SumCrossDevSymmetric(xs: seq<real>, ys: seq<real>, cx: real, cy: real)
    ensures SumCrossDev(xs, ys, cx, cy) == SumCrossDev(ys, xs, cy, cx)
  {
    if |xs| > 0 && |ys| > 0 {
      SumCrossDevSymmetric(xs[1..], ys[1..], cx, cy);
    }
  }

  /** A column paired with itself: the cross sum is the sum of squared deviations. */
  lemma {:induction false} SumCrossDevSelf(xs: seq<real>, c: real)
    ensures SumCrossDev(xs, xs, c, c) == SumSqDev(xs, c)
  {
    if |xs| > 0 {
      SumCrossDevSelf(xs[1..], c);
    }
  }
}
