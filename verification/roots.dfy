/**
 * Square roots. Python's `x ** 0.5` is a floating-point routine; the model
 * takes the root as a function parameter and asks only that it return the
 * non-negative square root of every non-negative argument.
 */
module Roots {
  import opened Sums

  /** `sqrt` returns the non-negative square root of every non-negative real. */
  ghost predicate IsSquareRoot(sqrt: real -> real)
  {
    forall x :: 0.0 <= x ==> 0.0 <= sqrt(x) && sqrt(x) * sqrt(x) == x
  }

  /** Two non-negative reals with the same square are equal. */
  lemma SquareInjective(r: real, a: real)
    requires 0.0 <= r && 0.0 <= a
    requires r * r == a * a
    ensures r == a
  {
    var d := Dev(r, a);
    SquareSign(d);
    assert d * d == r * r - 2.0 * r * a + a * a;
    assert (r - a) * (r + a) == r * r - a * a;
  }

  /** The root is determined: it is the unique non-negative real whose square is the argument. */
  lemma RootUnique(sqrt: real -> real, x: real, r: real)
    requires IsSquareRoot(sqrt)
    requires 0.0 <= x && 0.0 <= r && r * r == x
    ensures sqrt(x) == r
  {
    SquareInjective(sqrt(x), r);
  }

  /** The root of zero is zero. */
  lemma RootOfZero(sqrt: real -> real)
    requires IsSquareRoot(sqrt)
    ensures sqrt(0.0) == 0.0
  {
    RootUnique(sqrt, 0.0, 0.0);
  }

  /** The root of a square of a non-negative real gives that real back. */
  lemma RootOfSquare(sqrt: real -> real, a: real)
    requires IsSquareRoot(sqrt)
    requires 0.0 <= a
    ensures sqrt(a * a) == a
  {
    SquareSign(a);
    RootUnique(sqrt, a * a, a);
  }
}
