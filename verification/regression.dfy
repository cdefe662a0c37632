/**
 * The ordinary-least-squares estimator (`OrdinaryLeastSquares`): an intercept
 * flag and a coefficient vector that is absent until the estimator is fitted.
 * Fitting computes β = (DᵀD)⁻¹·Dᵀ·y on the design matrix D, which is X itself
 * or X with a leading ones column. The inverse of DᵀD comes from outside and is
 * described only by what an inverse is, so the model states what β satisfies
 * (the normal equations) rather than how a numeric library finds it.
 */
module Regression {
  import opened Results
  import opened LinearAlgebra
  import opened Sums
  import opened Moments

  /** An estimator: the intercept flag and, once fitted, the coefficients. */
  datatype Estimator = Estimator(intercept: bool, coeffs: Option<Vector>)

  /** Ways the estimator's operations fail (numpy's exceptions). */
  datatype RegressionError =
    | NotFitted       // `predict` before `fit`: `X @ None`
    | ShapeMismatch   // the operands of `@` or `-` do not line up
    | SingularMatrix  // `np.linalg.inv` of a singular DᵀD

  /** A fresh estimator (`__init__`). */
  function New(intercept: bool): (e: Estimator)
    ensures e.intercept == intercept
    ensures e.coeffs.None?
  {
    Estimator(intercept, None)
  }

  /** `__init__` with its default argument: an intercept. */
  function NewDefault(): (e: Estimator)
    ensures e.intercept && e.coeffs.None?
  {
    New(true)
  }

  /** The stored coefficients (`get_coeffs`), returned as they are: absent before any fit. */
  function GetCoeffs(e: Estimator): (c: Option<Vector>)
    ensures c.None? <==> e.coeffs.None?
    ensures c.Some? ==> c.value == e.coeffs.value
  {
    e.coeffs
  }

  /** `get_coeffs` reports nothing on a fresh estimator and the solution of the normal equations after a fit. */
  lemma CoeffsLifecycle(intercept: bool, x: Matrix, p: nat, y: Vector, gramInverse: Option<Matrix>)
    requires IsMatrix(x, |x|, p)
    requires InverseOfGram(intercept, x, p, gramInverse)
    ensures GetCoeffs(New(intercept)) == None
    ensures Fit(New(intercept), x, p, y, gramInverse).Success? ==>
      var c := GetCoeffs(Fit(New(intercept), x, p, y, gramInverse).value);
      c.Some? && NormalEquations(Design(intercept, x), Width(intercept, p), c.value, y)
  {
  }

  /** Number of columns of the design matrix built from `p` explanatory columns. */
  function Width(intercept: bool, p: nat): nat
  {
    if intercept then p + 1 else p
  }

  /** The design matrix: X, with a leading ones column when there is an intercept. */
  function Design(intercept: bool, x: Matrix): (d: Matrix)
    ensures |d| == |x|
    ensures forall p: nat :: IsMatrix(x, |x|, p) ==> IsMatrix(d, |x|, Width(intercept, p))
    ensures intercept ==> forall i :: 0 <= i < |x| ==> |d[i]| == |x[i]| + 1 && d[i][0] == 1.0 && d[i][1..] == x[i]
    ensures !intercept ==> d == x
  {
    if intercept then Augment(x) else x
  }

  /** The Gram matrix DᵀD of a design with `w` columns. */
  function Gram(d: Matrix, w: nat): (a: Matrix)
    requires IsMatrix(d, |d|, w)
    ensures IsMatrix(a, w, w)
  {
    MatMul(Transpose(d, w), d, w)
  }

  /** `a` has an inverse. */
  ghost predicate Invertible(a: Matrix, n: nat)
  {
    exists g :: IsInverse(g, a, n)
  }

  /** β solves the normal equations (DᵀD)·β = Dᵀ·y of least squares. */
  ghost predicate NormalEquations(d: Matrix, w: nat, beta: Vector, y: Vector)
    requires IsMatrix(d, |d|, w)
  {
    |beta| == w && |y| == |d| && MatVec(Gram(d, w), beta) == MatVec(Transpose(d, w), y)
  }

  /** What the caller's inverse must be: the inverse of the Gram matrix when it has one, absent otherwise. */
  ghost predicate InverseOfGram(intercept: bool, x: Matrix, p: nat, gramInverse: Option<Matrix>)
    requires IsMatrix(x, |x|, p)
  {
    var w := Width(intercept, p);
    var a := Gram(Design(intercept, x), w);
    match gramInverse
    case Some(g) => IsInverse(g, a, w)
    case None => !Invertible(a, w)
  }

  /** (DᵀD)⁻¹·Dᵀ·y satisfies the normal equations. */
  lemma SolvesNormalEquations(d: Matrix, w: nat, g: Matrix, y: Vector)
    requires IsMatrix(d, |d|, w) && |y| == |d|
    requires IsInverse(g, Gram(d, w), w)
    ensures NormalEquations(d, w, MatVec(MatMul(g, Transpose(d, w), |d|), y), y)
  {
    var t := Transpose(d, w);
    var a := Gram(d, w);
    var z := MatVec(t, y);
    MatVecOfProduct(g, t, |d|, y);
    MatVecOfProduct(a, g, w, z);
    MatVecIdentity(w, z);
  }

  /**
   * Fits the estimator (`fit`). `inv` is evaluated first, so a singular DᵀD is
   * reported before a response of the wrong length. On success the intercept
   * flag is kept, and the new coefficients replace any earlier ones and solve
   * the normal equations.
   */
  function Fit(e: Estimator, x: Matrix, p: nat, y: Vector, gramInverse: Option<Matrix>): (r: Result<Estimator, RegressionError>)
    requires IsMatrix(x, |x|, p)
    requires InverseOfGram(e.intercept, x, p, gramInverse)
    ensures r.Success? <==> gramInverse.Some? && |y| == |x|
    ensures gramInverse.None? ==> r == Failure(SingularMatrix)
    ensures gramInverse.Some? && |y| != |x| ==> r == Failure(ShapeMismatch)
    ensures r.Success? ==> r.value.intercept == e.intercept && r.value.coeffs.Some?
    ensures r.Success? ==> NormalEquations(Design(e.intercept, x), Width(e.intercept, p), r.value.coeffs.value, y)
  {
    var w := Width(e.intercept, p);
    var d := Design(e.intercept, x);
    if gramInverse.None? then Failure(SingularMatrix)
    else if |y| != |x| then Failure(ShapeMismatch)
    else
      var g := gramInverse.value;
      SolvesNormalEquations(d, w, g, y);
      Success(Estimator(e.intercept, Some(MatVec(MatMul(g, Transpose(d, w), |x|), y))))
  }

  /** A fit does not depend on the coefficients stored before it. */
  lemma FitForgetsPreviousCoeffs(e: Estimator, x: Matrix, p: nat, y: Vector, gramInverse: Option<Matrix>, earlier: Option<Vector>)
    requires IsMatrix(x, |x|, p)
    requires InverseOfGram(e.intercept, x, p, gramInverse)
    ensures Fit(Estimator(e.intercept, earlier), x, p, y, gramInverse) == Fit(e, x, p, y, gramInverse)
  {
  }

  /** When y is exactly D·β*, fitting recovers β*. */
  lemma FitRecoversExactModel(e: Estimator, x: Matrix, p: nat, y: Vector, gramInverse: Option<Matrix>, beta: Vector)
    requires IsMatrix(x, |x|, p)
    requires InverseOfGram(e.intercept, x, p, gramInverse) && gramInverse.Some?
    requires |beta| == Width(e.intercept, p)
    requires y == MatVec(Design(e.intercept, x), beta)
    ensures Fit(e, x, p, y, gramInverse) == Success(Estimator(e.intercept, Some(beta)))
  {
    var w := Width(e.intercept, p);
    var d := Design(e.intercept, x);
    var t := Transpose(d, w);
    var a := Gram(d, w);
    var g := gramInverse.value;
    MatVecOfProduct(g, t, |d|, y);
    MatVecOfProduct(t, d, w, beta);
    MatVecOfProduct(g, a, w, beta);
    MatVecIdentity(w, beta);
  }

  /**
   * Predicts the response of each row (`predict`): the dot product of the
   * design row with the coefficients. Unfitted estimators and rows whose
   * width does not match the coefficients are errors.
   */
  function Predict(e: Estimator, x: Matrix, p: nat): (r: Result<Vector, RegressionError>)
    requires IsMatrix(x, |x|, p)
    ensures e.coeffs.None? ==> r == Failure(NotFitted)
    ensures e.coeffs.Some? ==> (r.Success? <==> |e.coeffs.value| == Width(e.intercept, p))
    ensures r.Failure? && e.coeffs.Some? ==> r.error == ShapeMismatch
    ensures r.Success? ==> |r.value| == |x|
    ensures r.Success? ==> forall i :: 0 <= i < |x| ==> r.value[i] == Dot(Design(e.intercept, x)[i], e.coeffs.value)
  {
    match e.coeffs
    case None => Failure(NotFitted)
    case Some(beta) =>
      if |beta| != Width(e.intercept, p) then Failure(ShapeMismatch)
      else Success(MatVec(Design(e.intercept, x), beta))
  }

  /** With an intercept, each prediction is β₀ plus the row's dot product with the other coefficients. */
  lemma PredictWithIntercept(e: Estimator, x: Matrix, p: nat, i: nat)
    requires IsMatrix(x, |x|, p) && e.intercept
    requires Predict(e, x, p).Success? && i < |x|
    ensures |e.coeffs.value| == p + 1
    ensures Predict(e, x, p).value[i] == e.coeffs.value[0] + Dot(x[i], e.coeffs.value[1..])
  {
    var d := Design(true, x);
    assert d[i] == [1.0] + x[i];
    DotWithLeadingOne(x[i], e.coeffs.value);
  }

  /** Predicting on the training rows of an exact linear model gives back the responses. */
  lemma PredictAfterExactFit(e: Estimator, x: Matrix, p: nat, y: Vector, gramInverse: Option<Matrix>, beta: Vector)
    requires IsMatrix(x, |x|, p)
    requires InverseOfGram(e.intercept, x, p, gramInverse) && gramInverse.Some?
    requires |beta| == Width(e.intercept, p)
    requires y == MatVec(Design(e.intercept, x), beta)
    ensures Fit(e, x, p, y, gramInverse).Success?
    ensures Predict(Fit(e, x, p, y, gramInverse).value, x, p) == Success(y)
  {
    FitRecoversExactModel(e, x, p, y, gramInverse, beta);
  }

  /** Residual sum of squares Σ (y - ŷ)². */
  function ResidualSum(y: Vector, yhat: Vector): (s: real)
    requires |y| == |yhat|
    ensures 0.0 <= s
  {
    if |y| == 0 then 0.0
    else
      SquareSign(Dev(y[0], yhat[0]));
      Dev(y[0], yhat[0]) * Dev(y[0], yhat[0]) + ResidualSum(y[1..], yhat[1..])
  }

  /** Predictions that equal the responses leave no residual. */
  lemma {:induction false} ResidualOfExact(y: Vector)
    ensures ResidualSum(y, y) == 0.0
  {
    if |y| > 0 {
      ResidualOfExact(y[1..]);
      SquareSign(Dev(y[0], y[0]));
    }
  }

  /**
   * The coefficient of determination R² = 1 - SSres/SStot of the estimator's
   * predictions on X (`determination_coefficient`). Prediction errors are
   * passed on. R² never exceeds 1, and equals 1 exactly when the residual sum
   * vanishes.
   */
  function DeterminationCoefficient(e: Estimator, x: Matrix, p: nat, y: Vector): (r: Result<real, RegressionError>)
    requires IsMatrix(x, |x|, p)
    requires SquareSum(y) != 0.0
    ensures Predict(e, x, p).Failure? ==> r == Failure(Predict(e, x, p).error)
    ensures Predict(e, x, p).Success? ==> (r.Success? <==> |Predict(e, x, p).value| == |y|)
    ensures r.Failure? && Predict(e, x, p).Success? ==> r.error == ShapeMismatch
    ensures r.Success? ==> (1.0 - r.value) * SquareSum(y) == ResidualSum(y, Predict(e, x, p).value)
    ensures r.Success? ==> r.value <= 1.0
    ensures r.Success? ==> (r.value == 1.0 <==> ResidualSum(y, Predict(e, x, p).value) == 0.0)
  {
    match Predict(e, x, p)
    case Failure(err) => Failure(err)
    case Success(yhat) =>
      if |yhat| != |y| then Failure(ShapeMismatch)
      else
        var ratio := ResidualSum(y, yhat) / SquareSum(y);
        DivisionFacts(ResidualSum(y, yhat), SquareSum(y));
        Success(1.0 - ratio)
  }

  /** A non-negative numerator over a positive denominator. */
  lemma DivisionFacts(a: real, b: real)
    requires 0.0 <= a && 0.0 < b
    ensures 0.0 <= a / b
    ensures (a / b) * b == a
    ensures a / b == 0.0 <==> a == 0.0
  {
  }

  /** An exact linear model, fitted and scored on its own rows, has R² = 1. */
  lemma ExactFitHasUnitDetermination(e: Estimator, x: Matrix, p: nat, y: Vector, gramInverse: Option<Matrix>, beta: Vector)
    requires IsMatrix(x, |x|, p)
    requires InverseOfGram(e.intercept, x, p, gramInverse) && gramInverse.Some?
    requires |beta| == Width(e.intercept, p)
    requires y == MatVec(Design(e.intercept, x), beta)
    requires SquareSum(y) != 0.0
    ensures Fit(e, x, p, y, gramInverse).Success?
    ensures DeterminationCoefficient(Fit(e, x, p, y, gramInverse).value, x, p, y) == Success(1.0)
  {
    PredictAfterExactFit(e, x, p, y, gramInverse, beta);
    ResidualOfExact(y);
  }
}
