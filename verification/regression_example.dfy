/**
 * The estimator's worked scenario: four rows of two explanatory columns whose
 * responses are exactly 3 + x₁ + 2·x₂. The Gram matrix of the design with an
 * intercept is invertible (its inverse is given and checked), fitting recovers
 * [3, 1, 2], predicting on two new rows gives [16, 8], and R² on the training
 * rows is 1.
 */
module RegressionExample {
  import opened Results
  import opened LinearAlgebra
  import opened Regression
  import Sums
  import Moments

  /** A dot product of three terms, written out. */
  lemma Dot3(u: Vector, v: Vector)
    requires |u| == 3 && |v| == 3
    ensures Dot(u, v) == u[0] * v[0] + u[1] * v[1] + u[2] * v[2]
  {
    var f: nat -> real := (k: nat) => if k < |u| then u[k] * v[k] else 0.0;
    assert Sigma(1, f) == f(0);
    assert Sigma(2, f) == f(0) + f(1);
  }

  /** A dot product of four terms, written out. */
  lemma Dot4(u: Vector, v: Vector)
    requires |u| == 4 && |v| == 4
    ensures Dot(u, v) == u[0] * v[0] + u[1] * v[1] + u[2] * v[2] + u[3] * v[3]
  {
    var f: nat -> real := (k: nat) => if k < |u| then u[k] * v[k] else 0.0;
    assert Sigma(1, f) == f(0);
    assert Sigma(2, f) == f(0) + f(1);
    assert Sigma(3, f) == f(0) + f(1) + f(2);
  }

  /** Two matrices of the same shape with the same entries are equal. */
  lemma SameEntries(a: Matrix, b: Matrix, rows: nat, cols: nat)
    requires IsMatrix(a, rows, cols) && IsMatrix(b, rows, cols)
    requires forall i, k :: 0 <= i < rows && 0 <= k < cols ==> a[i][k] == b[i][k]
    ensures a == b
  {
    forall i | 0 <= i < rows
      ensures a[i] == b[i]
    {
    }
  }

  /** The training rows. */
  function TrainingRows(): (x: Matrix)
    ensures IsMatrix(x, 4, 2)
  {
    [[1.0, 1.0], [1.0, 2.0], [2.0, 2.0], [2.0, 3.0]]
  }

  /** The coefficients the responses were generated from: intercept 3, then 1 and 2. */
  function TrueCoeffs(): Vector
  {
    [3.0, 1.0, 2.0]
  }

  /** The training responses. */
  function Responses(): Vector
  {
    [6.0, 8.0, 9.0, 11.0]
  }

  /** DᵀD of the training design with an intercept. */
  function ExampleGram(): (a: Matrix)
    ensures IsMatrix(a, 3, 3)
  {
    [[4.0, 6.0, 8.0], [6.0, 10.0, 13.0], [8.0, 13.0, 18.0]]
  }

  /** The inverse of ExampleGram (its adjugate over the determinant 4). */
  function ExampleInverse(): (g: Matrix)
    ensures IsMatrix(g, 3, 3)
  {
    [[2.75, -1.0, -0.5], [-1.0, 2.0, -1.0], [-0.5, -1.0, 1.0]]
  }

  /** The design of the training rows. */
  lemma ExampleDesign()
    ensures Design(true, TrainingRows()) == [[1.0, 1.0, 1.0], [1.0, 1.0, 2.0], [1.0, 2.0, 2.0], [1.0, 2.0, 3.0]]
  {
    var d := Design(true, TrainingRows());
    assert d[0] == [1.0, 1.0, 1.0] by { assert d[0] == [1.0] + [1.0, 1.0]; }
    assert d[1] == [1.0, 1.0, 2.0] by { assert d[1] == [1.0] + [1.0, 2.0]; }
    assert d[2] == [1.0, 2.0, 2.0] by { assert d[2] == [1.0] + [2.0, 2.0]; }
    assert d[3] == [1.0, 2.0, 3.0] by { assert d[3] == [1.0] + [2.0, 3.0]; }
  }

  /** The Gram matrix of the training design. */
  lemma ExampleGramIs()
    ensures Gram(Design(true, TrainingRows()), 3) == ExampleGram()
  {
    var d := Design(true, TrainingRows());
    ExampleDesign();
    var t := Transpose(d, 3);
    var a := Gram(d, 3);
    forall i, k | 0 <= i < 3 && 0 <= k < 3
      ensures a[i][k] == ExampleGram()[i][k]
    {
      Dot4(t[i], Column(d, k));
    }
    SameEntries(a, ExampleGram(), 3, 3);
  }

  /** ExampleGram · ExampleInverse is the identity. */
  lemma RightInverse()
    ensures MatMul(ExampleGram(), ExampleInverse(), 3) == Identity(3)
  {
    var a := ExampleGram();
    var g := ExampleInverse();
    var p := MatMul(a, g, 3);
    forall i, k | 0 <= i < 3 && 0 <= k < 3
      ensures p[i][k] == Identity(3)[i][k]
    {
      Dot3(a[i], Column(g, k));
    }
    SameEntries(p, Identity(3), 3, 3);
  }

  /** ExampleInverse · ExampleGram is the identity. */
  lemma LeftInverse()
    ensures MatMul(ExampleInverse(), ExampleGram(), 3) == Identity(3)
  {
    var a := ExampleGram();
    var g := ExampleInverse();
    var p := MatMul(g, a, 3);
    forall i, k | 0 <= i < 3 && 0 <= k < 3
      ensures p[i][k] == Identity(3)[i][k]
    {
      Dot3(g[i], Column(a, k));
    }
    SameEntries(p, Identity(3), 3, 3);
  }

  /** The training design's Gram matrix is invertible, with the inverse above. */
  lemma ExampleInverseOfGram()
    ensures InverseOfGram(true, TrainingRows(), 2, Some(ExampleInverse()))
  {
    ExampleGramIs();
    RightInverse();
    LeftInverse();
  }

  /** The responses are exactly D·[3, 1, 2]. */
  lemma ResponsesAreExact()
    ensures Responses() == MatVec(Design(true, TrainingRows()), TrueCoeffs())
  {
    var d := Design(true, TrainingRows());
    ExampleDesign();
    var yhat := MatVec(d, TrueCoeffs());
    forall i | 0 <= i < 4
      ensures yhat[i] == Responses()[i]
    {
      Dot3(d[i], TrueCoeffs());
    }
  }

  /** Fitting with an intercept recovers the coefficients [3, 1, 2]. */
  lemma FitExample()
    ensures InverseOfGram(true, TrainingRows(), 2, Some(ExampleInverse()))
    ensures Fit(New(true), TrainingRows(), 2, Responses(), Some(ExampleInverse()))
         == Success(Estimator(true, Some([3.0, 1.0, 2.0])))
  {
    ExampleInverseOfGram();
    ResponsesAreExact();
    FitRecoversExactModel(New(true), TrainingRows(), 2, Responses(), Some(ExampleInverse()), TrueCoeffs());
  }

  /** The fitted estimator predicts [16, 8] on the rows [3, 5] and [1, 2]. */
  lemma PredictExample()
    ensures Predict(Estimator(true, Some([3.0, 1.0, 2.0])), [[3.0, 5.0], [1.0, 2.0]], 2) == Success([16.0, 8.0])
  {
    var x: Matrix := [[3.0, 5.0], [1.0, 2.0]];
    assert IsMatrix(x, 2, 2);
    var e := Estimator(true, Some([3.0, 1.0, 2.0]));
    var d := Design(true, x);
    assert d[0] == [1.0, 3.0, 5.0] by { assert d[0] == [1.0] + [3.0, 5.0]; }
    assert d[1] == [1.0, 1.0, 2.0] by { assert d[1] == [1.0] + [1.0, 2.0]; }
    Dot3(d[0], [3.0, 1.0, 2.0]);
    Dot3(d[1], [3.0, 1.0, 2.0]);
    var r := Predict(e, x, 2);
    assert r.value == [16.0, 8.0];
  }

  /** The responses are not constant: their total sum of squares is 13. */
  lemma ResponsesSpread()
    ensures Moments.SquareSum(Responses()) == 13.0
  {
    var y := Responses();
    assert Sums.Sum(y) == 34.0;
    assert Moments.Mean(y) == 8.5;
  }

  /** R² of the fitted estimator on its training rows is 1. */
  lemma DeterminationExample()
    ensures InverseOfGram(true, TrainingRows(), 2, Some(ExampleInverse()))
    ensures Moments.SquareSum(Responses()) != 0.0
    ensures Fit(New(true), TrainingRows(), 2, Responses(), Some(ExampleInverse())).Success?
    ensures DeterminationCoefficient(Fit(New(true), TrainingRows(), 2, Responses(), Some(ExampleInverse())).value,
                                     TrainingRows(), 2, Responses()) == Success(1.0)
  {
    ExampleInverseOfGram();
    ResponsesAreExact();
    ResponsesSpread();
    ExactFitHasUnitDetermination(New(true), TrainingRows(), 2, Responses(), Some(ExampleInverse()), TrueCoeffs());
  }
}
