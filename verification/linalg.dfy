/**
 * Dense vectors and matrices over exact reals, as sequences and sequences of
 * rows: the numpy operations the estimator uses (`@`, `.T`, `hstack` with a
 * ones column), and the facts about them its contract needs.
 */
module LinearAlgebra {

  type Vector = seq<real>
  type Matrix = seq<Vector>

  /** Σ_{k < n} f(k). */
  function Sigma(n: nat, f: nat -> real): real
  {
    if n == 0 then 0.0 else Sigma(n - 1, f) + f(n - 1)
  }

  /** Sums of terms that agree below `n` agree. */
  lemma {:induction false} SigmaExt(n: nat, f: nat -> real, g: nat -> real)
    requires forall k: nat :: k < n ==> f(k) == g(k)
    ensures Sigma(n, f) == Sigma(n, g)
  {
    if n > 0 {
      SigmaExt(n - 1, f, g);
    }
  }

  /** A sum of termwise sums is the sum of the two sums. */
  lemma {:induction false} SigmaAdd(n: nat, f: nat -> real, g: nat -> real, h: nat -> real)
    requires forall k: nat :: k < n ==> h(k) == f(k) + g(k)
    ensures Sigma(n, h) == Sigma(n, f) + Sigma(n, g)
  {
    if n > 0 {
      SigmaAdd(n - 1, f, g, h);
    }
  }

  /** A constant factor comes out of a sum. */
  lemma {:induction false} SigmaScale(n: nat, c: real, f: nat -> real, h: nat -> real)
    requires forall k: nat :: k < n ==> h(k) == c * f(k)
    ensures Sigma(n, h) == c * Sigma(n, f)
  {
    if n > 0 {
      SigmaScale(n - 1, c, f, h);
    }
  }

  /** A sum whose only non-zero term is at `i` equals that term. */
  lemma {:induction false} SigmaSingle(n: nat, i: nat, f: nat -> real)
    requires i < n
    requires forall k: nat :: k < n && k != i ==> f(k) == 0.0
    ensures Sigma(n, f) == f(i)
  {
    if n - 1 != i {
      SigmaSingle(n - 1, i, f);
    } else {
      SigmaZero(n - 1, f);
    }
  }

  /** A sum of zeros is zero. */
  lemma {:induction false} SigmaZero(n: nat, f: nat -> real)
    requires forall k: nat :: k < n ==> f(k) == 0.0
    ensures Sigma(n, f) == 0.0
  {
    if n > 0 {
      SigmaZero(n - 1, f);
    }
  }

  /** The order of a double sum can be exchanged. */
  lemma {:induction false} SigmaSwap(m: nat, q: nat, g: nat -> nat -> real)
    ensures Sigma(m, (j: nat) => Sigma(q, (k: nat) => g(j)(k))) == Sigma(q, (k: nat) => Sigma(m, (j: nat) => g(j)(k)))
  {
    if m > 0 {
      SigmaSwap(m - 1, q, g);
      SigmaAdd(q, (k: nat) => Sigma(m - 1, (j: nat) => g(j)(k)), (k: nat) => g(m - 1)(k), (k: nat) => Sigma(m, (j: nat) => g(j)(k)));
    } else {
      SigmaZero(q, (k: nat) => Sigma(m, (j: nat) => g(j)(k)));
    }
  }

  /** Dot product Σ u[k]·v[k]. */
  function Dot(u: Vector, v: Vector): real
    requires |u| == |v|
  {
    Sigma(|u|, (k: nat) => if k < |u| then u[k] * v[k] else 0.0)
  }

  /** `m` has `rows` rows of `cols` entries each. */
  ghost predicate IsMatrix(m: Matrix, rows: nat, cols: nat)
  {
    |m| == rows && forall i :: 0 <= i < |m| ==> |m[i]| == cols
  }

  /** Matrix times vector (`m @ v`): one dot product per row. */
  function MatVec(m: Matrix, v: Vector): (r: Vector)
    requires forall i :: 0 <= i < |m| ==> |m[i]| == |v|
    ensures |r| == |m|
    ensures forall i :: 0 <= i < |m| ==> r[i] == Dot(m[i], v)
  {
    seq(|m|, i requires 0 <= i < |m| => Dot(m[i], v))
  }

  /** Column `k` of `m`. */
  function Column(m: Matrix, k: nat): (c: Vector)
    requires forall i :: 0 <= i < |m| ==> k < |m[i]|
    ensures |c| == |m|
    ensures forall i :: 0 <= i < |m| ==> c[i] == m[i][k]
  {
    seq(|m|, i requires 0 <= i < |m| => m[i][k])
  }

  /** The transpose (`m.T`) of a matrix with `cols` columns. */
  function Transpose(m: Matrix, cols: nat): (t: Matrix)
    requires IsMatrix(m, |m|, cols)
    ensures IsMatrix(t, cols, |m|)
    ensures forall k, i :: 0 <= k < cols && 0 <= i < |m| ==> t[k][i] == m[i][k]
  {
    seq(cols, (k: int) requires 0 <= k < cols => Column(m, k))
  }

  /** Matrix product (`a @ b`) of `a` with |b| columns and `b` with `q` columns. */
  function MatMul(a: Matrix, b: Matrix, q: nat): (r: Matrix)
    requires IsMatrix(a, |a|, |b|) && IsMatrix(b, |b|, q)
    ensures IsMatrix(r, |a|, q)
    ensures forall i, k :: 0 <= i < |a| && 0 <= k < q ==> r[i][k] == Dot(a[i], Column(b, k))
  {
    seq(|a|, i requires 0 <= i < |a| => seq(q, (k: int) requires 0 <= k < q => Dot(a[i], Column(b, k))))
  }

  /** The n × n identity matrix. */
  function Identity(n: nat): (e: Matrix)
    ensures IsMatrix(e, n, n)
    ensures forall i, j :: 0 <= i < n && 0 <= j < n ==> e[i][j] == if i == j then 1.0 else 0.0
  {
    seq(n, i => seq(n, j => if i == j then 1.0 else 0.0))
  }

  /** `g` is the two-sided inverse of the n × n matrix `a`. */
  ghost predicate IsInverse(g: Matrix, a: Matrix, n: nat)
  {
    && IsMatrix(g, n, n) && IsMatrix(a, n, n)
    && MatMul(a, g, n) == Identity(n)
    && MatMul(g, a, n) == Identity(n)
  }

  /** The terms x[j]·b[j][k]·v[k] of the double sum behind (x·B)·v = x·(B·v). */
  function Term(x: Vector, b: Matrix, q: nat, v: Vector): nat -> nat -> real
    requires IsMatrix(b, |x|, q) && |v| == q
  {
    (j: nat) => (k: nat) => if j < |x| && k < q then x[j] * (b[j][k] * v[k]) else 0.0
  }

  /** Reassociating a product of three factors. */
  lemma Rearrange(a: real, c: real, d: real)
    ensures a * (c * d) == d * (a * c)
  {
  }

  /** One term of (x·B)·v, expanded as a sum over the rows of `b`. */
  lemma ColumnTerm(x: Vector, b: Matrix, q: nat, v: Vector, k: nat)
    requires IsMatrix(b, |x|, q) && |v| == q && k < q
    ensures Dot(x, Column(b, k)) * v[k] == Sigma(|x|, (j: nat) => Term(x, b, q, v)(j)(k))
  {
    var col := Column(b, k);
    forall j: nat | j < |x|
      ensures Term(x, b, q, v)(j)(k) == v[k] * (x[j] * col[j])
    {
      Rearrange(x[j], b[j][k], v[k]);
    }
    SigmaScale(|x|, v[k], (j: nat) => if j < |x| then x[j] * col[j] else 0.0, (j: nat) => Term(x, b, q, v)(j)(k));
  }

  /** One term of x·(B·v), expanded as a sum over the columns of `b`. */
  lemma RowTerm(x: Vector, b: Matrix, q: nat, v: Vector, j: nat)
    requires IsMatrix(b, |x|, q) && |v| == q && j < |x|
    ensures x[j] * Dot(b[j], v) == Sigma(q, (k: nat) => Term(x, b, q, v)(j)(k))
  {
    var bj := b[j];
    forall k: nat | k < q
      ensures Term(x, b, q, v)(j)(k) == x[j] * (bj[k] * v[k])
    {
    }
    SigmaScale(q, x[j], (k: nat) => if k < |bj| then bj[k] * v[k] else 0.0, (k: nat) => Term(x, b, q, v)(j)(k));
  }

  /** (x·B)·v as a double sum, columns outside. */
  lemma ColumnsOutside(x: Vector, b: Matrix, q: nat, v: Vector)
    requires IsMatrix(b, |x|, q) && |v| == q
    ensures Dot(seq(q, (k: int) requires 0 <= k < q => Dot(x, Column(b, k))), v)
         == Sigma(q, (k: nat) => Sigma(|x|, (j: nat) => Term(x, b, q, v)(j)(k)))
  {
    var row := seq(q, (k: int) requires 0 <= k < q => Dot(x, Column(b, k)));
    forall k: nat | k < q
      ensures row[k] * v[k] == Sigma(|x|, (j: nat) => Term(x, b, q, v)(j)(k))
    {
      ColumnTerm(x, b, q, v, k);
    }
    SigmaExt(q, (k: nat) => if k < |row| then row[k] * v[k] else 0.0,
                (k: nat) => Sigma(|x|, (j: nat) => Term(x, b, q, v)(j)(k)));
  }

  /** x·(B·v) as a double sum, rows outside. */
  lemma RowsOutside(x: Vector, b: Matrix, q: nat, v: Vector)
    requires IsMatrix(b, |x|, q) && |v| == q
    ensures |MatVec(b, v)| == |x|
    ensures Dot(x, MatVec(b, v)) == Sigma(|x|, (j: nat) => Sigma(q, (k: nat) => Term(x, b, q, v)(j)(k)))
  {
    var w := MatVec(b, v);
    forall j: nat | j < |x|
      ensures x[j] * w[j] == Sigma(q, (k: nat) => Term(x, b, q, v)(j)(k))
    {
      RowTerm(x, b, q, v, j);
    }
    SigmaExt(|x|, (j: nat) => if j < |x| then x[j] * w[j] else 0.0,
                  (j: nat) => Sigma(q, (k: nat) => Term(x, b, q, v)(j)(k)));
  }

  /** One row of the associativity law: (x·B)·v = x·(B·v). */
  lemma RowAssociates(x: Vector, b: Matrix, q: nat, v: Vector)
    requires IsMatrix(b, |x|, q) && |v| == q
    ensures |MatVec(b, v)| == |x|
    ensures Dot(seq(q, (k: int) requires 0 <= k < q => Dot(x, Column(b, k))), v) == Dot(x, MatVec(b, v))
  {
    ColumnsOutside(x, b, q, v);
    RowsOutside(x, b, q, v);
    SigmaSwap(|x|, q, Term(x, b, q, v));
  }

  /** Applying a product of matrices is applying the factors in turn: (A·B)·v = A·(B·v). */
  lemma MatVecOfProduct(a: Matrix, b: Matrix, q: nat, v: Vector)
    requires IsMatrix(a, |a|, |b|) && IsMatrix(b, |b|, q) && |v| == q
    ensures |MatVec(b, v)| == |b|
    ensures MatVec(MatMul(a, b, q), v) == MatVec(a, MatVec(b, v))
  {
    var ab := MatMul(a, b, q);
    var w := MatVec(b, v);
    forall i | 0 <= i < |a|
      ensures MatVec(ab, v)[i] == MatVec(a, w)[i]
    {
      assert ab[i] == seq(q, (k: int) requires 0 <= k < q => Dot(a[i], Column(b, k)));
      RowAssociates(a[i], b, q, v);
    }
  }

  /** The identity matrix leaves every vector unchanged. */
  lemma MatVecIdentity(n: nat, v: Vector)
    requires |v| == n
    ensures MatVec(Identity(n), v) == v
  {
    var e := Identity(n);
    forall i | 0 <= i < n
      ensures MatVec(e, v)[i] == v[i]
    {
      var row := e[i];
      SigmaSingle(n, i, (k: nat) => if k < |row| then row[k] * v[k] else 0.0);
    }
  }

  /** A sum split into its first term and the shifted rest. */
  lemma {:induction false} SigmaShift(n: nat, f: nat -> real)
    ensures Sigma(n + 1, f) == f(0) + Sigma(n, (k: nat) => f(k + 1))
  {
    if n > 0 {
      SigmaShift(n - 1, f);
    }
  }

  /** Each row with a leading 1 (`np.hstack((np.ones((n, 1)), X))`). */
  function Augment(x: Matrix): (d: Matrix)
    ensures |d| == |x|
    ensures forall i :: 0 <= i < |x| ==> |d[i]| == |x[i]| + 1 && d[i][0] == 1.0 && d[i][1..] == x[i]
  {
    seq(|x|, i requires 0 <= i < |x| => [1.0] + x[i])
  }

  /** A dot product with a leading 1 is the first coefficient plus the dot product of the rest. */
  lemma DotWithLeadingOne(x: Vector, beta: Vector)
    requires |beta| == |x| + 1
    ensures Dot([1.0] + x, beta) == beta[0] + Dot(x, beta[1..])
  {
    var u := [1.0] + x;
    var rest := beta[1..];
    var f: nat -> real := (k: nat) => if k < |u| then u[k] * beta[k] else 0.0;
    SigmaShift(|x|, f);
    SigmaExt(|x|, (k: nat) => f(k + 1), (k: nat) => if k < |x| then x[k] * rest[k] else 0.0);
  }
}
