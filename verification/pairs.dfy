/**
 * The pair loop of `summary` in Linearmodel/statistics.py: for i over the
 * numeric columns and j from i + 1 on, each unordered pair of distinct
 * columns is visited exactly once, in lexicographic order of (i, j).
 */
module Pairs {

  /** (i, j) comes strictly before (p, q) in lexicographic order. */
  predicate LexLess(a: (nat, nat), b: (nat, nat))
  {
    a.0 < b.0 || (a.0 == b.0 && a.1 < b.1)
  }

  /** The number of pairs visited in the first `i` rows of the outer loop over `k` columns. */
  function RowsBefore(i: nat, k: nat): nat
    requires i <= k
  {
    if i == 0 then 0 else RowsBefore(i - 1, k) + (k - i)
  }

  /** The rows before `i` hold i(2k - i - 1)/2 pairs. */
  lemma {:induction false} RowsBeforeClosedForm(i: nat, k: nat)
    requires i <= k
    ensures 2 * RowsBefore(i, k) == i * (2 * k - i - 1)
  {
    if i > 0 {
      RowsBeforeClosedForm(i - 1, k);
      assert (i - 1) * (2 * k - (i - 1) - 1) + 2 * (k - i) == i * (2 * k - i - 1);
    }
  }

  /** The index pairs the nested loops visit, in visiting order. */
  method CorrelationPairs(k: nat) returns (pairs: seq<(nat, nat)>)
    ensures |pairs| == k * (k - 1) / 2
    ensures forall n :: 0 <= n < |pairs| ==> pairs[n].0 < pairs[n].1 < k
    ensures forall i, j :: 0 <= i < j < k ==> (i, j) in pairs
    ensures forall a, b :: 0 <= a < b < |pairs| ==> LexLess(pairs[a], pairs[b])
  {
    pairs := [];
    var i := 0;
    while i < k
      invariant 0 <= i <= k
      invariant |pairs| == RowsBefore(i, k)
      invariant forall n :: 0 <= n < |pairs| ==> pairs[n].0 < i && pairs[n].0 < pairs[n].1 < k
      invariant forall p, q :: 0 <= p < i && p < q < k ==> (p, q) in pairs
      invariant forall a, b :: 0 <= a < b < |pairs| ==> LexLess(pairs[a], pairs[b])
    {
      var j := i + 1;
      while j < k
        invariant i + 1 <= j <= k
        invariant |pairs| == RowsBefore(i, k) + (j - i - 1)
        invariant forall n :: 0 <= n < |pairs| ==>
          (pairs[n].0 < i || (pairs[n].0 == i && pairs[n].1 < j)) && pairs[n].0 < pairs[n].1 < k
        invariant forall p, q :: 0 <= p < i && p < q < k ==> (p, q) in pairs
        invariant forall q :: i < q < j ==> (i, q) in pairs
        invariant forall a, b :: 0 <= a < b < |pairs| ==> LexLess(pairs[a], pairs[b])
      {
        pairs := pairs + [(i, j)];
        j := j + 1;
      }
      i := i + 1;
    }
    RowsBeforeClosedForm(k, k);
  }
}
