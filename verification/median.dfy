/**
 * Median of one numeric column (`calculate_median` in
 * Linearmodel/statistics.py): sort, then take the middle value, or the
 * average of the two middle values when the count is even; 0.0 when empty.
 */
module Medians {
  import opened Sorting

  /** The middle of an already sorted sequence, by the rule above. */
  function Middle(t: seq<real>): real
  {
    var n := |t|;
    if n == 0 then 0.0
    else if n % 2 == 1 then t[n / 2]
    else (t[n / 2 - 1] + t[n / 2]) / 2.0
  }

  /** The median of a column. */
  function Median(s: seq<real>): (m: real)
    ensures |s| == 0 ==> m == 0.0
    ensures |s| % 2 == 1 ==> m in s
  {
    var t := SortedOf(s);
    if |t| % 2 == 1 then
      assert t[|t| / 2] in multiset(s);
      Middle(t)
    else Middle(t)
  }

  /** Which side of a value is being counted. */
  datatype Side = Below | Above

  /** `x` lies strictly on the given side of `m`. */
  predicate Beyond(x: real, m: real, side: Side)
  {
    match side
    case Below => x < m
    case Above => m < x
  }

  /** The number of values lying strictly on the given side of `m`. */
  function CountBeyond(s: seq<real>, m: real, side: Side): (k: nat)
    ensures k <= |s|
  {
    if |s| == 0 then 0
    else (if Beyond(s[0], m, side) then 1 else 0) + CountBeyond(s[1..], m, side)
  }

  /** Inserting a value adds it to the count exactly when it lies on the counted side. */
  lemma {:induction false} CountBeyondInsert(x: real, t: seq<real>, m: real, side: Side)
    requires Sorted(t)
    ensures CountBeyond(Insert(x, t), m, side)
         == (if Beyond(x, m, side) then 1 else 0) + CountBeyond(t, m, side)
    decreases |t|
  {
    if |t| > 0 && t[0] < x {
      CountBeyondInsert(x, t[1..], m, side);
      assert Insert(x, t)[1..] == Insert(x, t[1..]);
    } else if |t| > 0 {
      assert Insert(x, t)[1..] == t;
    }
  }

  /** Sorting does not change how many values lie on either side of `m`. */
  lemma {:induction false} CountBeyondSortedOf(s: seq<real>, m: real, side: Side)
    ensures CountBeyond(SortedOf(s), m, side) == CountBeyond(s, m, side)
  {
    if |s| > 0 {
      CountBeyondSortedOf(s[1..], m, side);
      CountBeyondInsert(s[0], SortedOf(s[1..]), m, side);
    }
  }

  /** Counting over a concatenation adds the counts of the two parts. */
  lemma {:induction false} CountBeyondAppend(a: seq<real>, b: seq<real>, m: real, side: Side)
    ensures CountBeyond(a + b, m, side) == CountBeyond(a, m, side) + CountBeyond(b, m, side)
  {
    if |a| == 0 {
      assert a + b == b;
    } else {
      assert (a + b)[0] == a[0];
      assert (a + b)[1..] == a[1..] + b;
      CountBeyondAppend(a[1..], b, m, side);
    }
  }

  /** A sequence with no value on the counted side has count 0. */
  lemma {:induction false} CountBeyondNone(s: seq<real>, m: real, side: Side)
    requires forall i :: 0 <= i < |s| ==> !Beyond(s[i], m, side)
    ensures CountBeyond(s, m, side) == 0
  {
    if |s| > 0 {
      CountBeyondNone(s[1..], m, side);
    }
  }

  /** Counts of the values strictly below `m` and strictly above it, in a sorted sequence. */
  lemma CountsAroundMiddle(t: seq<real>, k: nat, m: real)
    requires Sorted(t) && k <= |t|
    requires forall i :: k <= i < |t| ==> m <= t[i]
    ensures CountBeyond(t, m, Below) <= k
  {
    assert t == t[..k] + t[k..];
    CountBeyondAppend(t[..k], t[k..], m, Below);
    CountBeyondNone(t[k..], m, Below);
  }

  /** Counts of the values strictly above `m` in a sorted sequence. */
  lemma CountsAboveMiddle(t: seq<real>, k: nat, m: real)
    requires Sorted(t) && k <= |t|
    requires forall i :: 0 <= i < k ==> t[i] <= m
    ensures CountBeyond(t, m, Above) <= |t| - k
  {
    assert t == t[..k] + t[k..];
    CountBeyondAppend(t[..k], t[k..], m, Above);
    CountBeyondNone(t[..k], m, Above);
  }

  /** In a sorted sequence, every value from position `k` on is at least the value at `k`. */
  lemma SortedFrom(t: seq<real>, k: nat)
    requires Sorted(t) && k < |t|
    ensures forall i :: k <= i < |t| ==> t[k] <= t[i]
  {
  }

  /** In a sorted sequence, every value up to position `k` is at most the value at `k`. */
  lemma SortedUpTo(t: seq<real>, k: nat)
    requires Sorted(t) && k < |t|
    ensures forall i :: 0 <= i <= k ==> t[i] <= t[k]
  {
  }

  /** The middle of a sorted sequence splits it into two halves of at most |t| / 2 values each. */
  lemma MiddleSplits(t: seq<real>)
    requires Sorted(t)
    ensures CountBeyond(t, Middle(t), Below) <= |t| / 2
    ensures CountBeyond(t, Middle(t), Above) <= |t| / 2
  {
    var n := |t|;
    var m := Middle(t);
    if n > 0 && n % 2 == 1 {
      assert m == t[n / 2];
      SortedFrom(t, n / 2);
      SortedUpTo(t, n / 2);
      CountsAroundMiddle(t, n / 2, m);
      CountsAboveMiddle(t, n / 2 + 1, m);
    } else if n > 0 {
      var lo, hi := t[n / 2 - 1], t[n / 2];
      assert m == (lo + hi) / 2.0;
      assert lo <= hi;
      SortedFrom(t, n / 2);
      SortedUpTo(t, n / 2 - 1);
      CountsAroundMiddle(t, n / 2, m);
      CountsAboveMiddle(t, n / 2, m);
    }
  }

  /**
   * The median splits the column: at most half of the values (rounded
   * down) lie strictly below it, and at most half strictly above it.
   */
  lemma MedianSplitsColumn(s: seq<real>)
    ensures CountBeyond(s, Median(s), Below) <= |s| / 2
    ensures CountBeyond(s, Median(s), Above) <= |s| / 2
  {
    var t := SortedOf(s);
    assert Median(s) == Middle(t);
    assert |t| == |s| by {
      assert |multiset(t)| == |multiset(s)|;
    }
    CountBeyondSortedOf(s, Median(s), Below);
    CountBeyondSortedOf(s, Median(s), Above);
    MiddleSplits(t);
  }

  /** The median depends only on the contents of the column, not on its order. */
  lemma MedianPermutationInvariant(s: seq<real>, t: seq<real>)
    requires multiset(s) == multiset(t)
    ensures Median(s) == Median(t)
  {
    SortedOfPermutation(s, t);
  }

  /** For a sorted column the median is read off the middle directly. */
  lemma MedianOfSorted(s: seq<real>)
    requires Sorted(s)
    ensures |s| % 2 == 1 ==> Median(s) == s[|s| / 2]
    ensures |s| > 0 && |s| % 2 == 0 ==> Median(s) == (s[|s| / 2 - 1] + s[|s| / 2]) / 2.0
  {
    SortedOfSorted(s);
  }

  /** The column [1, 3, 2, 5, 4] has median 3. */
  lemma MedianExample()
    ensures Median([1.0, 3.0, 2.0, 5.0, 4.0]) == 3.0
  {
    var s, t := [1.0, 3.0, 2.0, 5.0, 4.0], [1.0, 2.0, 3.0, 4.0, 5.0];
    ExampleContents();
    ExampleSorted();
    MedianPermutationInvariant(s, t);
    MedianOfOddSorted(t);
  }

  /** The example column and its sorted form hold the same values. */
  lemma ExampleContents()
    ensures multiset([1.0, 3.0, 2.0, 5.0, 4.0]) == multiset([1.0, 2.0, 3.0, 4.0, 5.0])
  {
    calc {
      multiset([1.0, 3.0, 2.0, 5.0, 4.0]);
      multiset{1.0, 3.0, 2.0, 5.0, 4.0};
      multiset{1.0, 2.0, 3.0, 4.0, 5.0};
      multiset([1.0, 2.0, 3.0, 4.0, 5.0]);
    }
  }

  /** The sorted form of the example column is ascending. */
  lemma ExampleSorted()
    ensures Sorted([1.0, 2.0, 3.0, 4.0, 5.0])
  {
    SortedByNeighbours([1.0, 2.0, 3.0, 4.0, 5.0]);
  }

  /** A sorted column of odd length has its middle value as median. */
  lemma MedianOfOddSorted(t: seq<real>)
    requires Sorted(t) && |t| % 2 == 1
    ensures Median(t) == t[|t| / 2]
  {
    MedianOfSorted(t);
  }
}
