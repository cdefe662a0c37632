/**
 * Ascending sort of a column (Python's `list.sort` on numbers), as a
 * functional insertion sort. Its result is the unique sorted permutation of
 * the input, which is all the median relies on.
 */
module Sorting {

  /** The values never decrease from left to right. */
  ghost predicate Sorted(s: seq<real>)
  {
    forall i, j :: 0 <= i < j < |s| ==> s[i] <= s[j]
  }

  /** Neighbouring values never decrease: enough for the whole sequence to be sorted. */
  lemma {:induction false} SortedByNeighbours(s: seq<real>)
    requires forall i :: 0 < i < |s| ==> s[i - 1] <= s[i]
    ensures Sorted(s)
  {
    if |s| > 1 {
      var tail := s[1..];
      SortedByNeighbours(tail);
      forall i, j | 0 <= i < j < |s|
        ensures s[i] <= s[j]
      {
        if i == 0 {
          assert s[0] <= s[1] && s[1] == tail[0];
          if j > 1 {
            assert tail[0] <= tail[j - 1];
          }
        } else {
          assert tail[i - 1] <= tail[j - 1];
        }
      }
    }
  }

  /** Every value of `s` is at least `lo`. */
  ghost predicate AllAtLeast(s: seq<real>, lo: real)
  {
    forall i :: 0 <= i < |s| ==> lo <= s[i]
  }

  /** A value held in a multiset that holds only values at least `lo` is itself at least `lo`. */
  lemma AtLeastByContents(r: seq<real>, t: seq<real>, x: real, lo: real)
    requires multiset(r) == multiset(t) + multiset{x}
    requires AllAtLeast(t, lo) && lo <= x
    ensures AllAtLeast(r, lo)
  {
    forall i | 0 <= i < |r|
      ensures lo <= r[i]
    {
      assert r[i] in multiset(r);
      if r[i] != x {
        assert r[i] in multiset(t);
        var k :| 0 <= k < |t| && t[k] == r[i];
      }
    }
  }

  /** Inserts `x` into a sorted sequence, before the first value not smaller than it. */
  function Insert(x: real, t: seq<real>): (r: seq<real>)
    requires Sorted(t)
    ensures Sorted(r)
    ensures multiset(r) == multiset(t) + multiset{x}
    decreases |t|
  {
    if |t| == 0 then [x]
    else if x <= t[0] then [x] + t
    else
      var rest := Insert(x, t[1..]);
      assert t == [t[0]] + t[1..];
      AtLeastByContents(rest, t[1..], x, t[0]);
      [t[0]] + rest
  }

  /** The column in ascending order. */
  function SortedOf(s: seq<real>): (r: seq<real>)
    ensures Sorted(r)
    ensures multiset(r) == multiset(s)
  {
    if |s| == 0 then []
    else
      assert s == [s[0]] + s[1..];
      Insert(s[0], SortedOf(s[1..]))
  }

  /** The first value of a sorted sequence is its least value. */
  lemma HeadIsLeast(a: seq<real>, x: real)
    requires Sorted(a) && x in multiset(a)
    ensures |a| > 0 && a[0] <= x
  {
    var k :| 0 <= k < |a| && a[k] == x;
  }

  /** Removing the same first value from two sequences with the same contents leaves the same contents. */
  lemma TailContents(a: seq<real>, b: seq<real>)
    requires |a| > 0 && |b| > 0 && a[0] == b[0]
    requires multiset(a) == multiset(b)
    ensures multiset(a[1..]) == multiset(b[1..])
  {
    assert a == [a[0]] + a[1..];
    assert b == [b[0]] + b[1..];
    assert multiset(a[1..]) == multiset(a) - multiset{a[0]};
    assert multiset(b[1..]) == multiset(b) - multiset{b[0]};
  }

  /** Dropping the first value keeps a sequence sorted. */
  lemma SortedTail(a: seq<real>)
    requires Sorted(a) && |a| > 0
    ensures Sorted(a[1..])
  {
  }

  /** Two sorted sequences with the same contents are the same sequence. */
  lemma {:induction false} SortedUnique(a: seq<real>, b: seq<real>)
    requires Sorted(a) && Sorted(b)
    requires multiset(a) == multiset(b)
    ensures a == b
  {
    if |a| == 0 {
      assert |multiset(b)| == 0;
    } else {
      assert a[0] in multiset(a);
      HeadIsLeast(b, a[0]);
      assert b[0] in multiset(b);
      HeadIsLeast(a, b[0]);
      TailContents(a, b);
      SortedTail(a);
      SortedTail(b);
      SortedUnique(a[1..], b[1..]);
      assert a == [a[0]] + a[1..];
      assert b == [b[0]] + b[1..];
    }
  }

  /** Sorting depends only on the contents of the column, not on its order. */
  lemma SortedOfPermutation(s: seq<real>, t: seq<real>)
    requires multiset(s) == multiset(t)
    ensures SortedOf(s) == SortedOf(t)
  {
    SortedUnique(SortedOf(s), SortedOf(t));
  }

  /** An already sorted column is left as it is. */
  lemma SortedOfSorted(s: seq<real>)
    requires Sorted(s)
    ensures SortedOf(s) == s
  {
    SortedUnique(SortedOf(s), s);
  }
}
