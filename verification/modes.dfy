/**
 * Mode of one column (`calculate_mode` in Linearmodel/statistics.py): count
 * every value in one pass, then walk the counts in first-seen order and keep
 * a value only when its count is strictly greater than the best so far, so
 * that among tied values the first one seen wins.
 */
module Modes {
  import opened Results
  import opened Counting

  /**
   * `v` is the mode the two passes select: it occurs in `s`, no value occurs
   * more often, and every value first seen before it occurs strictly less often.
   */
  ghost predicate IsFirstMode<T(!new)>(s: seq<T>, v: T)
  {
    && v in s
    && (forall x :: x in s ==> Count(s, x) <= Count(s, v))
    && (forall i :: 0 <= i < FirstIndex(s, v) ==> Count(s, s[i]) < Count(s, v))
  }

  /** At most one value is the first-seen mode. */
  lemma FirstModeUnique<T(!new)>(s: seq<T>, v: T, w: T)
    requires IsFirstMode(s, v) && IsFirstMode(s, w)
    ensures v == w
  {
    var i, j := FirstIndex(s, v), FirstIndex(s, w);
    assert s[i] == v && s[j] == w;
    assert Count(s, v) == Count(s, w);
  }

  /** First pass: the count of every value, and the values in first-seen order. */
  method CountOccurrences<T(==,!new)>(s: seq<T>) returns (counts: map<T, nat>, keys: seq<T>)
    ensures keys == Keys(s)
    ensures forall x :: x in counts <==> x in s
    ensures forall x :: x in counts ==> counts[x] == Count(s, x)
  {
    counts, keys := map[], [];
    var i := 0;
    while i < |s|
      invariant 0 <= i <= |s|
      invariant keys == Keys(s[..i])
      invariant forall x :: x in counts <==> x in s[..i]
      invariant forall x :: x in counts ==> counts[x] == Count(s[..i], x)
    {
      var x := s[i];
      assert s[..i + 1] == s[..i] + [x];
      forall y ensures Count(s[..i + 1], y) == Count(s[..i], y) + (if y == x then 1 else 0) {
        CountAppend(s[..i], x, y);
      }
      if x in counts {
        counts := counts[x := counts[x] + 1];
      } else {
        counts := counts[x := 1];
        keys := keys + [x];
      }
      i := i + 1;
    }
    assert s[..i] == s;
  }

  /**
   * Second pass: walk the keys in order and keep a key only when its count
   * is strictly greater than the best so far. `best` is the position kept.
   */
  method FirstMaximum<T(==)>(keys: seq<T>, counts: map<T, nat>) returns (r: Option<T>, ghost best: nat)
    requires forall a :: 0 <= a < |keys| ==> keys[a] in counts && counts[keys[a]] > 0
    ensures r.None? <==> |keys| == 0
    ensures r.Some? ==> best < |keys| && keys[best] == r.value
    ensures r.Some? ==> forall a :: 0 <= a < |keys| ==> counts[keys[a]] <= counts[r.value]
    ensures r.Some? ==> forall a :: 0 <= a < best ==> counts[keys[a]] < counts[r.value]
  {
    r, best := None, 0;
    var maxCount: nat := 0;
    var j := 0;
    while j < |keys|
      invariant 0 <= j <= |keys|
      invariant r.None? <==> j == 0
      invariant r.None? ==> maxCount == 0
      invariant r.Some? ==> best < j && keys[best] == r.value && maxCount == counts[r.value]
      invariant forall a :: 0 <= a < j ==> counts[keys[a]] <= maxCount
      invariant r.Some? ==> forall a :: 0 <= a < best ==> counts[keys[a]] < maxCount
    {
      var x := keys[j];
      if counts[x] > maxCount {
        maxCount := counts[x];
        r := Some(x);
        best := j;
      }
      j := j + 1;
    }
  }

  /** The key the second pass keeps is the first-seen mode of the column. */
  lemma FirstMaximumIsFirstMode<T(!new)>(s: seq<T>, best: nat)
    requires best < |Keys(s)|
    requires forall a :: 0 <= a < |Keys(s)| ==> Count(s, Keys(s)[a]) <= Count(s, Keys(s)[best])
    requires forall a :: 0 <= a < best ==> Count(s, Keys(s)[a]) < Count(s, Keys(s)[best])
    ensures IsFirstMode(s, Keys(s)[best])
  {
    var keys := Keys(s);
    var v := keys[best];
    forall y | y in s
      ensures Count(s, y) <= Count(s, v)
    {
      var a :| 0 <= a < |keys| && keys[a] == y;
    }
    forall k | 0 <= k < FirstIndex(s, v)
      ensures Count(s, s[k]) < Count(s, v)
    {
      assert s[k] in keys;
      var a :| 0 <= a < |keys| && keys[a] == s[k];
      assert FirstIndex(s, s[k]) <= k;
      if best < a {
        KeysInFirstSeenOrder(s, best, a);
      }
    }
  }

  /** The mode of `s`, or None when `s` is empty. */
  method Mode<T(==,!new)>(s: seq<T>) returns (r: Option<T>)
    ensures r.None? <==> |s| == 0
    ensures r.Some? ==> IsFirstMode(s, r.value)
  {
    var counts, keys := CountOccurrences(s);
    forall a | 0 <= a < |keys|
      ensures keys[a] in counts && counts[keys[a]] > 0
    {
      assert keys[a] in s;
      assert keys[a] in multiset(s);
    }
    ghost var best;
    r, best := FirstMaximum(keys, counts);
    if r.Some? {
      FirstMaximumIsFirstMode(s, best);
    }
  }

  /** The column [1, 2, 2, 3, 4] has mode 2, and no other value qualifies. */
  lemma ModeExample(v: real)
    requires IsFirstMode([1.0, 2.0, 2.0, 3.0, 4.0], v)
    ensures v == 2.0
  {
    var s := [1.0, 2.0, 2.0, 3.0, 4.0];
    ModeExampleHolds();
    FirstModeUnique(s, v, 2.0);
  }

  /** 2 is the first value of maximal count in the example column. */
  lemma ModeExampleHolds()
    ensures IsFirstMode([1.0, 2.0, 2.0, 3.0, 4.0], 2.0)
  {
    var s := [1.0, 2.0, 2.0, 3.0, 4.0];
    assert Count(s, 2.0) == 2;
    assert s[1] == 2.0;
  }
}
