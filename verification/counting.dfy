/**
 * Occurrence counts and first occurrences in a column, and the distinct
 * values of a column in the order they are first seen. A Python dict filled
 * by one pass over the column keeps exactly that order for its keys.
 */
module Counting {

  /** How many times `x` occurs in `s`. */
  function Count<T(==)>(s: seq<T>, x: T): nat
  {
    multiset(s)[x]
  }

  /** The position where `x` first occurs in `s`. */
  function FirstIndex<T(==)>(s: seq<T>, x: T): (i: nat)
    requires x in s
    ensures i < |s| && s[i] == x
    ensures forall j :: 0 <= j < i ==> s[j] != x
  {
    if s[0] == x then 0 else 1 + FirstIndex(s[1..], x)
  }

  /** No value occurs twice. */
  ghost predicate Distinct<T>(s: seq<T>)
  {
    forall i, j :: 0 <= i < j < |s| ==> s[i] != s[j]
  }

  /**
   * The distinct values of `s` in order of first occurrence: the keys of a
   * dict filled by one pass over `s`.
   */
  function Keys<T(==,!new)>(s: seq<T>): (k: seq<T>)
    ensures forall x :: x in k <==> x in s
    ensures Distinct(k)
  {
    if |s| == 0 then []
    else
      var init, last := s[..|s| - 1], s[|s| - 1];
      assert forall x :: x in s <==> x in init || x == last by {
        assert s == init + [last];
      }
      if last in init then Keys(init) else Keys(init) + [last]
  }

  /** First occurrences are not moved by appending to the column. */
  lemma FirstIndexAppend<T>(s: seq<T>, y: T, x: T)
    requires x in s
    ensures x in s + [y] && FirstIndex(s + [y], x) == FirstIndex(s, x)
  {
    var t := s + [y];
    var i, k := FirstIndex(s, x), FirstIndex(t, x);
    assert t[i] == x;
    assert k <= i;
    assert s[k] == t[k];
  }

  /** The keys appear in the order of the first occurrences of their values. */
  lemma {:induction false} KeysInFirstSeenOrder<T(!new)>(s: seq<T>, a: nat, b: nat)
    requires a < b < |Keys(s)|
    ensures FirstIndex(s, Keys(s)[a]) < FirstIndex(s, Keys(s)[b])
  {
    var init, last := s[..|s| - 1], s[|s| - 1];
    assert s == init + [last];
    var k := Keys(s);
    FirstIndexAppend(init, last, k[a]);
    if last in init || b < |Keys(init)| {
      KeysInFirstSeenOrder(init, a, b);
      FirstIndexAppend(init, last, k[b]);
    } else {
      assert k[b] == last;
      assert FirstIndex(s, last) == |s| - 1;
    }
  }

  /** One more value counted: its count goes up by one and nothing else changes. */
  lemma CountAppend<T>(s: seq<T>, y: T, x: T)
    ensures Count(s + [y], x) == Count(s, x) + (if x == y then 1 else 0)
  {
    assert multiset(s + [y]) == multiset(s) + multiset{y};
  }
}
