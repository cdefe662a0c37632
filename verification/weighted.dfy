/**
 * Weighted mode of one column (`calculate_weighted_mode` in
 * Linearmodel/statistics.py). The values are counted; when one value alone
 * has the highest count it is the answer; when several share the highest
 * count, every row is weighted by the count of its own value and the answer
 * is the weighted average over all rows, Σ x·count(x) / Σ count(x).
 */
module Weighted {
  import opened Results
  import opened Counting
  import opened Frame
  import opened Modes

  /** The highest count among the values listed in `vals`. */
  function MaxCountOver(vals: seq<real>, s: seq<real>): (m: nat)
    ensures forall i :: 0 <= i < |vals| ==> Count(s, vals[i]) <= m
    ensures |vals| > 0 ==> exists i :: 0 <= i < |vals| && Count(s, vals[i]) == m
  {
    if |vals| == 0 then 0
    else
      var rest := MaxCountOver(vals[1..], s);
      if Count(s, vals[0]) >= rest then Count(s, vals[0]) else rest
  }

  /** The highest count of any value of the column. */
  function MaxCount(s: seq<real>): (m: nat)
    ensures forall x :: x in s ==> Count(s, x) <= m
    ensures |s| > 0 ==> exists x :: x in s && Count(s, x) == m
  {
    var m := MaxCountOver(s, s);
    assert |s| > 0 ==> exists x :: x in s && Count(s, x) == m by {
      if |s| > 0 {
        var i :| 0 <= i < |s| && Count(s, s[i]) == m;
        assert s[i] in s && Count(s, s[i]) == m;
      }
    }
    m
  }

  /** The values listed in `vals` whose count is `m`, in the order listed. */
  function WithCount(vals: seq<real>, s: seq<real>, m: nat): (r: seq<real>)
    ensures forall x :: x in r <==> x in vals && Count(s, x) == m
    ensures Distinct(vals) ==> Distinct(r)
  {
    if |vals| == 0 then []
    else if Count(s, vals[0]) == m then [vals[0]] + WithCount(vals[1..], s, m)
    else WithCount(vals[1..], s, m)
  }

  /** The distinct values tied for the highest count (the rows of `value_counts == max`). */
  function TopValues(s: seq<real>): seq<real>
  {
    WithCount(Keys(s), s, MaxCount(s))
  }

  /** Σ over the rows of count(row), the weights of `data[column].map(value_counts)`. */
  function WeightSum(rows: seq<real>, s: seq<real>): real
  {
    if |rows| == 0 then 0.0 else Count(s, rows[0]) as real + WeightSum(rows[1..], s)
  }

  /** Σ over the rows of row·count(row). */
  function WeightedSum(rows: seq<real>, s: seq<real>): real
  {
    if |rows| == 0 then 0.0 else rows[0] * (Count(s, rows[0]) as real) + WeightedSum(rows[1..], s)
  }

  /** Each row of `rows` that is also a row of `s` weighs at least 1. */
  lemma {:induction false} WeightSumPositive(rows: seq<real>, s: seq<real>)
    requires |rows| > 0
    requires forall i :: 0 <= i < |rows| ==> rows[i] in s
    ensures WeightSum(rows, s) >= |rows| as real
  {
    assert rows[0] in multiset(s);
    if |rows| > 1 {
      WeightSumPositive(rows[1..], s);
    }
  }

  /** The weighted mode, or EmptyColumn for a column with no values. */
  function WeightedMode(s: seq<real>): (r: Result<real, StatsError>)
    ensures r.Failure? <==> |s| == 0
    ensures r.Failure? ==> r.error == EmptyColumn
  {
    if |s| == 0 then Failure(EmptyColumn)
    else if |TopValues(s)| > 1 then
      WeightSumPositive(s, s);
      Success(WeightedSum(s, s) / WeightSum(s, s))
    else
      var x :| x in s && Count(s, x) == MaxCount(s);
      assert x in TopValues(s);
      Success(TopValues(s)[0])
  }

  /** The weighted mode of the numeric column called `name`; an absent name is an error. */
  function WeightedModeOf(table: seq<Column>, name: string): (r: Result<real, StatsError>)
    ensures name !in Names(table) ==> r == Failure(UnknownColumn(name))
    ensures NumericColumn(table, name).Success? ==> r == WeightedMode(NumericColumn(table, name).value)
  {
    match NumericColumn(table, name)
    case Failure(e) => Failure(e)
    case Success(values) => WeightedMode(values)
  }

  /** The first two values of a sequence without repeats differ. */
  lemma FirstTwoDiffer(t: seq<real>)
    requires Distinct(t)
    ensures |t| > 1 ==> t[0] != t[1]
  {
  }

  /** A sequence without repeats that holds only `v`, and holds it, is `[v]`. */
  lemma DistinctSingleton(t: seq<real>, v: real)
    requires Distinct(t) && v in t
    requires forall i :: 0 <= i < |t| ==> t[i] == v
    ensures t == [v]
  {
    FirstTwoDiffer(t);
  }

  /**
   * When one value alone has the highest count, the weighted mode is that
   * value, which is then also the mode.
   */
  lemma WeightedModeOfUniqueTop(s: seq<real>, v: real)
    requires IsFirstMode(s, v)
    requires forall x :: x in s && Count(s, x) == Count(s, v) ==> x == v
    ensures WeightedMode(s) == Success(v)
  {
    var x :| x in s && Count(s, x) == MaxCount(s);
    assert Count(s, v) == MaxCount(s);
    var top := TopValues(s);
    assert v in top;
    forall i | 0 <= i < |top|
      ensures top[i] == v
    {
      assert top[i] in top;
    }
    DistinctSingleton(top, v);
  }

  /**
   * When two different values share the highest count, the weighted mode is
   * the count-weighted average over every row of the column.
   */
  lemma WeightedModeOfTie(s: seq<real>, a: real, b: real)
    requires a in s && b in s && a != b
    requires Count(s, a) == MaxCount(s) && Count(s, b) == MaxCount(s)
    ensures WeightSum(s, s) > 0.0
    ensures WeightedMode(s) == Success(WeightedSum(s, s) / WeightSum(s, s))
  {
    var top := TopValues(s);
    assert a in top && b in top;
    WeightSumPositive(s, s);
  }

  /** The column [1, 1, 2, 2, 2, 3, 4]: 2 alone has the highest count, so it is the weighted mode. */
  lemma WeightedExample()
    ensures WeightedMode([1.0, 1.0, 2.0, 2.0, 2.0, 3.0, 4.0]) == Success(2.0)
  {
    var s := [1.0, 1.0, 2.0, 2.0, 2.0, 3.0, 4.0];
    WeightedExampleMode();
    WeightedExampleUnique();
    WeightedModeOfUniqueTop(s, 2.0);
  }

  /** How often each value occurs in [1, 1, 2, 2, 2, 3, 4]. */
  lemma WeightedExampleCounts()
    ensures var s := [1.0, 1.0, 2.0, 2.0, 2.0, 3.0, 4.0];
      Count(s, 1.0) == 2 && Count(s, 2.0) == 3 && Count(s, 3.0) == 1 && Count(s, 4.0) == 1
  {
  }

  /** 2 is the first value of maximal count in [1, 1, 2, 2, 2, 3, 4]. */
  lemma WeightedExampleMode()
    ensures IsFirstMode([1.0, 1.0, 2.0, 2.0, 2.0, 3.0, 4.0], 2.0)
  {
    var s := [1.0, 1.0, 2.0, 2.0, 2.0, 3.0, 4.0];
    WeightedExampleCounts();
    assert forall x :: x in s ==> x == 1.0 || x == 2.0 || x == 3.0 || x == 4.0;
    assert s[2] == 2.0;
  }

  /** No other value of [1, 1, 2, 2, 2, 3, 4] reaches the count of 2. */
  lemma WeightedExampleUnique()
    ensures var s := [1.0, 1.0, 2.0, 2.0, 2.0, 3.0, 4.0];
      forall x :: x in s && Count(s, x) == Count(s, 2.0) ==> x == 2.0
  {
    var s := [1.0, 1.0, 2.0, 2.0, 2.0, 3.0, 4.0];
    WeightedExampleCounts();
    assert forall x :: x in s ==> x == 1.0 || x == 2.0 || x == 3.0 || x == 4.0;
  }

  /** The column [1, 1, 2, 2]: 1 and 2 tie, so the answer is (1·2 + 1·2 + 2·2 + 2·2) / 8 = 1.5. */
  lemma TieExample()
    ensures WeightedMode([1.0, 1.0, 2.0, 2.0]) == Success(1.5)
  {
    var s := [1.0, 1.0, 2.0, 2.0];
    TieExampleCounts();
    WeightedModeOfTie(s, 1.0, 2.0);
    TieExampleSums();
  }

  /** In [1, 1, 2, 2] both values occur twice, the maximal count. */
  lemma TieExampleCounts()
    ensures var s := [1.0, 1.0, 2.0, 2.0];
      Count(s, 1.0) == 2 && Count(s, 2.0) == 2 && MaxCount(s) == 2
  {
    var s := [1.0, 1.0, 2.0, 2.0];
    assert Count(s, 1.0) == 2 && Count(s, 2.0) == 2;
    assert forall x :: x in s ==> x == 1.0 || x == 2.0;
  }

  /** The count-weighted sums of [1, 1, 2, 2]: 12 over weights 8. */
  lemma TieExampleSums()
    ensures var s := [1.0, 1.0, 2.0, 2.0];
      WeightedSum(s, s) == 12.0 && WeightSum(s, s) == 8.0
  {
    var s := [1.0, 1.0, 2.0, 2.0];
    assert Count(s, 1.0) == 2 && Count(s, 2.0) == 2;
  }
}
