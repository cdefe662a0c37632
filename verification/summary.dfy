/**
 * `summary` in Linearmodel/statistics.py: the six statistics of every
 * numeric column, in table order, then the correlation of every pair of
 * numeric columns (i, j) with i < j. Python gathers both in one dict; the
 * model keeps them as two lists, the column entries and the pair entries.
 */
module Summary {
  import opened Results
  import opened Frame
  import opened Roots
  import opened Moments
  import opened Medians
  import opened Modes
  import opened Weighted
  import opened Correlations
  import opened Pairs

  /** A numeric column by name and values. */
  datatype NamedValues = NamedValues(name: string, values: seq<real>)

  /** The entry of one column: Mean, Std, Median, Variance, Mode, Weighted Mode. */
  datatype ColumnStats = ColumnStats(
    mean: real, std: real, median: real, variance: real, mode: Option<real>, weightedMode: real)

  /** The entry `Correlation <first> vs <second>`. */
  datatype PairCorrelation = PairCorrelation(first: string, second: string, result: CorrelationRecord)

  /** The whole summary. */
  datatype Summary = Summary(columns: seq<NamedValues>, stats: seq<ColumnStats>, correlations: seq<PairCorrelation>)

  /** The numeric columns of the table, in table order. */
  function NumericColumns(table: seq<Column>): (r: seq<NamedValues>)
    ensures |r| <= |table|
    ensures forall c :: c in r <==>
      (exists i :: 0 <= i < |table| && table[i].cells.Numbers? && c == NamedValues(table[i].name, table[i].cells.values))
  {
    if |table| == 0 then []
    else
      var rest := NumericColumns(table[1..]);
      assert forall i :: 0 < i < |table| ==> table[i] == table[1..][i - 1];
      if table[0].cells.Numbers? then [NamedValues(table[0].name, table[0].cells.values)] + rest
      else rest
  }

  /** Adding a column at the end of the table adds its entry, if numeric, at the end: the filter keeps table order. */
  lemma {:induction false} NumericColumnsAppend(table: seq<Column>, c: Column)
    ensures NumericColumns(table + [c]) ==
      NumericColumns(table) + (if c.cells.Numbers? then [NamedValues(c.name, c.cells.values)] else [])
  {
    if |table| > 0 {
      assert (table + [c])[1..] == table[1..] + [c];
      NumericColumnsAppend(table[1..], c);
    }
  }

  /** The pair entry for numeric columns `i` and `j`. */
  function PairEntry(numeric: seq<NamedValues>, i: nat, j: nat, sqrt: real -> real): PairCorrelation
    requires IsSquareRoot(sqrt)
    requires i < |numeric| && j < |numeric|
  {
    PairCorrelation(numeric[i].name, numeric[j].name, Correlation(numeric[i].values, numeric[j].values, sqrt))
  }

  /**
   * `correlations` holds one entry per pair i < j of the numeric columns:
   * k(k - 1)/2 entries for k columns, each the entry of such a pair, and the
   * entry of every such pair present.
   */
  ghost predicate CoversPairs(correlations: seq<PairCorrelation>, numeric: seq<NamedValues>, sqrt: real -> real)
    requires IsSquareRoot(sqrt)
  {
    && |correlations| == |numeric| * (|numeric| - 1) / 2
    && (forall n :: 0 <= n < |correlations| ==>
          exists i, j :: 0 <= i < j < |numeric| && correlations[n] == PairEntry(numeric, i, j, sqrt))
    && (forall i, j :: 0 <= i < j < |numeric| ==> PairEntry(numeric, i, j, sqrt) in correlations)
  }

  /**
   * `correlations` holds the entries of the index pairs `pairs`, one each, and
   * the pairs run in the lexicographic order in which the nested loops visit
   * them: (0, 1), (0, 2), ..., (1, 2), ...
   */
  ghost predicate InLoopOrder(correlations: seq<PairCorrelation>, pairs: seq<(nat, nat)>, numeric: seq<NamedValues>, sqrt: real -> real)
    requires IsSquareRoot(sqrt)
  {
    && |pairs| == |correlations|
    && (forall m :: 0 <= m < |pairs| ==>
          pairs[m].0 < pairs[m].1 < |numeric| && correlations[m] == PairEntry(numeric, pairs[m].0, pairs[m].1, sqrt))
    && (forall a, b :: 0 <= a < b < |pairs| ==> LexLess(pairs[a], pairs[b]))
  }

  /** `stats` describes `values` the way the six statistics do. */
  ghost predicate Describes(stats: ColumnStats, values: seq<real>, sqrt: real -> real)
    requires IsSquareRoot(sqrt)
  {
    && stats.mean == Mean(values)
    && stats.std == Std(values, sqrt)
    && stats.median == Median(values)
    && stats.variance == Variance(values)
    && stats.mode.Some? && IsFirstMode(values, stats.mode.value)
    && WeightedMode(values) == Success(stats.weightedMode)
  }

  /** The six statistics of one column; an empty column makes the weighted mode fail. */
  method DescribeColumn(values: seq<real>, sqrt: real -> real) returns (r: Result<ColumnStats, StatsError>)
    requires IsSquareRoot(sqrt)
    ensures r.Failure? <==> |values| == 0
    ensures r.Failure? ==> r.error == EmptyColumn
    ensures r.Success? ==> Describes(r.value, values, sqrt)
  {
    var mode := Mode(values);
    match WeightedMode(values)
    case Failure(e) =>
      r := Failure(e);
    case Success(w) =>
      r := Success(ColumnStats(Mean(values), Std(values, sqrt), Median(values), Variance(values), mode, w));
  }

  /** Appending the entry of the next column keeps every entry describing its column. */
  lemma DescribesExtend(stats: seq<ColumnStats>, numeric: seq<NamedValues>, d: ColumnStats, sqrt: real -> real)
    requires IsSquareRoot(sqrt)
    requires |stats| < |numeric|
    requires forall i :: 0 <= i < |stats| ==> Describes(stats[i], numeric[i].values, sqrt)
    requires Describes(d, numeric[|stats|].values, sqrt)
    ensures forall i :: 0 <= i < |stats| + 1 ==> Describes((stats + [d])[i], numeric[i].values, sqrt)
  {
    forall i | 0 <= i < |stats| + 1
      ensures Describes((stats + [d])[i], numeric[i].values, sqrt)
    {
      if i < |stats| {
        assert (stats + [d])[i] == stats[i];
      } else {
        assert (stats + [d])[i] == d;
      }
    }
  }

  /** The column entries, one per numeric column in order, or the first failure. */
  method DescribeAll(numeric: seq<NamedValues>, sqrt: real -> real) returns (r: Result<seq<ColumnStats>, StatsError>)
    requires IsSquareRoot(sqrt)
    ensures r.Failure? <==> exists c :: c in numeric && |c.values| == 0
    ensures r.Success? ==> |r.value| == |numeric|
    ensures r.Success? ==> forall i :: 0 <= i < |numeric| ==> Describes(r.value[i], numeric[i].values, sqrt)
  {
    var stats: seq<ColumnStats> := [];
    var c := 0;
    while c < |numeric|
      invariant 0 <= c <= |numeric|
      invariant |stats| == c
      invariant forall i :: 0 <= i < c ==> Describes(stats[i], numeric[i].values, sqrt)
      invariant forall i :: 0 <= i < c ==> |numeric[i].values| > 0
    {
      var d := DescribeColumn(numeric[c].values, sqrt);
      if d.Failure? {
        assert numeric[c] in numeric;
        return Failure(d.error);
      }
      DescribesExtend(stats, numeric, d.value, sqrt);
      stats := stats + [d.value];
      c := c + 1;
    }
    r := Success(stats);
    forall col | col in numeric
      ensures |col.values| > 0
    {
      var i :| 0 <= i < |numeric| && numeric[i] == col;
    }
  }

  /** The pair entries, one per pair i < j of numeric columns, in the order the loops visit them. */
  method CorrelateAll(numeric: seq<NamedValues>, sqrt: real -> real) returns (correlations: seq<PairCorrelation>, ghost pairs: seq<(nat, nat)>)
    requires IsSquareRoot(sqrt)
    ensures CoversPairs(correlations, numeric, sqrt)
    ensures InLoopOrder(correlations, pairs, numeric, sqrt)
  {
    var visited := CorrelationPairs(|numeric|);
    pairs := visited;
    correlations := [];
    var n := 0;
    while n < |visited|
      invariant 0 <= n <= |visited|
      invariant |correlations| == n
      invariant forall m :: 0 <= m < n ==> correlations[m] == PairEntry(numeric, visited[m].0, visited[m].1, sqrt)
    {
      correlations := correlations + [PairEntry(numeric, visited[n].0, visited[n].1, sqrt)];
      n := n + 1;
    }
    forall i, j | 0 <= i < j < |numeric|
      ensures PairEntry(numeric, i, j, sqrt) in correlations
    {
      var m :| 0 <= m < |visited| && visited[m] == (i, j);
      assert correlations[m] == PairEntry(numeric, i, j, sqrt);
    }
    forall m | 0 <= m < |correlations|
      ensures exists i, j :: 0 <= i < j < |numeric| && correlations[m] == PairEntry(numeric, i, j, sqrt)
    {
      assert visited[m].0 < visited[m].1 < |numeric|;
    }
  }

  /** The summary of a table, or the error of its first empty numeric column. */
  method Summarize(table: seq<Column>, sqrt: real -> real) returns (r: Result<Summary, StatsError>, ghost pairs: seq<(nat, nat)>)
    requires IsSquareRoot(sqrt)
    ensures r.Failure? <==> exists c :: c in NumericColumns(table) && |c.values| == 0
    ensures r.Success? ==> r.value.columns == NumericColumns(table)
    ensures r.Success? ==> |r.value.stats| == |r.value.columns|
    ensures r.Success? ==> forall i :: 0 <= i < |r.value.stats| ==>
                             Describes(r.value.stats[i], r.value.columns[i].values, sqrt)
    ensures r.Success? ==> CoversPairs(r.value.correlations, r.value.columns, sqrt)
    ensures r.Success? ==> InLoopOrder(r.value.correlations, pairs, r.value.columns, sqrt)
  {
    var numeric := NumericColumns(table);
    var stats := DescribeAll(numeric, sqrt);
    if stats.Failure? {
      return Failure(stats.error), [];
    }
    var correlations;
    correlations, pairs := CorrelateAll(numeric, sqrt);
    r := Success(Summary(numeric, stats.value, correlations));
  }
}
