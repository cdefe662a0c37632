/**
 * `find_highly_correlated_variables` in Linearmodel/statistics.py: the
 * numeric columns whose correlation with the target exceeds the threshold
 * in absolute value, in table order, with the target itself then removed by
 * `list.remove`. A pair with a zero denominator has no correlation in pandas
 * (NaN), and NaN never exceeds a threshold, so such a column is not selected.
 */
module Selection {
  import opened Results
  import opened Frame
  import opened Roots
  import opened Moments
  import opened Correlations
  import opened Summary
  import opened Counting

  /** The absolute value, as pandas `.abs()` takes it. */
  function Abs(x: real): real
  {
    if x < 0.0 then -x else x
  }

  /** `values` is selected against `target` at `threshold`. */
  predicate Qualifies(values: seq<real>, target: seq<real>, threshold: real, sqrt: real -> real)
    requires IsSquareRoot(sqrt)
  {
    Radicand(values, target) != 0.0 && Abs(Correlation(values, target, sqrt).correlation) > threshold
  }

  /** No two numeric columns share a name. */
  ghost predicate UniqueNames(numeric: seq<NamedValues>)
  {
    forall a, b :: 0 <= a < b < |numeric| ==> numeric[a].name != numeric[b].name
  }

  /** `names` lists names of columns of `numeric` in table order (a subsequence of the names). */
  ghost predicate InOrder(names: seq<string>, numeric: seq<NamedValues>)
    decreases |numeric|
  {
    if |names| == 0 then true
    else if |numeric| == 0 then false
    else if names[0] == numeric[0].name then InOrder(names[1..], numeric[1..])
    else InOrder(names, numeric[1..])
  }

  /** Dropping the first listed name keeps the list in table order. */
  lemma {:induction false} InOrderTail(names: seq<string>, numeric: seq<NamedValues>)
    requires InOrder(names, numeric) && |names| > 0
    ensures InOrder(names[1..], numeric)
    decreases |numeric|, 1
  {
    if names[0] == numeric[0].name {
      InOrderExtend(names[1..], numeric);
    } else {
      InOrderTail(names, numeric[1..]);
      InOrderExtend(names[1..], numeric);
    }
  }

  /** A list in table order against all but the first column is in order against them all. */
  lemma {:induction false} InOrderExtend(names: seq<string>, numeric: seq<NamedValues>)
    requires |numeric| > 0 && InOrder(names, numeric[1..])
    ensures InOrder(names, numeric)
    decreases |numeric|, 0
  {
    if |names| > 0 && names[0] == numeric[0].name {
      InOrderTail(names, numeric[1..]);
    }
  }

  /** Putting a new name in front of a list without repeats keeps it without repeats. */
  lemma DistinctCons(x: string, rest: seq<string>)
    requires Distinct(rest) && x !in rest
    ensures Distinct([x] + rest)
  {
    var t := [x] + rest;
    forall i, j | 0 <= i < j < |t|
      ensures t[i] != t[j]
    {
      assert t[j] == rest[j - 1];
      if i > 0 {
        assert t[i] == rest[i - 1];
      }
    }
  }

  /** Every listed name is the name of some column; returns the position of one. */
  lemma {:induction false} InOrderNames(names: seq<string>, numeric: seq<NamedValues>, x: string) returns (b: nat)
    requires InOrder(names, numeric) && x in names
    ensures b < |numeric| && numeric[b].name == x
    decreases |numeric|
  {
    if names[0] == numeric[0].name && x == names[0] {
      b := 0;
    } else if names[0] == numeric[0].name {
      assert x in names[1..];
      b := InOrderNames(names[1..], numeric[1..], x);
      b := b + 1;
    } else {
      b := InOrderNames(names, numeric[1..], x);
      b := b + 1;
    }
  }

  /** Dropping any one name keeps the rest in table order. */
  lemma {:induction false} InOrderRemove(names: seq<string>, numeric: seq<NamedValues>, i: nat)
    requires InOrder(names, numeric) && i < |names|
    ensures InOrder(names[..i] + names[i + 1..], numeric)
    decreases |numeric|
  {
    var rest := names[..i] + names[i + 1..];
    if i == 0 {
      assert rest == names[1..];
      InOrderTail(names, numeric);
    } else if names[0] == numeric[0].name {
      InOrderRemove(names[1..], numeric[1..], i - 1);
      assert rest[0] == names[0];
      assert rest[1..] == names[1..][..i - 1] + names[1..][i..];
    } else {
      InOrderRemove(names, numeric[1..], i);
    }
  }

  /** The values of the first numeric column called `name`. */
  function FindNumeric(numeric: seq<NamedValues>, name: string): (r: Option<seq<real>>)
    ensures r.Some? ==> NamedValues(name, r.value) in numeric
    ensures r.None? ==> forall c :: c in numeric ==> c.name != name
  {
    if |numeric| == 0 then None
    else if numeric[0].name == name then Some(numeric[0].values)
    else FindNumeric(numeric[1..], name)
  }

  /** The names of the qualifying columns, in table order. */
  function Qualifying(numeric: seq<NamedValues>, target: seq<real>, threshold: real, sqrt: real -> real): (names: seq<string>)
    requires IsSquareRoot(sqrt)
    ensures forall x :: x in names <==>
      exists c :: c in numeric && c.name == x && Qualifies(c.values, target, threshold, sqrt)
    ensures |names| <= |numeric|
  {
    if |numeric| == 0 then []
    else
      var rest := Qualifying(numeric[1..], target, threshold, sqrt);
      assert forall c :: c in numeric <==> c == numeric[0] || c in numeric[1..];
      if Qualifies(numeric[0].values, target, threshold, sqrt) then [numeric[0].name] + rest else rest
  }

  /** `list.remove`: drop the first occurrence of `x`, or fail when there is none. */
  function RemoveFirst(names: seq<string>, x: string): (r: Result<seq<string>, StatsError>)
    ensures r.Failure? <==> x !in names
    ensures r.Failure? ==> r.error == TargetNotSelected(x)
    ensures r.Success? ==> r.value == names[..FirstIndex(names, x)] + names[FirstIndex(names, x) + 1..]
  {
    if |names| == 0 then Failure(TargetNotSelected(x))
    else if names[0] == x then Success(names[1..])
    else
      match RemoveFirst(names[1..], x)
      case Failure(e) => Failure(e)
      case Success(rest) =>
        var i := FirstIndex(names[1..], x);
        assert FirstIndex(names, x) == i + 1;
        assert names[..i + 1] == [names[0]] + names[1..][..i];
        assert names[i + 2..] == names[1..][i + 1..];
        Success([names[0]] + rest)
  }

  /**
   * The selected names for `target` at `threshold`. A target that is not a
   * numeric column has no row in the correlation table (pandas' KeyError);
   * otherwise the only failure is `list.remove` not finding the target.
   */
  function FindHighlyCorrelated(table: seq<Column>, target: string, threshold: real, sqrt: real -> real)
    : (r: Result<seq<string>, StatsError>)
    requires IsSquareRoot(sqrt)
    ensures (forall i :: 0 <= i < |table| ==> table[i].name != target || table[i].cells.Labels?) ==>
              r == Failure(UnknownColumn(target))
    ensures (exists i :: 0 <= i < |table| && table[i].name == target && table[i].cells.Numbers?) ==>
              (r.Failure? ==> r.error == TargetNotSelected(target))
  {
    var numeric := NumericColumns(table);
    match FindNumeric(numeric, target)
    case None =>
      assert forall i :: 0 <= i < |table| && table[i].cells.Numbers? ==>
        NamedValues(table[i].name, table[i].cells.values) in numeric;
      Failure(UnknownColumn(target))
    case Some(values) => RemoveFirst(Qualifying(numeric, values, threshold, sqrt), target)
  }

  /** The threshold `find_highly_correlated_variables` uses when none is given. */
  const DefaultThreshold: real := 0.55

  /**
   * The selection at the default threshold: a name other than the target is
   * kept exactly when its correlation with the target exceeds 0.55 in
   * absolute value.
   */
  function FindHighlyCorrelatedByDefault(table: seq<Column>, target: string, sqrt: real -> real)
    : (r: Result<seq<string>, StatsError>)
    requires IsSquareRoot(sqrt)
    ensures (forall i :: 0 <= i < |table| ==> table[i].name != target || table[i].cells.Labels?) ==>
              r == Failure(UnknownColumn(target))
    ensures (exists i :: 0 <= i < |table| && table[i].name == target && table[i].cells.Numbers?) ==>
              (r.Failure? ==> r.error == TargetNotSelected(target))
    ensures UniqueNames(NumericColumns(table)) && FindNumeric(NumericColumns(table), target).Some? && r.Success? ==>
              forall y :: y in r.value <==>
                (y != target && exists c :: (c in NumericColumns(table) && c.name == y &&
                   Qualifies(c.values, FindNumeric(NumericColumns(table), target).value, 0.55, sqrt)))
  {
    var numeric := NumericColumns(table);
    assert UniqueNames(numeric) && FindNumeric(numeric, target).Some? ==>
      FindHighlyCorrelated(table, target, DefaultThreshold, sqrt).Success? ==>
        forall y :: y in FindHighlyCorrelated(table, target, DefaultThreshold, sqrt).value <==>
          (y != target && exists c :: (c in numeric && c.name == y &&
             Qualifies(c.values, FindNumeric(numeric, target).value, DefaultThreshold, sqrt)))
    by {
      if UniqueNames(numeric) && FindNumeric(numeric, target).Some? {
        FindHighlyCorrelatedSelects(table, target, DefaultThreshold, sqrt, FindNumeric(numeric, target).value);
      }
    }
    FindHighlyCorrelated(table, target, DefaultThreshold, sqrt)
  }

  /** The qualifying names are listed in table order. */
  lemma {:induction false} QualifyingInOrder(numeric: seq<NamedValues>, target: seq<real>, threshold: real, sqrt: real -> real)
    requires IsSquareRoot(sqrt)
    ensures InOrder(Qualifying(numeric, target, threshold, sqrt), numeric)
  {
    if |numeric| > 0 {
      var rest := Qualifying(numeric[1..], target, threshold, sqrt);
      QualifyingInOrder(numeric[1..], target, threshold, sqrt);
      if Qualifies(numeric[0].values, target, threshold, sqrt) {
        assert ([numeric[0].name] + rest)[1..] == rest;
      } else {
        InOrderExtend(rest, numeric);
      }
    }
  }

  /** With unique column names, no name is listed twice. */
  lemma {:induction false} QualifyingDistinct(numeric: seq<NamedValues>, target: seq<real>, threshold: real, sqrt: real -> real)
    requires IsSquareRoot(sqrt)
    requires UniqueNames(numeric)
    ensures Distinct(Qualifying(numeric, target, threshold, sqrt))
  {
    if |numeric| > 0 {
      var rest := Qualifying(numeric[1..], target, threshold, sqrt);
      QualifyingDistinct(numeric[1..], target, threshold, sqrt);
      QualifyingInOrder(numeric[1..], target, threshold, sqrt);
      forall x | x in rest
        ensures x != numeric[0].name
      {
        var b := InOrderNames(rest, numeric[1..], x);
        assert numeric[b + 1].name == x;
      }
      DistinctCons(numeric[0].name, rest);
    }
  }

  /** Removing the first occurrence from a list without repeats removes the name altogether. */
  lemma RemoveFirstOfDistinct(names: seq<string>, x: string)
    requires Distinct(names) && x in names
    ensures RemoveFirst(names, x).Success?
    ensures forall y :: y in RemoveFirst(names, x).value <==> y in names && y != x
  {
    var r := RemoveFirst(names, x).value;
    var i := FirstIndex(names, x);
    forall y
      ensures y in r <==> y in names && y != x
    {
      if y in r {
        var k :| 0 <= k < |r| && r[k] == y;
        if k < i {
          assert names[k] == y;
        } else {
          assert names[k + 1] == y;
        }
      }
      if y in names && y != x {
        var k :| 0 <= k < |names| && names[k] == y;
        if k < i {
          assert r[k] == y;
        } else {
          assert r[k - 1] == y;
        }
      }
    }
  }

  /**
   * What the selection returns: with unique column names and the target
   * among the numeric columns, it fails exactly when the target does not
   * qualify against itself; otherwise it lists, in table order, exactly the
   * other columns that qualify.
   */
  lemma FindHighlyCorrelatedSelects(table: seq<Column>, target: string, threshold: real, sqrt: real -> real, t: seq<real>)
    requires IsSquareRoot(sqrt)
    requires UniqueNames(NumericColumns(table))
    requires FindNumeric(NumericColumns(table), target) == Some(t)
    ensures FindHighlyCorrelated(table, target, threshold, sqrt).Failure? <==> !Qualifies(t, t, threshold, sqrt)
    ensures FindHighlyCorrelated(table, target, threshold, sqrt).Failure? ==>
              FindHighlyCorrelated(table, target, threshold, sqrt).error == TargetNotSelected(target)
    ensures FindHighlyCorrelated(table, target, threshold, sqrt).Success? ==>
              var r := FindHighlyCorrelated(table, target, threshold, sqrt).value;
              && InOrder(r, NumericColumns(table))
              && forall y :: y in r <==>
                   y != target && exists c :: c in NumericColumns(table) && c.name == y && Qualifies(c.values, t, threshold, sqrt)
  {
    var numeric := NumericColumns(table);
    var names := Qualifying(numeric, t, threshold, sqrt);
    QualifyingDistinct(numeric, t, threshold, sqrt);
    QualifyingInOrder(numeric, t, threshold, sqrt);
    assert target in names <==> Qualifies(t, t, threshold, sqrt) by {
      forall c | c in numeric && c.name == target
        ensures c == NamedValues(target, t)
      {
        var a :| 0 <= a < |numeric| && numeric[a] == c;
        var b :| 0 <= b < |numeric| && numeric[b] == NamedValues(target, t);
      }
    }
    if target in names {
      RemoveFirstOfDistinct(names, target);
      InOrderRemove(names, numeric, FirstIndex(names, target));
    }
  }
}
