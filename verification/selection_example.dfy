/** The feature-selection example of the test suite, worked through the model. */
module SelectionExample {
  import opened Results
  import opened Frame
  import opened Roots
  import opened Moments
  import opened Correlations
  import opened Summary
  import opened Selection

  /**
   * The table target = col1 = [1, 2, 3, 4, 5], col2 = [5, 4, 3, 2, 1] at
   * threshold 0.9: both other columns have correlation ±1 with the target.
   */
  lemma SelectionExample(sqrt: real -> real)
    requires IsSquareRoot(sqrt)
    ensures FindHighlyCorrelated(ExampleTable(), "target", 0.9, sqrt) == Success(["col1", "col2"])
  {
    var up, down := [1.0, 2.0, 3.0, 4.0, 5.0], [5.0, 4.0, 3.0, 2.0, 1.0];
    var numeric := [NamedValues("target", up), NamedValues("col1", up), NamedValues("col2", down)];
    assert NumericColumns(ExampleTable()) == numeric;
    assert FindNumeric(numeric, "target") == Some(up);
    ExampleQualifies(sqrt);
    assert Qualifying(numeric, up, 0.9, sqrt) == ["target", "col1", "col2"];
  }

  /** The table of that example. */
  function ExampleTable(): seq<Column>
  {
    [Column("target", Numbers([1.0, 2.0, 3.0, 4.0, 5.0])),
     Column("col1", Numbers([1.0, 2.0, 3.0, 4.0, 5.0])),
     Column("col2", Numbers([5.0, 4.0, 3.0, 2.0, 1.0]))]
  }

  /** Both example columns correlate with the target beyond 0.9 in absolute value. */
  lemma ExampleQualifies(sqrt: real -> real)
    requires IsSquareRoot(sqrt)
    ensures Qualifies([1.0, 2.0, 3.0, 4.0, 5.0], [1.0, 2.0, 3.0, 4.0, 5.0], 0.9, sqrt)
    ensures Qualifies([5.0, 4.0, 3.0, 2.0, 1.0], [1.0, 2.0, 3.0, 4.0, 5.0], 0.9, sqrt)
  {
    var up, down := [1.0, 2.0, 3.0, 4.0, 5.0], [5.0, 4.0, 3.0, 2.0, 1.0];
    ExampleSquareSums();
    CorrelationOfSquareRadicand(up, up, sqrt, 10.0);
    CorrelationOfSquareRadicand(down, up, sqrt, 10.0);
  }

  /** The squared-deviation sums of the example columns. */
  lemma ExampleSquareSums()
    ensures SquareSum([1.0, 2.0, 3.0, 4.0, 5.0]) == 10.0
    ensures SquareSum([5.0, 4.0, 3.0, 2.0, 1.0]) == 10.0
    ensures CrossSum([1.0, 2.0, 3.0, 4.0, 5.0], [1.0, 2.0, 3.0, 4.0, 5.0]) == 10.0
    ensures CrossSum([5.0, 4.0, 3.0, 2.0, 1.0], [1.0, 2.0, 3.0, 4.0, 5.0]) == -10.0
  {
    assert Mean([1.0, 2.0, 3.0, 4.0, 5.0]) == 3.0;
    assert Mean([5.0, 4.0, 3.0, 2.0, 1.0]) == 3.0;
  }
}
