/**
 * The data the statistics read: a table of named columns. Loading fills every
 * missing cell with 0, so a column is a complete sequence of cells, either
 * numbers or text. A numeric column is one pandas would give a numeric dtype.
 */
module Frame {
  import opened Results

  /** The cells of one column. */
  datatype Cells = Numbers(values: seq<real>) | Labels(labels: seq<string>)

  /** A named column. */
  datatype Column = Column(name: string, cells: Cells)

  /** The errors the statistics raise. */
  datatype StatsError =
    | UnknownColumn(name: string)     // the column name is not in the table
    | EmptyColumn                     // the maximum of an empty count table
    | NotNumeric(name: string)        // a numeric statistic asked of a text column
    | TargetNotSelected(name: string) // `list.remove` of a name not in the list

  /** The names of the columns, in table order. */
  function Names(table: seq<Column>): (names: seq<string>)
    ensures |names| == |table|
    ensures forall i :: 0 <= i < |table| ==> names[i] == table[i].name
  {
    if |table| == 0 then [] else [table[0].name] + Names(table[1..])
  }

  /** The first column called `name`, or UnknownColumn when there is none. */
  function Lookup(table: seq<Column>, name: string): (r: Result<Column, StatsError>)
    ensures r.Failure? <==> name !in Names(table)
    ensures r.Failure? ==> r.error == UnknownColumn(name)
    ensures r.Success? ==> r.value in table && r.value.name == name
  {
    if |table| == 0 then Failure(UnknownColumn(name))
    else if table[0].name == name then Success(table[0])
    else Lookup(table[1..], name)
  }

  /** The values of the numeric column called `name`. */
  function NumericColumn(table: seq<Column>, name: string): (r: Result<seq<real>, StatsError>)
    ensures r.Failure? <==> (Lookup(table, name).Failure? || Lookup(table, name).value.cells.Labels?)
    ensures r.Success? ==> Numbers(r.value) == Lookup(table, name).value.cells
  {
    match Lookup(table, name)
    case Failure(e) => Failure(e)
    case Success(c) =>
      match c.cells
      case Numbers(values) => Success(values)
      case Labels(_) => Failure(NotNumeric(name))
  }
}
