/** A value of a result row as both renderers print it: SQL NULL (Python
    `None`) or the text `str(value)` gives for any other value. */
module Cells {

  datatype Cell = Null | Value(text: string)

  /** A row of a result set, one cell per column. */
  type Row = seq<Cell>

  /** `str(value) if value is not None else "NULL"`. */
  function Render(c: Cell): (text: string)
    ensures c.Null? ==> text == "NULL"
    ensures c.Value? ==> text == c.text
  {
    match c
    case Null => "NULL"
    case Value(text) => text
  }

  /** The rendered cells of a row, in order. */
  function Rendered(row: Row): (cells: seq<string>)
    ensures |cells| == |row| && forall i :: 0 <= i < |row| ==> cells[i] == Render(row[i])
  {
    seq(|row|, i requires 0 <= i < |row| => Render(row[i]))
  }
}
