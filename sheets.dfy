/** Spreadsheet cells as the handlers see them after `pd.read_excel`. */
module Sheets {

  /** An empty cell (NaN) or the text `str()` shows for the value. */
  datatype Cell = Missing | Text(text: string)

  /** `str(value)`, as `astype(str)` renders it: NaN prints as "nan". */
  function CellStr(c: Cell): string {
    if c.Missing? then "nan" else c.text
  }

  /** The cell of `row` in column `j`; a short row reads as NaN, as pandas pads it. */
  function At(row: seq<Cell>, j: nat): Cell {
    if j < |row| then row[j] else Missing
  }
}
