/** The spreadsheet as the engine sees it after loading: an ordered list of
    headers and the rows below the header row, each row keyed by header. */
module Sheet {

  /** One cell as pandas holds it: a string, a number (with the text
      `str()` gives for it, which is what `astype(str)` produces), or a
      missing value (NaN). */
  datatype Cell =
    | Str(text: string)
    | Number(value: real, shown: string)
    | Missing

  type Row = map<string, Cell>

  /** The loaded sheet: its headers (already stripped at load time) in column
      order, and its rows in sheet order. */
  datatype Dataset = Dataset(headers: seq<string>, rows: seq<Row>)

  /** The cell of `row` under header `col`; missing when the row lacks it. */
  function CellAt(row: Row, col: string): Cell {
    if col in row then row[col] else Missing
  }

  /** `astype(str)` of one cell: a missing value prints as "nan". */
  function CellText(c: Cell): string {
    match c
    case Str(t) => t
    case Number(_, shown) => shown
    case Missing => "nan"
  }

  /** `df[col]`: the column's cells, one per row, in row order. */
  function Column(rows: seq<Row>, col: string): seq<Cell> {
    seq(|rows|, i requires 0 <= i < |rows| => CellAt(rows[i], col))
  }

  /** `dtype == object`: pandas keeps a column as objects when it holds text. */
  predicate HoldsText(cells: seq<Cell>) {
    exists i :: 0 <= i < |cells| && cells[i].Str?
  }
}
