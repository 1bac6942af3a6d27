/** The canonical table: what a pandas `DataFrame` is to the core. */
module Tables {
  import opened Base

  /** A cell. Text is kept; every other value a format reader infers (numbers, dates, missing
      values) is an uninterpreted datum. */
  datatype Cell = Text(s: string) | Datum(id: int)

  /** Named columns and rows in order. */
  datatype Table = Table(columns: seq<string>, rows: seq<seq<Cell>>)

  /** `df.head(n)`: the same columns and the first `n` rows, or all of them when there are fewer. */
  function Head(t: Table, n: nat): (h: Table)
    ensures h.columns == t.columns
    ensures |h.rows| == Min(n, |t.rows|)
    ensures h.rows == t.rows[..|h.rows|]
  {
    Table(t.columns, t.rows[..Min(n, |t.rows|)])
  }
}
