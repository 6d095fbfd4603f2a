/** Values shared by every stage of the listing pipeline: cell values, records,
    datasets, and the two failure-carrying wrappers the stages return. */
module Values {

  /** A cell of a listing as the upstream JSON delivers it after parsing.
      `Undefined` stands for JSON null, for a missing cell in a rectangular
      frame (NaN) and for any non-finite quotient. */
  datatype Value =
    | Num(x: real)
    | Text(s: string)
    | Undefined
    | Object(fields: map<string, Value>)

  /** One listing: a mapping from field name to value. A key that is absent
      is a missing cell. */
  type Record = map<string, Value>

  /** An ordered collection of listings, one per row of a stored table. */
  type Dataset = seq<Record>

  datatype Option<+T> = None | Some(value: T)

  /** The outcome of a frame operation that can raise `KeyError` because a
      whole column is absent. */
  datatype Checked<+T> = Ok(value: T) | KeyError(column: string)

  /** The cell of `row` at `key`, or `Undefined` when the row has no such cell. */
  function Field(row: Record, key: string): Value
  {
    if key in row then row[key] else Undefined
  }

  /** A frame built from `rows` has column `col` when at least one row has it. */
  predicate HasColumn(rows: seq<Record>, col: string)
  {
    exists i :: 0 <= i < |rows| && col in rows[i]
  }
}
