/** The instrumentation query facility as the extractors see it: a query either
    fails or returns rows, each row a map from field name to a dynamically typed value. */
module WmiQuery {
  import opened Ints
  import opened Wrappers

  /** The value kinds the extractors distinguish; every other kind is `Other`. */
  datatype Variant =
    | UI2(u2: u16)
    | UI4(u4: u32)
    | UI8(u8: u64)
    | Str(s: string)
    | Other

  type Row = map<string, Variant>

  datatype QueryResult = QErr | QOk(rows: seq<Row>)

  /** `row.get(key)`. */
  function Field(row: Row, key: string): (r: Option<Variant>)
    ensures r.Some? <==> key in row
    ensures r.Some? ==> r.value == row[key]
  {
    if key in row then Some(row[key]) else None
  }

  /** `results.get(0)` followed by `.get(key)`: the first row's field, or `None`
      when there is no first row or it lacks the field. */
  function FirstRowField(rows: seq<Row>, key: string): (r: Option<Variant>)
    ensures r.Some? <==> |rows| > 0 && key in rows[0]
    ensures r.Some? ==> r.value == rows[0][key]
  {
    if |rows| == 0 then None else Field(rows[0], key)
  }
}
