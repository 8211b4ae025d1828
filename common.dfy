/** Values shared by every part of the model: optional values, results with
    an error side, and the JSON values that the upstream API and the record
    projections carry. */
module Common {

  /** A value that may be absent (Python's `None`). */
  datatype Option<+T> = None | Some(value: T)

  /** The outcome of an operation that the source can abort by raising. */
  datatype Result<+T, +E> = Ok(value: T) | Err(error: E)

  /** A JSON value as decoded from an upstream body or stored in a JSON column.
      Numbers are integers: no floating-point value is inspected by the core. */
  datatype Json =
    | JNull
    | JBool(b: bool)
    | JInt(i: int)
    | JStr(s: string)
    | JArr(items: seq<Json>)
    | JObj(fields: map<string, Json>)

  /** A dictionary with string keys, as built by the `to_dict` projections. */
  type Dict = map<string, Json>

  /** A nullable text column as a JSON value. */
  function OptStr(o: Option<string>): (j: Json)
    ensures o.None? <==> j == JNull
    ensures o.Some? ==> j == JStr(o.value)
  {
    match o
    case None => JNull
    case Some(s) => JStr(s)
  }

  /** A nullable integer column as a JSON value. */
  function OptInt(o: Option<int>): (j: Json)
    ensures o.None? <==> j == JNull
    ensures o.Some? ==> j == JInt(o.value)
  {
    match o
    case None => JNull
    case Some(n) => JInt(n)
  }
}
