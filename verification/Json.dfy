/** The JSON values every other module works on, and the usual option and result types. */
module JsonModel {

  datatype Option<+T> = None | Some(value: T)

  datatype Result<+T, +E> = Ok(value: T) | Err(error: E)

  /**
   A parsed JSON document. A number is kept as the text it prints as, which is all the
   control plane ever does with one: compare it and print it back.
   */
  datatype Json =
    | Null
    | Bool(b: bool)
    | Num(text: string)
    | Str(s: string)
    | Arr(items: seq<Json>)
    | Obj(fields: map<string, Json>)

  const EMPTY_OBJECT := Obj(map[])

  /** `get(k)` on an object's fields. */
  function Field(fields: map<string, Json>, k: string): Option<Json> {
    if k in fields then Some(fields[k]) else None
  }
}
