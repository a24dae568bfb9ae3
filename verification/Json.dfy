/** JSON-like values as the program sees them after decoding ("any"). */
module Json {

  /** Go numeric representations a decoded value can carry. */
  datatype NumberKind = Float64 | Float32 | Int | Int64 | OtherNumber

  datatype Value =
    | Null
    | Bool(b: bool)
    | Number(kind: NumberKind, n: real)
    | Str(s: string)
    | Arr(items: seq<Value>)
    | Obj(fields: map<string, Value>)

  datatype Option<+T> = None | Some(value: T) {
    function GetOr(default: T): T {
      if Some? then value else default
    }
  }

  datatype Result<+T, +E> = Ok(value: T) | Err(error: E)
}
