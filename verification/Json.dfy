/** JSON values as the two hosts see them.

    A number written without fraction or exponent is an `Int`, any other a `Num`:
    Python's decoder makes that difference, and the contract's validator relies on it. */
module Json {
  datatype Json =
    | Null
    | Bool(b: bool)
    | Int(i: int)
    | Num(r: real)
    | Str(s: string)
    | Arr(items: seq<Json>)
    | Obj(fields: map<string, Json>)
}
