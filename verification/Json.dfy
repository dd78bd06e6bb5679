/** Results, and JSON documents as value trees. */
module Json {

  datatype Option<+T> = None | Some(value: T)

  datatype Result<+T, +E> = Ok(value: T) | Err(error: E)

  type Int64 = x: int | -0x8000_0000_0000_0000 <= x < 0x8000_0000_0000_0000

  datatype Json =
    | JNull
    | JBool(b: bool)
    | JNum(n: int)
    | JStr(s: string)
    | JArr(items: seq<Json>)
    | JObj(fields: map<string, Json>)

  /** Decoding an object field into a Go `string`: absent and `null` leave the zero value. */
  function StrField(fields: map<string, Json>, key: string): Option<string>
  {
    if key !in fields then Some("")
    else match fields[key]
      case JNull => Some("")
      case JStr(s) => Some(s)
      case _ => None
  }

  /** Decoding an object field into a Go `int`. */
  function IntField(fields: map<string, Json>, key: string): Option<Int64>
  {
    if key !in fields then Some(0)
    else match fields[key]
      case JNull => Some(0)
      case JNum(n) => if -0x8000_0000_0000_0000 <= n < 0x8000_0000_0000_0000 then Some(n) else None
      case _ => None
  }
}
