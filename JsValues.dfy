/** JavaScript values as the cursor-stream adapter observes them, with the
    truthiness tests the adapter relies on (`x || fallback`, `x ? a : b`). */
module JsValues {

  /** The usual optional value: `None` stands for a property that is absent,
      `undefined` or `null`. */
  datatype Option<+T> = None | Some(value: T)

  /** A value or the thing that was thrown (or the promise rejected with). */
  datatype Result<+T, +E> = Ok(value: T) | Err(error: E)

  /** A JavaScript value. Numbers are integers here; objects (records,
      arrays, functions, Error instances) carry their own properties. */
  datatype Value =
    | Undefined
    | Null
    | Bool(b: bool)
    | Num(n: int)
    | Str(s: string)
    | Obj(fields: map<string, Value>)

  /** JavaScript truthiness: `undefined`, `null`, `false`, `0` and `""` are
      falsy, every other value (every object included) is truthy. */
  predicate Truthy(v: Value)
  {
    match v
    case Undefined => false
    case Null => false
    case Bool(b) => b
    case Num(n) => n != 0
    case Str(s) => s != ""
    case Obj(_) => true
  }

  /** A database row as returned by findMany: field name to value. */
  type Record = map<string, Value>

  /** Property access `r[key]`: a missing property reads as `undefined`. */
  function Get(r: map<string, Value>, key: string): Value
  {
    if key in r then r[key] else Undefined
  }

  /** The TypeError raised by reading a property of `undefined`. */
  const ReadOfUndefined: Value := Obj(map["name" := Str("TypeError")])
}
