/** The JSON values the proxy passes through: request bodies, feature maps and
    upstream events. Floating-point numbers are not modelled. */
module Json {
  datatype Value =
    | Null
    | Bool(b: bool)
    | Int(i: int)
    | Str(s: string)
    | Arr(items: seq<Value>)
    | Obj(fields: map<string, Value>)

  /** Python's `bool(v)` on the decoded value. */
  predicate Truthy(v: Value) {
    match v
    case Null => false
    case Bool(b) => b
    case Int(i) => i != 0
    case Str(s) => s != ""
    case Arr(items) => |items| > 0
    case Obj(fields) => |fields| > 0
  }

  /** Python's `d.get(k)`: `None` (here `Null`) for a missing key. */
  function Get(m: map<string, Value>, k: string): Value {
    if k in m then m[k] else Null
  }
}
