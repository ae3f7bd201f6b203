/** The values that JSON.stringify writes and JSON.parse reads back, with
    JavaScript's truthiness and property reads on them. */
module Json {
  import opened JsResults

  /** A parsed JSON value. Numbers are integers in this model. */
  datatype Value =
    | Null
    | Bool(b: bool)
    | Num(n: int)
    | Str(s: string)
    | Arr(items: seq<Value>)
    | Obj(fields: map<string, Value>)

  /** JavaScript truthiness: `null`, `false`, `0` and `""` are falsy, every
      array and object is truthy. */
  predicate Truthy(v: Value) {
    match v
    case Null => false
    case Bool(b) => b
    case Num(n) => n != 0
    case Str(s) => s != ""
    case Arr(_) => true
    case Obj(_) => true
  }

  /** Reading property `name` of `v`, for a name that is not a built-in
      property: only an object holding that key yields something. */
  function Field(v: Value, name: string): (r: Option<Value>)
    ensures r.Some? <==> v.Obj? && name in v.fields
    ensures r.Some? ==> r.value == v.fields[name]
  {
    match v
    case Obj(fields) => if name in fields then Some(fields[name]) else None
    case _ => None
  }

  /** A numeric property of `v`, where a missing or falsy property counts as 0. */
  function NumOr0(v: Value, name: string): int {
    match Field(v, name)
    case Some(Num(n)) => n
    case _ => 0
  }
}
