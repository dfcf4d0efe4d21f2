/** JSON request bodies and query values as JavaScript sees them, with the
    runtime type tests the services apply to them (`typeof`, truthiness,
    optional chaining, `??`).
 */
module JsValues {

  /** A JavaScript value that can arrive in a JSON body, a query string or a
      header. Numbers are integers in this model. */
  datatype Value =
    | Undefined
    | Null
    | Bool(b: bool)
    | Num(n: int)
    | Str(s: string)
    | Arr(items: seq<Value>)
    | Obj(fields: map<string, Value>)

  /** The `typeof` operator. */
  function TypeOf(v: Value): string {
    match v
    case Undefined => "undefined"
    case Null => "object"
    case Bool(_) => "boolean"
    case Num(_) => "number"
    case Str(_) => "string"
    case Arr(_) => "object"
    case Obj(_) => "object"
  }

  /** JavaScript truthiness: `undefined`, `null`, `false`, `0` and `""` are falsy. */
  predicate Truthy(v: Value) {
    match v
    case Undefined => false
    case Null => false
    case Bool(b) => b
    case Num(n) => n != 0
    case Str(s) => s != ""
    case Arr(_) => true
    case Obj(_) => true
  }

  /** `v?.key`: a missing property, or any property of a non-object, reads as `undefined`. */
  function Prop(v: Value, key: string): Value {
    if v.Obj? && key in v.fields then v.fields[key] else Undefined
  }

  /** `undefined` or `null`: what `??`, `?.` and `@IsOptional()` treat as missing. */
  predicate Nullish(v: Value) {
    v.Undefined? || v.Null?
  }

  /** `v ?? d`. */
  function Coalesce(v: Value, d: Value): (r: Value)
    ensures r == v || r == d
    ensures r == d <==> v == d || v.Undefined? || v.Null?
  {
    if Nullish(v) then d else v
  }

  /** `m[key]` on a parsed JSON object or query: `undefined` when absent. */
  function Member(m: map<string, Value>, key: string): (r: Value)
    ensures r == Prop(Obj(m), key)
  {
    if key in m then m[key] else Undefined
  }

  /** `isRecord` of the channel-config service: `typeof v === 'object'`,
      not `null`, not an array. Exactly the plain objects pass it. */
  predicate IsRecord(v: Value)
    ensures IsRecord(v) <==> v.Obj?
  {
    TypeOf(v) == "object" && !v.Null? && !v.Arr?
  }
}
