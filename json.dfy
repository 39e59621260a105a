/**
 * The part of JavaScript's value model that the dashboard's helpers touch:
 * parsed JSON values, plain objects as records, truthiness, the `||`
 * operator, property reads (`v.k` and `v?.k`) and object spread (`{...v}`).
 */
module Json {
  import opened Wrappers

  /** A JavaScript value as produced by `response.json()`, plus `undefined`. */
  datatype Value =
    | Undefined
    | Null
    | Bool(b: bool)
    | Num(r: real)
    | Str(s: string)
    | Arr(items: seq<Value>)
    | Obj(fields: Record)

  /** A plain object: its own enumerable properties. */
  type Record = map<string, Value>

  /** `r[k]` on a plain object: a missing property reads as `undefined`. */
  function Get(r: Record, k: string): Value
  {
    if k in r then r[k] else Undefined
  }

  /** JavaScript truthiness (NaN is not representable here). */
  predicate Truthy(v: Value)
  {
    match v
    case Undefined => false
    case Null => false
    case Bool(b) => b
    case Num(r) => r != 0.0
    case Str(s) => s != ""
    case Arr(_) => true
    case Obj(_) => true
  }

  /** `a || b`: the first operand when it is truthy, the second otherwise. */
  function Or(a: Value, b: Value): Value
  {
    if Truthy(a) then a else b
  }

  /** `undefined` and `null`, the values whose property reads throw. */
  predicate Nullish(v: Value)
  {
    v.Undefined? || v.Null?
  }

  /**
   * `v.k`: None stands for the TypeError thrown on a nullish `v`; a
   * primitive or an array has no such own property and reads `undefined`.
   */
  function Member(v: Value, k: string): (r: Option<Value>)
    ensures r.None? <==> Nullish(v)
    ensures v.Obj? ==> r == Some(Get(v.fields, k))
  {
    match v
    case Undefined => None
    case Null => None
    case Obj(f) => Some(Get(f, k))
    case _ => Some(Undefined)
  }

  /** `v?.k`: optional chaining never throws. */
  function OptionalMember(v: Value, k: string): (r: Value)
    ensures Nullish(v) ==> r == Undefined
    ensures !Nullish(v) ==> Member(v, k) == Some(r)
  {
    Member(v, k).GetOr(Undefined)
  }

  /** The properties `{...v}` copies; non-objects contribute none here. */
  function OwnFields(v: Value): Record
  {
    if v.Obj? then v.fields else map[]
  }
}
