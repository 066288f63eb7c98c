/** JavaScript values as `JSON.parse` produces them, plus `undefined` for a
    property that is missing. Objects keep their members in the order of the
    JSON text; a repeated member name is allowed, as `JSON.parse` allows it. */
module Json {
  import opened Wrappers
  import opened Dicts
  import Decimal

  datatype Value =
    | Undefined
    | Null
    | Bool(b: bool)
    | Num(n: real)
    | Str(s: string)
    | Arr(items: seq<Value>)
    | Obj(fields: seq<(string, Value)>)

  /** `JSON.stringify`, taken as an uninterpreted total function to strings. */
  type Stringify = Value -> string

  /** `JSON.parse`: `None` stands for the `SyntaxError` it throws. */
  type Parse = string -> Option<Value>

  /** `TypeError`: reading a property of `null` or `undefined`. */
  datatype TypeError = CannotReadProperty(key: string)

  /** JavaScript truthiness (`JSON.parse` yields no `NaN`). */
  predicate Truthy(v: Value) {
    match v
    case Undefined => false
    case Null => false
    case Bool(b) => b
    case Num(n) => n != 0.0
    case Str(s) => s != ""
    case _ => true
  }

  /** An object's own properties: a repeated member name keeps its first
      position and its last value, as `JSON.parse` builds the object. */
  function Members(fields: seq<(string, Value)>): Dict<Value>
  {
    FromEntries(fields)
  }

  /** `Object.entries(v)` for a value that is neither `null` nor `undefined`:
      an object's members, an array's or a string's indices, nothing for a
      boolean or a number. */
  function Entries(v: Value): (r: seq<(string, Value)>)
  {
    match v
    case Obj(fields) => Items(Members(fields))
    case Arr(items) => seq(|items|, i requires 0 <= i < |items| => (Decimal.NatToString(i), items[i]))
    case Str(s) => seq(|s|, i requires 0 <= i < |s| => (Decimal.NatToString(i), Str([s[i]])))
    case _ => []
  }

  /** `v[key]` for the property names the modelled code reads (`thingId`,
      `attributes`, `features`), none of which exists on a built-in prototype. */
  function Property(v: Value, key: string): (r: Result<Value, TypeError>)
    ensures r.Err? <==> v.Undefined? || v.Null?
  {
    match v
    case Undefined => Err(CannotReadProperty(key))
    case Null => Err(CannotReadProperty(key))
    case Obj(fields) => Ok(Get(Members(fields), key).GetOr(Undefined))
    case _ => Ok(Undefined)
  }
}
