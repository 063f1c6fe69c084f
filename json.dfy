/**
 * Values produced by `JSON.parse` (RFC 8259), and the two JavaScript
 * operations the core applies to them: truthiness and optional-chaining
 * property access.
 */
module JsonValue {
  import opened Wrappers

  datatype Json =
    | Null
    | Bool(b: bool)
    | Number(n: real)
    | String(s: string)
    | Array(items: seq<Json>)
    | Object(fields: map<string, Json>)

  /** JavaScript truthiness: `null`, `false`, `0` and `""` are falsy. */
  predicate Truthy(v: Json)
  {
    match v
    case Null => false
    case Bool(b) => b
    case Number(n) => n != 0.0
    case String(s) => s != ""
    case Array(_) => true
    case Object(_) => true
  }

  /**
   * `v?.key` on a parsed value, with `None` for `undefined`. Only objects
   * have own properties that JSON can name; the keys looked up by the core
   * are none of the prototype's, so every other value yields `undefined`.
   */
  function Get(v: Option<Json>, key: string): (r: Option<Json>)
    ensures r.Some? <==> v.Some? && v.value.Object? && key in v.value.fields
    ensures r.Some? ==> r.value == v.value.fields[key]
  {
    match v
    case Some(Object(fields)) => if key in fields then Some(fields[key]) else None
    case _ => None
  }
}
