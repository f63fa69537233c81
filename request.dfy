/** Values as they arrive in a JSON request body or a query string, and
    JavaScript's notion of truthiness that the handlers test with `!x`. */
module Request {

  /** A request field: `None` is a field that is absent (`undefined`). */
  datatype Option<+T> = None | Some(value: T)

  /** A JSON value. Numbers are reals; NaN is not modelled. Objects and
      arrays are lumped together as `Compound`, which keeps only their
      truthiness: the settings value and the optional signup fields can be
      such a value, and are then stored as a `Compound` without contents. */
  datatype Value =
    | Null
    | Bool(b: bool)
    | Num(n: real)
    | Str(s: string)
    | Compound

  /** `!!v` in JavaScript: `undefined`, `null`, `false`, `0` and `''` are falsy. */
  predicate Truthy(v: Option<Value>)
  {
    match v
    case None => false
    case Some(Null) => false
    case Some(Bool(b)) => b
    case Some(Num(n)) => n != 0.0
    case Some(Str(s)) => s != ""
    case Some(Compound) => true
  }

  /** A text field that passes a `!field` check: present and not the empty string. */
  predicate Present(f: Option<string>)
  {
    f.Some? && f.value != ""
  }
}
