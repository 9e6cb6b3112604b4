/** Values shared by every part of the model: optional values and JavaScript truthiness. */
module Base {

  /** An optional value: a JavaScript value that may be `undefined` or `null`. */
  datatype Option<T> = None | Some(value: T)

  /**
   * A member of a request body that no schema checked: missing (`undefined`), `null`, or a
   * string. A destructuring default such as `{ mode = 'login' }` replaces only a missing
   * member, never `null`. Any other JSON value (a number, an object) takes the same branches
   * as `null` wherever the model uses this type.
   */
  datatype BodyField = Missing | Null | Given(text: string)

  /** JavaScript truthiness of an optional string: present and not the empty string. */
  predicate Truthy(s: Option<string>) {
    s.Some? && s.value != ""
  }

  /** `a || b` on optional strings: `a` when it is truthy, `b` otherwise. */
  function OrElse(a: Option<string>, b: Option<string>): (r: Option<string>)
    ensures Truthy(a) ==> r == a
    ensures !Truthy(a) ==> r == b
  {
    if Truthy(a) then a else b
  }

  /** `s || undefined`: the string when it is truthy, nothing otherwise. */
  function OrUndefined(s: Option<string>): (r: Option<string>)
    ensures r.Some? <==> Truthy(s)
    ensures r.Some? ==> r == s
  {
    if Truthy(s) then s else None
  }

  /** `a || b` with a string fallback: `a` when it is truthy, `b` otherwise; never empty when `b` is not. */
  function OrDefault(a: Option<string>, b: string): (r: string)
    ensures Truthy(a) ==> r == a.value
    ensures !Truthy(a) ==> r == b
    ensures r == "" ==> b == ""
  {
    if Truthy(a) then a.value else b
  }
}
