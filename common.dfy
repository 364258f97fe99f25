/** Values shared by every handler of the backend: optional request fields,
    the JSON reply envelope, and document ids. */
module Common {

  /** A request field that may be absent (`undefined` in the handler). */
  datatype Option<+T> = None | Some(value: T)

  /** A document id (MongoDB `_id`); the store hands them out fresh. */
  type Id = nat

  /** The reply a handler sends: `res.status(code).json({ ok: true, ... })`
      or `res.status(code).json({ ok: false, error })`. */
  datatype Reply<+T> = Success(code: int, value: T) | Failure(code: int, error: string)

  /** JavaScript truthiness of an optional string field: absent and `''` are falsy. */
  predicate Truthy(s: Option<string>) {
    s.Some? && s.value != ""
  }

  /** `field || ''`: the field when it is truthy, otherwise the empty string. */
  function OrEmpty(s: Option<string>): (r: string)
    ensures Truthy(s) ==> r == s.value
    ensures !Truthy(s) ==> r == ""
  {
    if Truthy(s) then s.value else ""
  }
}
