/** Wrappers shared by every module of the model, and JavaScript's truthiness of an optional string. */
module Base {

  /** A value that may be absent: JavaScript's `undefined`/`null` becomes None. */
  datatype Option<+T> = None | Some(value: T)

  /** The outcome of an operation that can throw: Failure carries what was thrown. */
  datatype Result<+T, +E> = Success(value: T) | Failure(error: E)

  /** An optional string is truthy in JavaScript when it is present and not "". */
  predicate Truthy(s: Option<string>) {
    s.Some? && s.value != ""
  }

  /** JavaScript's `a || b` on optional strings. */
  function OrElse(a: Option<string>, b: Option<string>): (r: Option<string>)
    ensures Truthy(a) ==> r == a
    ensures !Truthy(a) ==> r == b
  {
    if Truthy(a) then a else b
  }
}
