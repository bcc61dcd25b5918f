/** Failure-compatible wrappers shared by every module of the calculator model. */
module Wrappers {

  /** A JavaScript value that may be `null`. */
  datatype Option<+T> = None | Some(value: T)

  /** A JavaScript exception: an `Error` object with its message, or any other thrown value. */
  datatype Exception = ErrorObject(message: string) | NonError

  /** How a JavaScript call completes: it returns a value or throws. */
  datatype Completion<+T> = Normal(value: T) | Thrown(exception: Exception)

  /** JavaScript `x || null` on an optional string: the empty string is falsy, so it reads as null. */
  function OrNull(x: Option<string>): (r: Option<string>)
    ensures r.Some? <==> x.Some? && x.value != ""
    ensures r.Some? ==> r == x
  {
    match x
    case Some(s) => if s == "" then None else x
    case None => None
  }

  /** JavaScript `x || fallback` on an optional string: absent and `''` both give the fallback. */
  function OrElse(x: Option<string>, fallback: string): (r: string)
    ensures x.Some? && x.value != "" ==> r == x.value
    ensures x.None? || x.value == "" ==> r == fallback
  {
    match x
    case Some(s) => if s == "" then fallback else s
    case None => fallback
  }
}
