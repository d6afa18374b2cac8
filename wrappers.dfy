/** Small value wrappers shared by every module of the model. */
module Wrappers {

  /** A JavaScript value that may be `null`/`undefined`. */
  datatype Option<+T> = None | Some(value: T) {
    function GetOr(default: T): T
    {
      match this
      case Some(v) => v
      case None => default
    }
  }

  /** The outcome of an awaited API request: it was rejected (the call threw),
      or it resolved with a body that may itself be `null`. */
  datatype Fetch<+T> = Failed | Received(body: Option<T>)

  /** JavaScript's `x || fallback` on a string that may be missing:
      `null`, `undefined` and `""` are falsy. */
  function OrText(x: Option<string>, fallback: string): (r: string)
    ensures x.Some? && x.value != "" ==> r == x.value
    ensures (x.None? || x.value == "") ==> r == fallback
  {
    if x.Some? && x.value != "" then x.value else fallback
  }

  /** JavaScript's `x || fallback` on a number that may be missing:
      `null`, `undefined` and `0` are falsy. */
  function OrNumber(x: Option<int>, fallback: int): (r: int)
    ensures x.Some? && x.value != 0 ==> r == x.value
    ensures (x.None? || x.value == 0) ==> r == fallback
  {
    if x.Some? && x.value != 0 then x.value else fallback
  }

  /** `x || fallback` on a number that may have a fraction. */
  function OrReal(x: Option<real>, fallback: real): (r: real)
    ensures x.Some? && x.value != 0.0 ==> r == x.value
    ensures (x.None? || x.value == 0.0) ==> r == fallback
  {
    if x.Some? && x.value != 0.0 then x.value else fallback
  }
}
