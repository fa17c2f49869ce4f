/** Option and Result values standing for JavaScript's `undefined`/`null` and for
    promises that resolve or reject. */
module Wrappers {

  datatype Option<+T> = None | Some(value: T) {
    function GetOr(default: T): T {
      match this
      case Some(v) => v
      case None => default
    }
  }

  datatype Result<+T, +E> = Ok(value: T) | Err(error: E)

  /** An optional string that JavaScript treats as true (`if (x)`,
      `x || d`): present and non-empty. */
  predicate Given(v: Option<string>)
  {
    v.Some? && v.value != ""
  }
}
