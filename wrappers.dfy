/** Failure-carrying values used in place of thrown exceptions. */
module Wrappers {

  /** A value that may be absent: an optional record field, or an update field the caller left out. */
  datatype Option<+T> = None | Some(value: T) {
    function GetOr(default: T): T {
      match this
      case Some(v) => v
      case None => default
    }
  }

  /** The result of an operation that returns a value or throws. */
  datatype Result<+T, +E> = Ok(value: T) | Err(error: E)

  /** The result of an operation that returns nothing (`void`) or throws. */
  datatype Outcome<+E> = Pass | Fail(error: E)

  /** The one error the stores raise: `new Error(message)` for an unknown id. */
  datatype Error = NotFound(message: string)
}
