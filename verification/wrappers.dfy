/** Option, Result and Outcome: the values and error returns the rest of the model uses. */
module Wrappers {

  datatype Option<+T> = None | Some(value: T) {
    function GetOr(default: T): T {
      match this
      case Some(v) => v
      case None => default
    }
  }

  datatype Result<+R, +E> = Success(value: R) | Failure(error: E)

  /** An operation that returns nothing but may raise. */
  datatype Outcome<+E> = Pass | Fail(error: E)
}
