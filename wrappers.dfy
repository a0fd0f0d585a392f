/** Option, Result and Outcome, the failure-carrying values used in place of
    null references and exceptions throughout the model. */
module Wrappers {

  datatype Option<+T> = None | Some(value: T) {
    function GetOr(default: T): T {
      match this
      case Some(v) => v
      case None => default
    }
  }

  /** The value of a call that either returns normally or throws. */
  datatype Result<+R, +E> = Success(value: R) | Failure(error: E)

  /** The value of a call that returns nothing, or throws. */
  datatype Outcome<+E> = Pass | Fail(error: E)
}
