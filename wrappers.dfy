/** Option and Result, the failure-carrying types used throughout the model.
    `None` stands for a missing or undefined value (pandas NaN, Python None). */
module Wrappers {

  datatype Option<+T> = None | Some(value: T) {
    function GetOr(default: T): T {
      match this
      case Some(v) => v
      case None => default
    }
  }

  /** A computation that either succeeds or raises the named exception. */
  datatype Result<+R> = Success(value: R) | Failure(error: string)
}
