/** Option and Result values shared by every module of the model. */
module Wrappers {

  /** A JavaScript value that may be `null`/`undefined` (`None`) or present (`Some`). */
  datatype Option<+T> = None | Some(value: T) {
    function GetOr(default: T): T {
      match this
      case Some(v) => v
      case None => default
    }
  }

  /** The `Result` returned by the calendar domain: `ok(value)` or `err(error)`. */
  datatype Result<+T, +E> = Success(value: T) | Failure(error: E)
}
