/** Failure-carrying results used throughout the model in place of Python's
    `None` returns and raised exceptions. */
module Wrappers {

  /** `Optional[T]` in the source: either a value or `None`. */
  datatype Option<+T> = None | Some(value: T) {
    function GetOr(default: T): T {
      match this
      case Some(v) => v
      case None => default
    }
  }

  /** A value or the exception the source would raise, as a message. */
  datatype Result<+R> = Success(value: R) | Failure(error: string)
}
