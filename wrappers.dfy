/** Option and Result: the model's stand-ins for Java's null returns and exceptions. */
module Wrappers {

  datatype Option<+T> = None | Some(value: T) {
    /** The value, or `default` where Java would see null. */
    function GetOr(default: T): T {
      match this
      case Some(v) => v
      case None => default
    }
  }

  datatype Result<+R, +E> = Success(value: R) | Failure(error: E)

  /** The outcome of a `void` Java method that either returns or throws. */
  datatype Outcome<+E> = Pass | Fail(error: E)
}
