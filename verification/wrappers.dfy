/** Failure-carrying result types used throughout the model. */
module Wrappers {

  /** A value that may be absent: an HTML attribute that is not set, an HTTP
      header that is missing, a search that found nothing. */
  datatype Option<+T> = None | Some(value: T) {

    /** The value, or `default` when absent. */
    function GetOr(default: T): T {
      match this
      case Some(v) => v
      case None => default
    }
  }

  /** The outcome of an operation that can fail with an error of type `E`. */
  datatype Result<+R, +E> = Success(value: R) | Failure(error: E)
}
