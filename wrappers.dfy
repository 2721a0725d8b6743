/** The failure-carrying types the model uses in place of the source's
    `None` values and raised HTTP exceptions. */
module Wrappers {

  datatype Option<+T> = None | Some(value: T) {

    /** The value in Some, or the default when None. */
    function GetOr(default: T): T {
      match this
      case Some(v) => v
      case None => default
    }
  }

  datatype Result<+T, +E> = Success(value: T) | Failure(error: E)
}
