/** Values that may be missing, and computations that may fail. */
module Wrappers {

  /** A value that may be missing: NaN or None in a nullable column. */
  datatype Option<+T> = None | Some(value: T) {

    /** The value, or `default` when it is missing: filling one missing cell. */
    function GetOr(default: T): T {
      match this
      case Some(v) => v
      case None => default
    }
  }

  /** The outcome of a step that either produces a value or raises an error. */
  datatype Result<+T, +E> = Success(value: T) | Failure(error: E)
}
