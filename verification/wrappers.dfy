/** Failure-compatible result types used across the model. */
module Wrappers {

  /** Python's `None` or a present value. */
  datatype Option<+T> = None | Some(value: T) {

    /** The value if present, else the default (Python's `x or default` for a value that is never empty). */
    function GetOr(default: T): T
    {
      match this
      case Some(v) => v
      case None => default
    }
  }

  /** The outcome of an operation that can fail with an error of type E. */
  datatype Result<+R, +E> = Success(value: R) | Failure(error: E)
}
