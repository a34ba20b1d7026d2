/** Failure-compatible wrappers used across the model: `Option` stands for a
    value that may be absent (a missing key, a NaN cell, a failed fetch) and
    `Result` for an operation that can raise an error to its caller. */
module Wrappers {

  datatype Option<+T> = None | Some(value: T) {

    /** The wrapped value, or `default` when absent (Python's `d.get(k, default)`). */
    function GetOr(default: T): T {
      match this
      case Some(v) => v
      case None => default
    }
  }

  datatype Result<+R, +E> = Success(value: R) | Failure(error: E)
}
