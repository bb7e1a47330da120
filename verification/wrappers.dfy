/** Failure-compatible wrappers used throughout the model. */
module Wrappers {

  /** A value that may be missing; `None` plays the part of JavaScript's `undefined`. */
  datatype Option<+T> = None | Some(value: T)

  /** The outcome of an entry point that may throw instead of returning. */
  datatype Result<+T, +E> = Success(value: T) | Failure(error: E)
}
