/** Failure-compatible wrappers used across the model. */
module Wrappers {

  /** An optional value: an attribute that may be absent, a file that may not be written. */
  datatype Option<+T> = None | Some(value: T)

  /** The outcome of a step that can raise: a value, or the error that ends the run. */
  datatype Result<+T, +E> = Success(value: T) | Failure(error: E)
}
