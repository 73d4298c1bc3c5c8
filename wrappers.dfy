/** Option and Result, shared by the whole model. */
module Wrappers {

  /** A value that may be absent: Python's `None`, JavaScript's `null` / `undefined`. */
  datatype Option<+T> = None | Some(value: T)

  /** The outcome of an operation that can fail with an error value. */
  datatype Result<+T, +E> = Success(value: T) | Failure(error: E)
}
