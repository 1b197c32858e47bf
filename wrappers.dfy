/** Failure-carrying values shared by every module of the model. */
module Wrappers {

  /** A value that may be absent (Python's Optional). */
  datatype Option<+T> = None | Some(value: T)

  /** The outcome of a call that either returns a value or raises an error. */
  datatype Result<+T, +E> = Success(value: T) | Failure(error: E)
}
