/** Failure-compatible result types used across the model. */
module Wrappers {

  /** A value that may be absent, as Python's `None`. */
  datatype Option<T> = None | Some(value: T)

  /** The outcome of a computation that may raise an exception instead of returning. */
  datatype Result<T, E> = Success(value: T) | Failure(error: E)
}
