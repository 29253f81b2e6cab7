/** Failure-carrying values returned by the operations of the model. */
module Wrappers {

  /** A value that may be absent (a Go pointer that may be nil, an optional field). */
  datatype Option<+T> = None | Some(value: T)

  /** Either a value or an error, as a Go `(value, error)` pair is used. */
  datatype Result<+T, +E> = Success(value: T) | Failure(error: E)
}
