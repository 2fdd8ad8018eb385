/** Failure-compatible wrappers shared by the whole model. */
module Wrappers {

  /** A value that may be absent (Java's `null` or `Optional.empty()`). */
  datatype Option<+T> = None | Some(value: T)

  /** The outcome of an operation that may fail with an error value (a thrown exception). */
  datatype Result<+R, +E> = Success(value: R) | Failure(error: E)
}
