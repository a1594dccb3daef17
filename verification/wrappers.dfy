/** Failure-carrying wrappers shared by every module of the model. */
module Wrappers {

  /** A value that may be absent (Python's `None`, a missing dictionary key). */
  datatype Option<+T> = None | Some(value: T)

  /** The outcome of a Python operation that may raise instead of returning. */
  datatype Result<+T, +E> = Success(value: T) | Failure(error: E)
}
