/** Failure-compatible wrappers shared by every module of the model. */
module Wrappers {

  datatype Option<+T> = None | Some(value: T)

  /** The outcome of an operation that may raise: `Failure` carries what was raised. */
  datatype Result<+T, +E> = Success(value: T) | Failure(error: E)
}
