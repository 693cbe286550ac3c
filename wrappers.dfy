/** Failure-carrying values used across the model. */
module Wrappers {

  datatype Option<+T> = None | Some(value: T)

  datatype Result<+T, +E> = Success(value: T) | Failure(error: E)

  /** A step that either passes or fails with an error and yields nothing. */
  datatype Outcome<+E> = Pass | Fail(error: E)
}
