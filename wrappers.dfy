/** Failure-carrying value types shared by every module of the model. */
module Wrappers {

  datatype Option<+T> = None | Some(value: T)

  /** A value, or the error a handler reports instead of it. */
  datatype Result<+T, +E> = Success(value: T) | Failure(error: E)

  /** A handler that either completes or reports an error. */
  datatype Outcome<+E> = Pass | Fail(error: E)
}
