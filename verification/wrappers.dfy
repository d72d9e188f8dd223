/** Failure-carrying return values shared by the model's modules. */
module Wrappers {

  datatype Option<+T> = None | Some(value: T)

  /** The value of a computation that either yields a value or fails with an error. */
  datatype Result<+T, +E> = Success(value: T) | Failure(error: E)

  /** The value of a computation that either completes or fails with an error. */
  datatype Outcome<+E> = Pass | Fail(error: E)
}
