/** Failure-carrying datatypes shared by every module of the model. */
module Wrappers {

  datatype Option<+T> = None | Some(value: T)

  /** The outcome of an operation that returns a value or an error. */
  datatype Result<+T, +E> = Success(value: T) | Failure(error: E)

  /** The outcome of an operation that only reports an error (Go's `error`, nil on success). */
  datatype Outcome<+E> = Pass | Fail(error: E)
}
