/** Failure-carrying datatypes shared by the schedule model. */
module Wrappers {

  /** A value that may be absent: JavaScript's `null`/`undefined` cases. */
  datatype Option<+T> = None | Some(value: T)

  /** The outcome of an operation that can throw: a value or the error it raised. */
  datatype Result<+R, +E> = Success(value: R) | Failure(error: E)
}
