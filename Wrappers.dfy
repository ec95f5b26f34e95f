/** Small failure-carrying datatypes shared by the other modules. */
module Wrappers {

  /** A value that may be absent: a missing form field, a JSON key that is not there, a role attribute the object lacks. */
  datatype Option<+T> = None | Some(value: T)

  /** The result of an operation that either succeeds with a value or fails with an error. */
  datatype Result<+T, +E> = Success(value: T) | Failure(error: E)

  /** The result of an operation that changes state and returns nothing on success. */
  datatype Outcome<+E> = Pass | Fail(error: E)
}
