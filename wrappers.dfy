/** Failure-carrying results used for the container's error paths. */
module Wrappers {

  /** An optional value; `None` stands for a null reference. */
  datatype Option<+T> = None | Some(value: T)

  /** The value of an operation that either returns or fails with an error. */
  datatype Result<+R, +E> = Success(value: R) | Failure(error: E)

  /** The outcome of an operation that returns nothing or fails with an error. */
  datatype Outcome<+E> = Pass | Fail(error: E)
}
