/** Outcome types for operations that can fail. The modelled code reports failure by raising
    an exception; here the failure is returned as a value instead. */
module Wrappers {

  datatype Option<+T> = None | Some(value: T)

  /** The result of an operation that returns a value or fails. */
  datatype Result<+R, +E> = Success(value: R) | Failure(error: E)

  /** The result of an operation that returns nothing or fails. */
  datatype Outcome<+E> = Pass | Fail(error: E)
}
