/** Values shared by every module of the order-placement model. */
module Shared {

  /** Entity identifiers (uuid strings in the database). */
  type Id = string

  /** A lookup that may find nothing. */
  datatype Option<+T> = None | Some(value: T)

  /** The outcome of an operation that either produces a value or raises an application error. */
  datatype Result<+T, +E> = Success(value: T) | Failure(error: E)
}
