/** Failure-carrying results used in place of the Java exceptions of the register. */
module Wrappers {

  datatype Option<T> = None | Some(value: T)

  datatype Result<T, E> = Success(value: T) | Failure(error: E)

  /** The outcome of an operation that returns nothing but may fail. */
  datatype Outcome<E> = Pass | Fail(error: E)
}
