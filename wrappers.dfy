/** Option, Result and Outcome values for the error returns of the handlers. */
module Wrappers {

  datatype Option<T> = None | Some(value: T)

  datatype Result<T, E> = Ok(value: T) | Err(error: E)

  /** The result of an operation that returns nothing but may fail (Go's `error`). */
  datatype Outcome<E> = Pass | Fail(error: E)
}
