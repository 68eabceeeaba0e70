/** Option and Result, the two failure-carrying value types the model uses. */
module Wrappers {

  /** A value that may be absent (a missing cell of a table). */
  datatype Option<+T> = None | Some(value: T)

  /** The outcome of an operation that either produces a value or raises. */
  datatype Result<+T, +E> = Ok(value: T) | Err(error: E)
}
