/** Option and Result, the failure-carrying values used across the model. */
module Wrappers {

  datatype Option<+T> = None | Some(value: T)

  /** An operation that either yields a value or raises an error of kind E. */
  datatype Result<+T, +E> = Ok(value: T) | Err(error: E)
}
