/** Option and Result, the failure-carrying values used across the model. */
module Wrappers {

  /** A Java reference that may be null. */
  datatype Option<+T> = None | Some(value: T)

  /** The outcome of a Java call that either returns or throws. */
  datatype Result<+T, +E> = Ok(value: T) | Err(error: E)
}
