/** Option and Result, the two failure-carrying shapes the model uses. */
module Wrappers {

  /** A value that may be absent: what an abstract parser returns. */
  datatype Option<+T> = None | Some(value: T)

  /** A computation that either succeeds with a value or raises an error. */
  datatype Result<+T, +E> = Ok(value: T) | Err(error: E)
}
