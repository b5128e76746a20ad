/** Option and Result, the failure-carrying values used by every other module. */
module Wrappers {

  datatype Option<+T> = None | Some(value: T)

  /** A computation that either produced a value or raised one of the source's errors. */
  datatype Result<+T, +E> = Ok(value: T) | Err(error: E)
}
