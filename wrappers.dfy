/** Option and Result, the failure-carrying values used throughout the model. */
module Wrappers {

  datatype Option<+T> = None | Some(value: T)

  /** Ok carries a value; Err carries the reason the Python code would raise. */
  datatype Result<+R, +E> = Ok(value: R) | Err(error: E)
}
