/** Option and Result, the two failure-carrying values the model uses. */
module Wrappers {

  datatype Option<+T> = None | Some(value: T)

  /** Ok carries the value of a call that returned; Err the exception it raised. */
  datatype Result<+T, +E> = Ok(value: T) | Err(error: E)
}
