/** Option and Result, the two failure-carrying values the model returns. */
module Wrappers {

  /** Python's `None` versus a present value. */
  datatype Option<+T> = None | Some(value: T)

  /** A value, or the exception the script would raise instead. */
  datatype Result<+T, +E> = Ok(value: T) | Err(error: E)
}
