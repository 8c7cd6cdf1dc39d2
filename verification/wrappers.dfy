/** Option and Result, the failure-carrying values of the model. */
module Wrappers {

  /** A value that may be absent: Python's `None` or a failed `int(...)`. */
  datatype Option<+T> = None | Some(value: T)

  /** A value or an error, for the request handlers' error replies. */
  datatype Result<+R, +E> = Ok(value: R) | Err(error: E)
}
