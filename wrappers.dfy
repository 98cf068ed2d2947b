/** Option and Result, used wherever the modelled code returns `None` or raises. */
module Wrappers {

  /** A value that may be absent (Python's `None`, or an exception that the caller sees as "no result"). */
  datatype Option<+T> = None | Some(value: T)

  /** The outcome of an operation that either returns a value or raises an error. */
  datatype Result<+T, +E> = Ok(value: T) | Err(error: E)
}
