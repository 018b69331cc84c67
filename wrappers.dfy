/** Option and Result values for the package's "maybe" and "may fail" results. */
module Wrappers {

  /** A value that may be absent (Python's `Optional`, `None`). */
  datatype Option<+T> = None | Some(value: T)

  /** The outcome of an operation that either succeeds or raises. */
  datatype Result<+T, +E> = Ok(value: T) | Err(error: E)
}
