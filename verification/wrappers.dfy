/** Option and Result, used for nullable lookups and for the store's failures. */
module Wrappers {

  /** A value that may be absent: a lookup that finds nothing returns None. */
  datatype Option<+T> = None | Some(value: T)

  /** The outcome of an operation that can fail instead of returning a value. */
  datatype Result<+R, +E> = Ok(value: R) | Err(error: E)
}
