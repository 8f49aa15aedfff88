/** Failure-carrying result types shared by the table model. */
module Wrappers {

  /** A value that may be absent, as Python's `X | None`. */
  datatype Option<+T> = None | Some(value: T)

  /** The outcome of one request: the row it returns, or the error that ended it. */
  datatype Result<+T, +E> = Ok(value: T) | Err(error: E)
}
