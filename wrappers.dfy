/** Failure-carrying result types shared by the modules of this model. */
module Wrappers {

  /** A value that may be absent (JavaScript `null` or `undefined`). */
  datatype Option<+T> = None | Some(value: T)

  /** The value a call returns, or the error it throws or rejects with. */
  datatype Result<+T, +E> = Ok(value: T) | Err(error: E)

  /** A call that returns nothing useful, or throws an error. */
  datatype Outcome<+E> = Pass | Fail(error: E)
}
