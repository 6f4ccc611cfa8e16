/** Failure-carrying values shared by the modules of this model. */
module Wrappers {

  /** A value that may be absent (a missing header, a parse that raised). */
  datatype Option<+T> = None | Some(value: T)

  /** A value or the error that stopped its computation. */
  datatype Result<+T, +E> = Success(value: T) | Failure(error: E)

  /** The outcome of a check that produces no value. */
  datatype Outcome<+E> = Pass | Fail(error: E)
}
