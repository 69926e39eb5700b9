/** Failure-carrying wrappers used throughout the model. */
module Outcomes {

  /** A value that may be missing (a Python call that raises instead of returning). */
  datatype Option<+T> = None | Some(value: T)

  /** A computed value, or the error that aborts the request. */
  datatype Result<+T, +E> = Ok(value: T) | Err(error: E)

  /** Success without a payload, or the error that aborts the request. */
  datatype Outcome<+E> = Pass | Fail(error: E)
}
