/** Failure-carrying wrappers shared by every module of the model. */
module Wrappers {

  /** Java's nullable references and Go's "not found" results. */
  datatype Option<+T> = None | Some(value: T)

  /** A value or the error (exception, Go error) that the source raises instead. */
  datatype Result<+T, +E> = Ok(value: T) | Err(error: E)
}
