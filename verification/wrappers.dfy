/** Failure-carrying values shared by the frame-capture model. */
module Wrappers {

  /** A value that may be absent: JavaScript's `undefined` / optional field. */
  datatype Option<+T> = None | Some(value: T)

  /** The settled state of a promise: resolved with a value or rejected with an error. */
  datatype Result<+T, +E> = Ok(value: T) | Err(error: E)
}
