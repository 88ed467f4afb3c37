/** The two failure-carrying datatypes used throughout the model. */
module Wrappers {

  /** A value that may be absent (JavaScript `undefined` or `null`). */
  datatype Option<+T> = None | Some(value: T)

  /** A value, or the error that a JavaScript `throw` would have carried. */
  datatype Result<+T, +E> = Ok(value: T) | Err(error: E)
}
