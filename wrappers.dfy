/** Optional values and results with an error message, as used throughout the model. */
module Wrappers {

  /** A value that may be absent (a `None` or a missing/NaN cell in the source). */
  datatype Option<+T> = None | Some(value: T)

  /** The outcome of a call that may raise: `Ok` with a value or `Err` with the message. */
  datatype Result<+T> = Ok(value: T) | Err(message: string)
}
