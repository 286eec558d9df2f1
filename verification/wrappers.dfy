/** Absent values and outcomes that may carry an error, as used across the plugin model. */
module Wrappers {

  /** A value that may be missing (`undefined` or `null` in the plugin). */
  datatype Option<+T> = None | Some(value: T)

  /** The outcome of a call that may throw or reject; the error is its message. */
  datatype Result<+T> = Ok(value: T) | Err(error: string)
}
