/** Option and Result, the failure-carrying datatypes used across the model. */
module Wrappers {

  /** A PHP value that may be null / unset: `None` plays the role of `null` or a missing key. */
  datatype Option<+T> = None | Some(value: T)

  /** The outcome of a step that either yields a value or stops with an error. */
  datatype Result<+T, +E> = Ok(value: T) | Err(error: E)
}
