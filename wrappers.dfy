/** Failure-carrying values shared by every module of the model. */
module Wrappers {

  /** A value that may be absent (std::optional in the source). */
  datatype Option<+T> = None | Some(value: T)

  /** The outcome of a step that can throw: a value, or a caught exception. */
  datatype Result<+T> = Ok(value: T) | Fail
}
