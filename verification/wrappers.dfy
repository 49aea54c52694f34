/** Failure-carrying values used throughout the model. */
module Wrappers {

  /** A value that may be absent: Python's `None` or a missing dictionary key. */
  datatype Option<+T> = None | Some(value: T)

  /** The outcome of a run that can be refused before doing any work. */
  datatype Result<+R, +E> = Ok(value: R) | Err(error: E)
}
