/** Option and Result, the failure-carrying values used across the model. */
module Wrappers {

  datatype Option<+T> = None | Some(value: T)

  /** A rejected promise or a thrown Error becomes `Failure`. */
  datatype Result<+T, +E> = Success(value: T) | Failure(error: E)
}
