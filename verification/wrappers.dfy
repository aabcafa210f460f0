/** Option and Result datatypes used across the model. */
module Wrappers {

  /** `None` stands for the source's `null`. */
  datatype Option<+T> = None | Some(value: T)

  /** A computation that either returns a value or fails with an error. */
  datatype Result<+R, +E> = Success(value: R) | Failure(error: E)
}
