/** Option and Result, used throughout the model. */
module Wrappers {

  /** An optional value: a missing document, a missing field. */
  datatype Option<+T> = None | Some(value: T)

  /** The outcome of a fallible computation such as amount parsing. */
  datatype Result<+T, +E> = Success(value: T) | Failure(error: E)
}
