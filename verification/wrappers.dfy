/** Failure-carrying wrappers used throughout the model. */
module Wrappers {

  /** Python's `None` or a present value. */
  datatype Option<+T> = None | Some(value: T)

  /** The outcome of a step that may raise: `Failure` carries the exception's message. */
  datatype Result<+T> = Success(value: T) | Failure(error: string)
}
