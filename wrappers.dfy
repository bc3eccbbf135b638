/** Failure-compatible wrappers shared by the model. */
module Wrappers {

  /** An optional value: Python's `None` or a present value. */
  datatype Option<+T> = None | Some(value: T)

  /** The value of an operation that may raise: `Failure` carries the reason. */
  datatype Result<+R, +E> = Success(value: R) | Failure(error: E)
}
