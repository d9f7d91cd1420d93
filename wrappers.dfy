/** The optional-value and outcome types shared by the whole model. */
module Wrappers {

  /** A value that may be absent: JavaScript's `undefined`/`null` stand for `None`. */
  datatype Option<+T> = None | Some(value: T)

  /** The outcome of an operation that either produces a value or raises an error. */
  datatype Result<+R, +E> = Success(value: R) | Failure(error: E)
}
