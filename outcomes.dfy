/** Option and Result: absence of a value and the error path of an operation. */
module Outcomes {

  datatype Option<+T> = None | Some(value: T)

  /** The outcome of an operation that either yields a value or raises an error with a message. */
  datatype Result<+R, +E> = Success(value: R) | Failure(error: E)
}
