/** The `Option` and `Result` datatypes shared by the rest of the model. */
module Wrappers {

  /** A value that may be absent; stands in for Python's `None`. */
  datatype Option<+T> = None | Some(value: T)

  /** The outcome of an operation that may raise. */
  datatype Result<+R, +E> = Success(value: R) | Failure(error: E)
}
