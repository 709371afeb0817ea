/** Option and Result datatypes shared by the modules of this model. */
module Wrappers {

  datatype Option<+T> = None | Some(value: T)

  /** The outcome of an operation that the original raises an exception for. */
  datatype Result<+T, +E> = Success(value: T) | Failure(error: E)
}
