/** Failure-carrying result types shared by the whole model. */
module Wrappers {

  /** A value that may be absent: the model's stand-in for Python's `None`. */
  datatype Option<+T> = None | Some(value: T)

  /** The outcome of an operation that either produces a value or fails with an error;
      used where the importer raises an exception. */
  datatype Result<+T, +E> = Success(value: T) | Failure(error: E)
}
