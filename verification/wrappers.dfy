/** Failure-carrying datatypes shared by the renderer and the catalog builder. */
module Wrappers {

  /** A value that may be missing (Python's `None`). */
  datatype Option<+T> = None | Some(value: T)

  /** The outcome of an operation that may raise: the value or the error it raised. */
  datatype Result<+T, +E> = Success(value: T) | Failure(error: E)
}
