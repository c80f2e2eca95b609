/** Option and Result datatypes shared by the three programs' models. */
module Wrappers {

  /** A value that may be absent; None plays the part of Java's null. */
  datatype Option<+T> = None | Some(value: T)

  /** The outcome of an operation that may throw in the source. */
  datatype Result<+T, +E> = Success(value: T) | Failure(error: E)
}
