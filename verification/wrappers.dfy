/** Failure-carrying wrappers shared by the model: `Option` stands for a Java
    reference that may be null, `Result` for an operation that can fail. */
module Wrappers {

  /** A value that may be absent; `None` plays the part of Java's `null`. */
  datatype Option<+T> = None | Some(value: T)

  /** The outcome of an operation that either succeeds with a value or fails
      with an error. */
  datatype Result<+R, +E> = Success(value: R) | Failure(error: E)
}
