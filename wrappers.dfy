module Wrappers {
  /** The outcome of an operation that can raise or panic. */
  datatype Result<T> = Success(value: T) | Failure(error: string)

  /** A value that may be absent, as a Java `null`. */
  datatype Option<T> = None | Some(value: T)
}
