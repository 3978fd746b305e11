/** Option and Result values standing for Kotlin's nullable results and thrown exceptions. */
module Wrappers {
  datatype Option<T> = None | Some(value: T)

  datatype Result<T, E> = Success(value: T) | Failure(error: E)
}
