/** Option and Result: the nullable values and Remora `Result`s of the
    service layer. */
module Wrappers {

  /** A value that may be absent (a C# `null` / an undefined `Optional<T>`). */
  datatype Option<+T> = None | Some(value: T)

  /** The outcome of an operation that may fail with an error value. */
  datatype Result<+R, +E> = Success(value: R) | Failure(error: E)
}
