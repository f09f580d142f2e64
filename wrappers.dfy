/** Option and Result values shared by the model's modules. */
module Wrappers {

  /** A value that may be absent (Objective-C `nil`). */
  datatype Option<+T> = None | Some(value: T)

  /** The outcome of an operation that can fail with an error value. */
  datatype Result<+R, +E> = Success(value: R) | Failure(error: E)
}
