/** Failure-carrying result types shared by both halves of the model. */
module Wrappers {

  /** A value that may be absent: the model of a C# nullable return. */
  datatype Option<+T> = None | Some(value: T)

  /** Either a computed value or the reason the computation failed:
      the model of a C# method that returns or throws. */
  datatype Result<+R, +E> = Success(value: R) | Failure(error: E)
}
