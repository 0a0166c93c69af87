/** Option and Result types shared by the handler models. */
module Wrappers {

  /** A value that may be absent: the model of a C# reference that may be null. */
  datatype Option<+T> = None | Some(value: T)

  /** Either a value or the exception a .NET call would have thrown. */
  datatype Result<+R, +E> = Success(value: R) | Failure(error: E)
}
