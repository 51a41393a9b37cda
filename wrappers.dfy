/** Option and Result datatypes shared by the other modules. */
module Wrappers {

  /** A value that may be absent; also stands for a .NET reference that may be null. */
  datatype Option<+T> = None | Some(value: T)

  /** Either a value or the error that a C# method would have thrown instead. */
  datatype Result<+T, +E> = Success(value: T) | Failure(error: E)
}
