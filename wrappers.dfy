/** The success-or-error value the model uses where the C# code throws. */
module Wrappers {

  datatype Result<+T, +E> = Success(value: T) | Failure(error: E)

  datatype Option<+T> = None | Some(value: T)
}
