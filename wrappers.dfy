/** Nullable values and thrown exceptions, as datatypes. */
module Wrappers {

  /** A C# nullable reference (`string?`): either null or a value. */
  datatype Option<+T> = None | Some(value: T)

  /** A computation that either returns a value or throws an exception. */
  datatype Result<+R, +E> = Success(value: R) | Failure(error: E)
}
