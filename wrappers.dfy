// Option and result types shared by every module of the model.
module Wrappers {

  /** A C# reference that may be null: `None` is null. */
  datatype Option<T> = None | Some(value: T)

  /** The exceptions the modelled code throws, by .NET type. */
  datatype Exception =
    | InvalidOperation(message: string)
    | Argument(message: string)
    | NullReference
    | IndexOutOfRange
    | Format
    | Overflow

  /** A value or the exception that the C# code throws instead of returning one. */
  datatype Result<T> = Ok(value: T) | Err(error: Exception)

  /** A void operation that either completes or throws. */
  datatype Outcome = Pass | Fail(error: Exception)
}
