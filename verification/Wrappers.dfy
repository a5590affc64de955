/** Results that may be missing, and the encoder's exceptions as values. */
module Wrappers {
  datatype Option<+T> = None | Some(value: T)

  /** The standard exceptions that the encoder throws. */
  datatype Error = DomainError | LengthError | InvalidArgument | DataTooLong | LogicError | OutOfRange

  datatype Result<+T> = Ok(value: T) | Fail(error: Error)
}
