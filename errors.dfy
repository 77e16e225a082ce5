/** Exceptions thrown by the modelled C++ code, as values. */
module Errors {

  /** The standard exception classes the core throws. */
  datatype ErrorKind = LogicError | OutOfRange | RuntimeError

  /** The outcome of a `void` operation that may throw. */
  datatype Outcome = Ok | Throw(kind: ErrorKind, message: string)

  /** The outcome of an operation that returns a value or throws. */
  datatype Result<+T> = Success(value: T) | Failure(kind: ErrorKind, message: string)

  /** An owning pointer that may be null. */
  datatype Option<+T> = None | Some(value: T)
}
