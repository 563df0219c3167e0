/** Results of operations that can reject their arguments with a logic error. */
module Wrappers {

  /** A value, or the error that prevented computing it. */
  datatype Result<+T, +E> = Success(value: T) | Failure(error: E)

  /** Success without a value, or the error that stopped the operation. */
  datatype Outcome<+E> = Pass | Fail(error: E)
}
