/** The optional values and results the model's operations return. */
module Wrappers {

  /** A value that may be absent, as a Python `dict.get` or an optional column. */
  datatype Option<+T> = None | Some(value: T)

  /** Either a value or the error an operation raised in its place. */
  datatype Result<+R, +E> = Success(value: R) | Failure(error: E)
}
