/** The `Option` and `Result` datatypes, used for Python's `None` and for raised exceptions. */
module Wrappers {

  /** A value or Python's `None`. */
  datatype Option<+T> = None | Some(value: T)

  /** Either a returned value or a raised exception. */
  datatype Result<+R, +E> = Success(value: R) | Failure(error: E)
}
