/** Optional values and fallible results, used for nullable fields and for the
    exceptions the Python code raises. */
module Wrappers {

  /** A nullable value: `None` plays the role of Python's `None`. */
  datatype Option<+T> = None | Some(value: T)

  /** The outcome of a call that may raise: `Failure` carries the exception. */
  datatype Result<+T, +E> = Success(value: T) | Failure(error: E)
}
