/** Failure-aware wrappers shared by the modules of this model. */
module Wrappers {

  /** A value that may be absent: JavaScript's null / Python's None. */
  datatype Option<+T> = None | Some(value: T)

  /** The result of an operation that may throw instead of returning. */
  datatype Result<+T, +E> = Success(value: T) | Failure(error: E)
}
