/** Option and Result, used for map lookups and for the error returns of
    the format handlers. */
module Wrappers {

  datatype Option<+T> = None | Some(value: T)

  /** A value or the error that replaced it, like Go's `(T, error)` pair
      in which exactly one side is meaningful. */
  datatype Result<+T, +E> = Success(value: T) | Failure(error: E)
}
