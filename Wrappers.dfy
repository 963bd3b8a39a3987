/** Nullable values and operations that either succeed or fail. */
module Wrappers {

  /** A value that may be missing: C#'s `null` for references and `T?` for values. */
  datatype Option<+T> = None | Some(value: T)

  /** The outcome of an operation that may throw. */
  datatype Result<+R, +E> = Success(value: R) | Failure(error: E)
}
