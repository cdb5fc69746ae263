/** Failure-carrying return values, used in place of null results and thrown exceptions. */
module Wrappers {

  /** An optional value: the repository's "no such row" is `None`, never a null reference. */
  datatype Option<+T> = None | Some(value: T)

  /** A value or a typed failure. */
  datatype Result<+T, +E> = Success(value: T) | Failure(error: E)
}
