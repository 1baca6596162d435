/** Failure-carrying datatypes shared by the grammar models. */
module Wrappers {

  /** A value that may be absent; `None` is a rejection or a missing entry. */
  datatype Option<+T> = None | Some(value: T)

  /** A value or an error description. */
  datatype Result<+R, +E> = Success(value: R) | Failure(error: E)
}
