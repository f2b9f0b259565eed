/** Optional-value and value-or-error wrappers shared by the mapper model. */
module Wrappers {

  /** An optional value: `None` is the mapper's "not found" answer. */
  datatype Option<+T> = None | Some(value: T)

  /** Either a value or the error that the source raises instead of returning. */
  datatype Result<+R, +E> = Success(value: R) | Failure(error: E)
}
