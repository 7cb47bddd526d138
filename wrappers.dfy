/** Option and Result values used for the error paths of the ingestion tools. */
module Wrappers {

  datatype Option<+T> = None | Some(value: T)

  /** A value, or the error the source would throw instead of returning. */
  datatype Result<+R, +E> = Success(value: R) | Failure(error: E)
}
