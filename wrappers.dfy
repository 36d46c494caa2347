/** Optional values and error-carrying results shared by every module of the model. */
module Wrappers {

  /** A value that may be absent: JavaScript's `null`, a missing cache entry, a missing property. */
  datatype Option<+T> = None | Some(value: T)

  /** The outcome of an operation that the source can abort by throwing. */
  datatype Result<+T, +E> = Ok(value: T) | Err(error: E)
}
