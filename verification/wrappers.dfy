/** Optional values and fallible results shared by every module of the model. */
module Wrappers {

  /** A value that may be absent: JSON `undefined`/`null`, SQL NULL, or "no row". */
  datatype Option<+T> = None | Some(value: T)

  /** The outcome of a store operation: a value, or the error the store reported. */
  datatype Result<+T, +E> = Success(value: T) | Failure(error: E)
}
