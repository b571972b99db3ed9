/** Optional values (a pandas cell that may be missing) and results that may fail. */
module Wrappers {

  /** A cell that may be missing: `None` plays the role of pandas' NaN/NaT. */
  datatype Option<+T> = None | Some(value: T)

  /** The outcome of a computation that may raise. */
  datatype Result<+R, +E> = Success(value: R) | Failure(error: E)
}
