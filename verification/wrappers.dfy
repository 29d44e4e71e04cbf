/** Optional values and success-or-failure results shared by every module. */
module Wrappers {

  /** A value that may be missing; in the JavaScript model `None` is `undefined`. */
  datatype Option<+T> = None | Some(value: T)

  /** The outcome of an operation that either returns a value or throws. */
  datatype Result<+T, +E> = Ok(value: T) | Err(error: E)
}
