/** Optional values and fallible results, as used throughout the model. */
module Wrappers {

  /** A value that may be absent: Go's `*string`, where `nil` is `None`. */
  datatype Option<+T> = None | Some(value: T)

  /** The outcome of an operation that can fail with an error of type E. */
  datatype Result<+R, +E> = Ok(value: R) | Err(error: E)
}
