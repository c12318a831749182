/** Optional values and the two-way results that stand for Rust's `Option` and `Result`. */
module Wrappers {
  datatype Option<+T> = None | Some(value: T)

  datatype Result<+T, +E> = Success(value: T) | Failure(error: E)
}
