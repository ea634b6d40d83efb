/** Option and Result, the two failure-carrying shapes the query layer uses. */
module Wrappers {

  /** Rust's `Option<T>`. */
  datatype Option<+T> = None | Some(value: T)

  /** Rust's `Result<T, E>`: `Success` for `Ok`, `Failure` for `Err`. */
  datatype Result<+T, +E> = Success(value: T) | Failure(error: E)
}
