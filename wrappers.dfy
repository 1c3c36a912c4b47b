/** Optional values (Java's `null` and `Optional`) and results that may carry a thrown exception. */
module Wrappers {

  /** A value that may be absent: `None` stands for Java's `null` or `Optional.empty()`. */
  datatype Option<+T> = None | Some(value: T)

  /** The outcome of an operation that returns `value` or throws `error`. */
  datatype Result<+R, +E> = Success(value: R) | Failure(error: E)
}
