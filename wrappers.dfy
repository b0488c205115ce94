/** Optional values and the outcome of a call that may raise an exception. */
module Wrappers {

  /** A nullable reference: `None` stands for Java's `null`. */
  datatype Option<+T> = None | Some(value: T)

  /** A call that either returns a value or raises an exception. */
  datatype Result<+T, +E> = Success(value: T) | Failure(error: E)

  /** A `void` call that either completes normally or raises an exception. */
  datatype Outcome<+E> = Pass | Fail(error: E)
}
