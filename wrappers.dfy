/** Failure-compatible result types shared by every service of the bookstore. */
module Wrappers {

  /** A Java reference that may be null. */
  datatype Option<+T> = None | Some(value: T)

  /** A value, or the exception the Java method throws instead of returning one. */
  datatype Result<+T, +E> = Ok(value: T) | Err(error: E)

  /** The outcome of a Java method that returns `void` or throws. */
  datatype Outcome<+E> = Pass | Fail(error: E)
}
