/** Failure-compatible result types standing for the Java code's null results
    and thrown exceptions. */
module Wrappers {

  /** `None` stands for a Java `null` result. */
  datatype Option<+T> = None | Some(value: T)

  /** The value of a call that either returns normally or throws. */
  datatype Result<+T, +E> = Success(value: T) | Failure(error: E)

  /** The value of a `void` call that either returns normally or throws. */
  datatype Outcome<+E> = Pass | Fail(error: E)
}
