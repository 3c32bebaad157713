/** Failure-carrying results, standing in for the exceptions the Java code throws. */
module Results {

  /** A value, or nothing (a Java method that may find no answer). */
  datatype Option<+T> = None | Some(value: T)

  /** The value a Java method returns, or the exception it throws. */
  datatype Result<+T, +E> = Ok(value: T) | Err(error: E)

  /** Completion of a Java `void` method: normal return, or the exception it throws. */
  datatype Outcome<+E> = Pass | Fail(error: E)
}
