/** Null-able values and exception-carrying results, in place of Java's null and checked exceptions. */
module Wrappers {

  /** `None` stands for a Java `null`. */
  datatype Option<+T> = None | Some(value: T)

  /** `Failure` stands for an exception thrown by a service method. */
  datatype Result<+R, +E> = Success(value: R) | Failure(error: E)
}
