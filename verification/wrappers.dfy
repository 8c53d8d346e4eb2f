/** Failure-compatible wrappers used in place of C# nulls and exceptions. */
module Wrappers {

  /** A value that may be absent; stands for a nullable reference. */
  datatype Option<+T> = None | Some(value: T)

  /** A value or the error that the source would have thrown instead. */
  datatype Result<+R, +E> = Success(value: R) | Failure(error: E) {
    predicate IsFailure() {
      Failure?
    }
  }
}
