/** Null-able values and the two outcomes of a call that may throw. */
module Wrappers {

  /** A Java reference that may be null: `None` stands for null. */
  datatype Option<+T> = None | Some(value: T) {
    function GetOr(default: T): T {
      match this
      case Some(v) => v
      case None => default
    }
  }

  /** The outcome of a Java call: a returned value or a thrown exception. */
  datatype Result<+R, +E> = Success(value: R) | Failure(error: E)
}
