/** Option and Result datatypes shared by the other modules. */
module Wrappers {

  datatype Option<+T> = None | Some(value: T) {
    function GetOr(default: T): T {
      match this
      case Some(v) => v
      case None => default
    }
  }

  /** The outcome of an operation that the Kotlin code may abort with an exception. */
  datatype Result<+R, +E> = Success(value: R) | Failure(error: E)
}
