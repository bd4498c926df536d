/** Nullable values and thrown errors of the Kotlin code, as plain datatypes. */
module Wrappers {

  /** A Kotlin nullable value: `null` is None. */
  datatype Option<+T> = None | Some(value: T) {

    /** The Elvis operator `x ?: default`. */
    function GetOr(default: T): T {
      match this
      case Some(v) => v
      case None => default
    }
  }

  /** The outcome of a call that either returns a value or throws an error. */
  datatype Result<+R, +E> = Success(value: R) | Failure(error: E)
}
