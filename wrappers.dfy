/** Helper datatypes shared by the modules of this model. */
module Wrappers {

  /** A value that may be missing: JavaScript's `null`/`undefined` for non-string values. */
  datatype Option<+T> = None | Some(value: T) {
    function GetOr(default: T): T {
      match this
      case Some(v) => v
      case None => default
    }
  }

  /** The outcome of an operation that may throw; `Failure` carries the message shown. */
  datatype Result<+R> = Success(value: R) | Failure(error: string)
}
