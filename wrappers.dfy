/** Optional values and results, used where the source returns `null` or throws. */
module Wrappers {

  /** `null` / `undefined` (None) or a present value (Some). */
  datatype Option<+T> = None | Some(value: T) {
    function GetOr(default: T): T {
      match this
      case Some(v) => v
      case None => default
    }
  }

  /** A value the code returns (Success) or the message of the error it throws (Failure). */
  datatype Result<+R> = Success(value: R) | Failure(error: string)
}
