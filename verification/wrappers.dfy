/** Optional values and throwing calls, in the functional style used by every other module. */
module Wrappers {

  /** Swift's `T?`. */
  datatype Option<+T> = None | Some(value: T) {

    /** The wrapped value, or `default` when there is none (Swift's `??`). */
    function GetOr(default: T): T {
      match this
      case Some(v) => v
      case None => default
    }
  }

  /** The outcome of a Swift `throws` call: a value, or the error that was thrown. */
  datatype Result<+R, +E> = Success(value: R) | Failure(error: E)
}
