/** Optional values and success/failure results shared by the modules of the model. */
module Wrappers {

  /** A value that may be absent, as a JavaScript property may be `undefined`. */
  datatype Option<+T> = None | Some(value: T) {

    /** The value when present, `default` otherwise (the `x || default` idiom of the source). */
    function GetOr(default: T): T {
      match this
      case Some(v) => v
      case None => default
    }
  }

  /** The outcome of an operation that either yields a value or fails with an error. */
  datatype Result<+R, +E> = Success(value: R) | Failure(error: E)
}
