/** Optional values and decoding outcomes used by the termed-document model. */
module Wrappers {

  /** Either nothing or one value; stands for a Java reference that may be null. */
  datatype Option<+T> = None | Some(value: T) {

    /** The held value, falling back to `default` for `None`. */
    function GetOr(default: T): T {
      match this
      case Some(v) => v
      case None => default
    }
  }

  /** The outcome of decoding: a value, or the error that stopped it. */
  datatype Result<+R, +E> = Success(value: R) | Failure(error: E)
}
