/** Optional values and results, used for the nullable fields of the
    catalog and for operations that can be rejected. */
module Wrappers {

  /** A value that may be missing: PHP's and TypeScript's `null` (and
      TypeScript's `undefined`) are `None`. */
  datatype Option<+T> = None | Some(value: T) {

    /** The `??` operator of both languages. */
    function GetOr(default: T): T {
      match this
      case Some(v) => v
      case None => default
    }
  }

  /** An outcome that is either a value or an error description. */
  datatype Result<+R, +E> = Success(value: R) | Failure(error: E)
}
