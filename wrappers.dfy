/** Optional values: the model's counterpart of the scanner's `null`/`undefined`
    results, so that "not available" is a case callers must handle. */
module Wrappers {

  datatype Option<+T> = None | Some(value: T) {

    /** The value, or `default` when absent (JavaScript's `x ?? default`). */
    function GetOr(default: T): T {
      match this
      case Some(v) => v
      case None => default
    }
  }
}
