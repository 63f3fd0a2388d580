/** Optional values: JavaScript's `undefined`/`null` for a field that may be missing. */
module Wrappers {

  datatype Option<+T> = None | Some(value: T) {

    /** `x ?? default`: the value if present, otherwise `default`. */
    function GetOr(default: T): T {
      match this
      case Some(v) => v
      case None => default
    }
  }
}
