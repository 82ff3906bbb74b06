/** Optional values: the model's stand-in for JavaScript's `undefined`/`null`. */
module Wrappers {

  datatype Option<+T> = None | Some(value: T) {

    /** `x ?? fallback` for a value that may be missing. */
    function GetOr(fallback: T): T {
      if Some? then value else fallback
    }
  }
}
