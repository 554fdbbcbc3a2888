/** Optional values: JavaScript's `undefined` (and, where the source treats
    them alike, the other falsy placeholders) becomes `None`. */
module Wrappers {

  datatype Option<+T> = None | Some(value: T) {

    /** The carried value, or `default` when absent (a JavaScript default parameter). */
    function GetOr(default: T): T {
      match this
      case Some(v) => v
      case None => default
    }
  }
}
