/** Optional values: `None` stands for JavaScript's `undefined`/`null` and for a
    Python key that is absent. */
module Wrappers {

  datatype Option<+T> = None | Some(value: T) {

    /** The value if present, else `default` (the `x || default` and
        `d.get(k, default)` idioms of the source). */
    function GetOr(default: T): T {
      match this
      case Some(v) => v
      case None => default
    }
  }
}
