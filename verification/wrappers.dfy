/** Optional values: a JavaScript `undefined`/`null` field or a `find` that found nothing. */
module Wrappers {

  datatype Option<+T> = None | Some(value: T) {

    /** The value held, or `default` when there is none (as `images || [image]` on an optional array, which is never a falsy value when present). */
    function GetOr(default: T): T {
      match this
      case Some(v) => v
      case None => default
    }
  }
}
