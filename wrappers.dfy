/** Optional values, used for nullable columns and for request fields whose
    only distinction is "supplied" or "not supplied". */
module Wrappers {

  datatype Option<+T> = None | Some(value: T) {

    /** The value, or `default` when there is none. */
    function GetOr(default: T): T {
      match this
      case Some(v) => v
      case None => default
    }
  }
}
