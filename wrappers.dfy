/** Optional values: the model's reading of a TypeScript `T | null` or `T | undefined`. */
module Wrappers {

  datatype Option<+T> = None | Some(value: T) {

    /** `x ?? d`: the value if present, otherwise the default. */
    function GetOr(default: T): T {
      match this
      case Some(v) => v
      case None => default
    }
  }
}
