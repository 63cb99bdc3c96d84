/** JavaScript's `undefined` for a value that may be missing. */
module Options {

  datatype Option<+T> = None | Some(value: T) {

    /** The value, or `fallback` when there is none: JavaScript's `x ?? fallback`. */
    function GetOr(fallback: T): T {
      match this
      case Some(v) => v
      case None => fallback
    }
  }
}
