/** The failure-compatible Option type the other modules use for JavaScript's
    "no value" results: NaN from a number parser, `undefined` from a lookup. */
module Wrappers {

  datatype Option<+T> = None | Some(value: T) {

    /** Returns the value in Some, or the default for None. */
    function GetOr(default: T): T {
      match this
      case Some(v) => v
      case None => default
    }
  }
}
