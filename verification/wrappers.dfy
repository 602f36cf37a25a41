/** The optional-value wrapper used for nullable columns and for "no match" results. */
module Wrappers {

  /** `None` models Python's `None`; `Some(v)` a present value. */
  datatype Option<+T> = None | Some(value: T) {

    /** Returns the wrapped value, or `default` when there is none. */
    function GetOr(default: T): T {
      match this
      case Some(v) => v
      case None => default
    }
  }
}
