/** The optional value that the source writes as a field that may be `undefined`. */
module Wrappers {

  /** `Some(x)` or `None`, as the source's optional (possibly `undefined`) values. */
  datatype Option<T> = None | Some(value: T) {
    /** The `x || fallback` idiom for a value that may be missing. */
    function GetOr(fallback: T): T {
      match this
      case Some(v) => v
      case None => fallback
    }
  }
}
