/** The absent-or-present value used for JavaScript values that may be
    `undefined`, `null` or otherwise falsy. */
module Wrappers {

  datatype Option<+T> = None | Some(value: T) {

    /** The value if present, the given default otherwise (JavaScript's `x || d`). */
    function GetOr(default: T): (r: T)
      ensures Some? ==> r == value
      ensures None? ==> r == default
    {
      match this
      case Some(v) => v
      case None => default
    }
  }
}
