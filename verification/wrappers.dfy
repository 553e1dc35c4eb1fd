/** Small failure-carrying values shared by every module. */
module Wrappers {

  /** An optional value; in this model `None` also stands for JavaScript's NaN and for `null`. */
  datatype Option<+T> = None | Some(value: T) {

    /** The value, or `default` when there is none. */
    function GetOr(default: T): T {
      match this
      case Some(v) => v
      case None => default
    }
  }
}
