/** Failure-aware values shared by every module of the model. */
module Wrappers {

  /** A value that may be missing: the model's stand-in for a call that raised. */
  datatype Option<+T> = None | Some(value: T) {

    /** The carried value, or `default` when there is none. */
    function GetOr(default: T): T
    {
      match this
      case Some(v) => v
      case None => default
    }
  }
}
