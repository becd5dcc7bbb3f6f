/** The optional value used throughout the model: `None` stands for Python's
    exception path (an `IndexError`, a `ValueError`, a failed read). */
module Wrappers {

  datatype Option<+T> = None | Some(value: T) {

    /** The wrapped value, or `default` when there is none. */
    function GetOr(default: T): T {
      match this
      case Some(v) => v
      case None => default
    }
  }
}
