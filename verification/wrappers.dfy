/** A small optional-value datatype shared by the rest of the model. */
module Wrappers {

  /** `None` stands for Python's "no value here" (a missing key, a failed parse). */
  datatype Option<+T> = None | Some(value: T) {

    /** The carried value, or `default` when there is none (Python's `d.get(k, default)`). */
    function GetOr(default: T): T {
      match this
      case Some(v) => v
      case None => default
    }
  }
}
