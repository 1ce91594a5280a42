/** The optional-value type used throughout the model: `None` stands for the
    JavaScript `undefined` of an absent product setting, a dismissed picker or
    a storage write that never happens. */
module Wrappers {

  datatype Option<+T> = None | Some(value: T) {

    /** The wrapped value, or `default` when there is none. */
    function GetOr(default: T): (r: T)
      ensures Some? ==> r == value
      ensures None? ==> r == default
    {
      match this
      case Some(v) => v
      case None => default
    }
  }
}
