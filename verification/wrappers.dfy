/** The optional-value datatype the rest of the model uses for absent results
    (a lookup that finds nothing, an omitted argument, a store call that does
    not fail). */
module Wrappers {

  datatype Option<+T> = None | Some(value: T) {

    /** The carried value, falling back to `default` when there is none. */
    function GetOr(default: T): (r: T)
      ensures Some? ==> r == value
      ensures None? ==> r == default
    {
      match this
      case Some(v) => v
      case None => default
    }
  }
}
