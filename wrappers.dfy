/** The optional value used for the source's `undefined` / `null`. */
module Wrappers {

  datatype Option<+T> = None | Some(value: T) {

    /** `a ?? b` of the source: the value when present, else the fallback. */
    function OrElse(fallback: T): (r: T)
      ensures Some? ==> r == value
      ensures None? ==> r == fallback
    {
      if Some? then value else fallback
    }
  }
}
