/** The optional value used wherever the Kotlin code has a nullable type. */
module Wrappers {

  datatype Option<+T> = None | Some(value: T) {

    /** `this ?: other` in Kotlin: the first present value. */
    function OrElse(other: Option<T>): (r: Option<T>)
      ensures Some? ==> r == this
      ensures None? ==> r == other
    {
      if Some? then this else other
    }
  }
}
