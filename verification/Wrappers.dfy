/** The optional value of the source's `Option`. */
module Wrappers {

  datatype Option<T> = None | Some(value: T) {
    /** `unwrap_or`. */
    function GetOr(other: T): T {
      if Some? then value else other
    }
  }
}
