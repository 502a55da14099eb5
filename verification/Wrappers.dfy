/**
 Optional results, and the range of the source's 32-bit int.
 */
module Wrappers {

  const INT_MIN := -0x8000_0000
  const INT_MAX := 0x7fff_ffff

  datatype Option<+T> = None | Some(value: T) {
    function GetOr(default: T): T {
      if Some? then value else default
    }
  }
}
