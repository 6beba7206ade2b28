/** What several models share. */
module Basics {
  datatype Option<+T> = None | Some(value: T)

  function Max(a: real, b: real): (r: real) {
    if a >= b then a else b
  }
}
