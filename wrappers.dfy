/** The optional value used for Python's `None`, for a missing dictionary
    entry and for an exception that makes the caller skip a candidate. */
module Wrappers {

  datatype Option<+T> = None | Some(value: T)

  function Min(a: int, b: int): int {
    if a <= b then a else b
  }
}
