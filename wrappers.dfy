/** Small shared datatypes. */
module Wrappers {

  /** A value that may be absent: a click that calls nothing. */
  datatype Option<+T> = None | Some(value: T)

  function Min(a: int, b: int): int { if a < b then a else b }

  function Max(a: int, b: int): int { if a < b then b else a }
}
