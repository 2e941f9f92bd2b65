/**
  What several modules share: optional values, and the smaller and the larger of two integers.
 */
module Common {
  datatype Option<+T> = None | Some(value: T)

  function Min(a: int, b: int): int { if a < b then a else b }
  function Max(a: int, b: int): int { if a < b then b else a }
}
