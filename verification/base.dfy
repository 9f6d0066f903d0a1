/** The optional-value datatype used wherever the editor keeps a nullable value. */
module Wrappers {

  /** `None` stands for JavaScript's `null` (an absent cell, no selection, no match). */
  datatype Option<+T> = None | Some(value: T)
}

/** Integer helpers standing in for `Math.min`, `Math.max` and distance. */
module Ints {

  function Min(a: int, b: int): int {
    if a <= b then a else b
  }

  function Max(a: int, b: int): int {
    if a <= b then b else a
  }

  /** Distance between two integers on the number line. */
  function Dist(a: int, b: int): nat {
    if a <= b then b - a else a - b
  }
}
