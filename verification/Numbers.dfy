/** Whole-number helpers that several components share. */
module Numbers {

  newtype byte = x: int | 0 <= x < 256

  function Min(a: int, b: int): int { if b < a then b else a }

  function Max(a: int, b: int): int { if a < b then b else a }

  function Distance(a: int, b: int): nat {
    if a < b then b - a else a - b
  }
}
