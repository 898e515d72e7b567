/** Small shared vocabulary: optional values, minima, powers of two. */
module Common {

  datatype Option<+T> = None | Some(value: T)

  /** A length of time in seconds. */
  type Duration = d: real | d >= 0.0

  function Min(a: int, b: int): int {
    if a < b then a else b
  }

  function RMin(a: real, b: real): real {
    if a < b then a else b
  }

  function RMax(a: real, b: real): real {
    if a < b then b else a
  }

  function Pow2(n: nat): (p: nat)
    ensures p >= 1
  {
    if n == 0 then 1 else 2 * Pow2(n - 1)
  }
}
