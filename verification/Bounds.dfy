/** The smaller and the larger of two integers. */
module Bounds {

  function Min(a: int, b: int): (m: int)
    ensures m <= a && m <= b
  {
    if a < b then a else b
  }

  function Max(a: int, b: int): (m: int)
    ensures m >= a && m >= b
  {
    if a > b then a else b
  }
}
