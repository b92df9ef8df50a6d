/** Integer operators as C++11 defines them: division rounds toward zero. */
module CInt {

  function Quot(a: int, b: int): (q: int)
    requires b > 0
    ensures a >= 0 ==> q == a / b
  {
    if a >= 0 then a / b else -((-a) / b)
  }

  /** The remainder takes the sign of the dividend. */
  function Rem(a: int, b: int): (r: int)
    requires b > 0
    ensures -b < r < b
    ensures a >= 0 ==> r == a % b
    ensures a <= 0 ==> r <= 0
    ensures a == b * Quot(a, b) + r
  {
    if a >= 0 then a % b else -((-a) % b)
  }

  predicate Int32(x: int) {
    -0x8000_0000 <= x < 0x8000_0000
  }
}
