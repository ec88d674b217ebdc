/** Arithmetic of JavaScript and Java that differs from the integers'. */
module Numbers {
  /** Narrowing to a signed 32-bit integer. */
  function ToInt32(x: int): int {
    var m := x % 0x1_0000_0000;
    if m >= 0x8000_0000 then m - 0x1_0000_0000 else m
  }

  /** The remainder `a % m`, which has the sign of a. */
  function Remainder(a: int, m: int): int
    requires m > 0
  {
    if a >= 0 then a % m else -(-a % m)
  }
}
