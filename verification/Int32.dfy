/** The bitwise operators of JavaScript on mathematical integers (ECMA-262 5.1, sections 9.5, 9.6, 11.7 and 11.10).
    Each operator first wraps its operand to 32 bits. */
module Int32 {

  const TWO_32 := 0x1_0000_0000
  const TWO_31 := 0x8000_0000

  function ToUint32(x: int): (r: int)
    ensures 0 <= r < TWO_32
  {
    x % TWO_32
  }

  function ToInt32(x: int): (r: int)
    ensures -TWO_31 <= r < TWO_31
  {
    var u := ToUint32(x);
    if u < TWO_31 then u else u - TWO_32
  }

  function Pow2(n: nat): (p: int)
    ensures p >= 1
  {
    if n == 0 then 1 else 2 * Pow2(n - 1)
  }

  // x << n: the shift count is taken modulo 32
  function ShiftLeft(x: int, n: nat): (r: int)
    ensures -TWO_31 <= r < TWO_31
  {
    ToInt32(ToInt32(x) * Pow2(n % 32))
  }

  // x >> 1, an arithmetic shift: Dafny's / rounds down for a positive divisor
  function SignedShiftRight1(x: int): int {
    ToInt32(x) / 2
  }

  // x >>> 5
  function UnsignedShiftRight5(x: int): int {
    ToUint32(x) / 32
  }

  // x & 31: the low five bits of the two's complement representation
  function LowFiveBits(x: int): (r: int)
    ensures 0 <= r < 32
  {
    ToInt32(x) % 32
  }

  // (x & 1) === 1
  predicate LowBit(x: int) {
    ToInt32(x) % 2 == 1
  }
}
