/**
  Fixed-width C++ integer types and the conversions between them that the
  modelled code relies on: truncation on assignment to a 32-bit unsigned
  variable, unsigned subtraction, and the signed-to-unsigned conversion of a
  mixed `int == uint32_t` comparison.
 */
module MachineInts {

  const TWO_32: int := 0x1_0000_0000

  newtype u8 = x: int | 0 <= x < 0x100
  newtype u32 = x: int | 0 <= x < 0x1_0000_0000
  newtype u64 = x: int | 0 <= x < 0x1_0000_0000_0000_0000
  newtype i32 = x: int | -0x8000_0000 <= x < 0x8000_0000

  /** One byte of a buffer. */
  type byte = u8

  /** The value a non-negative integer expression keeps once stored in a `uint32_t`. */
  function Trunc32(x: nat): (r: u32)
    ensures x < TWO_32 ==> r as int == x
    ensures r as int <= x
    ensures (x - r as int) % TWO_32 == 0
  {
    (x % TWO_32) as u32
  }

  /** `a - b` on two `unsigned int`s: wraps around modulo 2^32. */
  function Sub32(a: u32, b: u32): (r: u32)
    ensures b <= a ==> r as int == a as int - b as int
    ensures a < b ==> r as int == a as int - b as int + TWO_32
    ensures r == 0 <==> a == b
  {
    ((a as int - b as int) % TWO_32) as u32
  }

  /** The `unsigned int` an `int` becomes when compared with a `uint32_t`. */
  function ToUnsigned32(x: i32): (r: u32)
    ensures x >= 0 ==> r as int == x as int
    ensures x < 0 ==> r as int == x as int + TWO_32
    ensures r as int < 0x8000_0000 <==> x >= 0
  {
    (x as int % TWO_32) as u32
  }

  /** A freshly allocated `new uint8_t[n]`; C++ leaves its contents indeterminate, here they are zero. */
  function Zeros(n: nat): (r: seq<byte>)
    ensures |r| == n
    ensures forall i :: 0 <= i < n ==> r[i] == 0
  {
    seq(n, _ => 0)
  }
}
