/** The fixed-width unsigned integers of the source, as ranges of the mathematical integers. */
module Words {
  const TWO16: int := 0x1_0000
  const TWO31: int := 0x8000_0000
  const TWO32: int := 0x1_0000_0000
  const TWO64: int := 0x1_0000_0000_0000_0000

  newtype byte = x: int | 0 <= x < 0x100

  type u8 = x: int | 0 <= x < 0x100
  type u16 = x: int | 0 <= x < 0x1_0000
  type u32 = x: int | 0 <= x < 0x1_0000_0000
  type u64 = x: int | 0 <= x < 0x1_0000_0000_0000_0000

  datatype Option<+T> = None | Some(value: T)

  function Min(a: int, b: int): int {
    if a <= b then a else b
  }

  function Max(a: int, b: int): int {
    if a >= b then a else b
  }

  function Distance(a: int, b: int): nat {
    if a <= b then b - a else a - b
  }

  function Pow2(n: nat): (p: nat)
    ensures p >= 1
  {
    if n == 0 then 1 else 2 * Pow2(n - 1)
  }
}
