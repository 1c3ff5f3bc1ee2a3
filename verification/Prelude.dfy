/** Machine integers, saturating arithmetic and the result types shared by every module. */
module Prelude {
  datatype Option<+T> = None | Some(value: T)

  datatype Result<+T, +E> = Ok(value: T) | Err(error: E)

  const U64_MAX: nat := 0xFFFF_FFFF_FFFF_FFFF
  const I64_MAX: int := 0x7FFF_FFFF_FFFF_FFFF
  const I64_MIN: int := -0x8000_0000_0000_0000

  type u64 = x: int | 0 <= x <= 0xFFFF_FFFF_FFFF_FFFF
  type i64 = x: int | -0x8000_0000_0000_0000 <= x <= 0x7FFF_FFFF_FFFF_FFFF

  function Min(a: int, b: int): int {
    if a <= b then a else b
  }

  function Max(a: int, b: int): int {
    if a <= b then b else a
  }

  function Abs(a: int): nat {
    if a < 0 then -a else a
  }

  /** A mathematical sum as a saturating counter would show it. */
  function Sat(n: nat): u64 {
    if n <= U64_MAX then n else U64_MAX
  }

  function SatAdd(a: u64, b: u64): u64 {
    if a + b <= U64_MAX then a + b else U64_MAX
  }

  /** Saturating early loses nothing that saturating late would keep. */
  lemma SatOfSats(a: nat, b: nat)
    ensures SatAdd(Sat(a), Sat(b)) == Sat(Sat(a) + Sat(b)) == Sat(a + b)
  {
  }

  function SatSub(a: u64, b: u64): u64 {
    if a >= b then a - b else 0
  }

  function SatInc(a: u64): u64 {
    SatAdd(a, 1)
  }

  function CheckedAdd(a: u64, b: u64): Option<u64> {
    if a + b <= U64_MAX then Some(a + b) else None
  }

  function CheckedSub(a: u64, b: u64): Option<u64> {
    if a >= b then Some(a - b) else None
  }

  /** Saturating addition of two i64 values. */
  function SignedSat(n: int): i64 {
    if n > I64_MAX then I64_MAX else if n < I64_MIN then I64_MIN else n
  }
}
