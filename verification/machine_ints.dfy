/** The 64-bit unsigned integers of the source, with its saturating operations. */
module MachineInts {

  const U64_MAX: nat := 0xFFFF_FFFF_FFFF_FFFF

  type u64 = n: nat | n <= 0xFFFF_FFFF_FFFF_FFFF

  function Min(a: nat, b: nat): nat {
    if a < b then a else b
  }

  function Max(a: nat, b: nat): nat {
    if a < b then b else a
  }

  function SatSub(a: u64, b: u64): u64 {
    if a < b then 0 else a - b
  }

  function SatAdd(a: u64, b: u64): u64 {
    Min(a + b, U64_MAX)
  }

  function SatMul(a: u64, b: u64): u64 {
    Min(a * b, U64_MAX)
  }

  /** Sums and products are exact up to 2^64 - 1 and stay there beyond it; differences stop at zero. */
  lemma Saturation(a: u64, b: u64)
    ensures a + b <= 0xFFFF_FFFF_FFFF_FFFF ==> SatAdd(a, b) == a + b
    ensures a + b >= 0xFFFF_FFFF_FFFF_FFFF ==> SatAdd(a, b) == 0xFFFF_FFFF_FFFF_FFFF
    ensures a * b <= 0xFFFF_FFFF_FFFF_FFFF ==> SatMul(a, b) == a * b
    ensures a * b >= 0xFFFF_FFFF_FFFF_FFFF ==> SatMul(a, b) == 0xFFFF_FFFF_FFFF_FFFF
    ensures b <= a ==> SatSub(a, b) == a - b
    ensures a <= b ==> SatSub(a, b) == 0
  {
  }

  /** Multiplication distributes over a split interval. */
  lemma MulSplit(r: nat, a: int, b: int, c: int)
    ensures r * (c - a) == r * (b - a) + r * (c - b)
  {
  }

  lemma MulMono(r: nat, a: int, b: int)
    requires a <= b
    ensures r * a <= r * b
  {
  }
}
