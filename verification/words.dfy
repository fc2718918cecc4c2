/** Unsigned 64-bit words: their range and their saturating arithmetic. */
module Words {
  const U64_MAX: nat := 0xFFFF_FFFF_FFFF_FFFF
  const WORD: nat := 0x1_0000_0000_0000_0000

  function Saturate(n: nat): nat {
    if n <= U64_MAX then n else U64_MAX
  }

  function SaturatingAdd(a: nat, b: nat): nat {
    Saturate(a + b)
  }

  function SaturatingSub(a: nat, b: nat): nat {
    if a >= b then a - b else 0
  }
}
