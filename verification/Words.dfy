/** Fixed-width words as bounded integers, and their little-endian byte images. */
module Words {
  const TWO14 := 0x4000
  const TWO15 := 0x8000
  const TWO16 := 0x1_0000
  const TWO30 := 0x4000_0000
  const TWO31 := 0x8000_0000
  const TWO32 := 0x1_0000_0000
  const TWO64 := 0x1_0000_0000_0000_0000

  type u8 = x: int | 0 <= x < 0x100
  type u16 = x: int | 0 <= x < TWO16
  type u32 = x: int | 0 <= x < TWO32
  type Bytes = seq<u8>

  /** Bit 31, the command flag of every indirect-access register. */
  predicate Flag(x: u32) {
    x >= TWO31
  }

  predicate Bit(x: u32, weight: int)
    requires weight > 0
  {
    (x / weight) % 2 == 1
  }

  function Low16(x: u32): u16 {
    x % TWO16
  }

  function Low16bv(x: u32): bv16 {
    (x % TWO16) as bv16
  }

  /** `x & mask` for a 16-bit word. */
  function Mask16(x: u16, mask: bv16): u16 {
    ((x as bv16) & mask) as int
  }

  /** `x | bits` for a 16-bit word. */
  function Or16(x: u16, bits: bv16): u16 {
    ((x as bv16) | bits) as int
  }

  // The three bit-vector operations of the interrupt registers, named so that proofs can fold them.

  function WithBits(a: bv16, bits: bv16): bv16 {
    a | bits
  }

  function WithoutBits(a: bv16, bits: bv16): bv16 {
    a & !bits
  }

  predicate Overlap(a: bv16, b: bv16) {
    a & b != 0
  }

  function Bytes16(x: u16): (b: Bytes)
    ensures |b| == 2
  {
    [x % 0x100, x / 0x100]
  }

  function Bytes32(x: u32): (b: Bytes)
    ensures |b| == 4
  {
    [x % 0x100, (x / 0x100) % 0x100, (x / 0x1_0000) % 0x100, x / 0x100_0000]
  }

  function Join16(b0: u8, b1: u8): u16 {
    b0 + 0x100 * b1
  }

  function Join32(b0: u8, b1: u8, b2: u8, b3: u8): u32 {
    b0 + 0x100 * b1 + 0x1_0000 * b2 + 0x100_0000 * b3
  }

  /** Storing a word and loading it back is the identity. */
  lemma JoinBytes32(x: u32)
    ensures var b := Bytes32(x); Join32(b[0], b[1], b[2], b[3]) == x
  {
    assert x / 0x1_0000 == (x / 0x100) / 0x100;
    assert x / 0x100_0000 == (x / 0x1_0000) / 0x100;
  }
}
