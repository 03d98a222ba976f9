// Morton (Z-order) codes over 32-bit words: three 10-bit fixed-point
// coordinates interleaved as ... x1 y1 z1 x0 y0 z0.
module Morton {
  /** The input fits in 10 bits (the debug assertion of `expand_bits`). */
  predicate TenBits(v: bv32) { v & !0x3FF == 0 }

  /** Bit i of a 10-bit value moved to bit 3i: the reference `expand_bits` is checked against. */
  function Spread(v: bv32): bv32 {
    (v & 0x1) | ((v & 0x2) << 2) | ((v & 0x4) << 4) | ((v & 0x8) << 6) | ((v & 0x10) << 8) |
    ((v & 0x20) << 10) | ((v & 0x40) << 12) | ((v & 0x80) << 14) | ((v & 0x100) << 16) | ((v & 0x200) << 18)
  }

  /** Bit 3i of a word moved back to bit i. */
  function Compact(w: bv32): bv32 {
    (w & 0x1) | ((w >> 2) & 0x2) | ((w >> 4) & 0x4) | ((w >> 6) & 0x8) | ((w >> 8) & 0x10) |
    ((w >> 10) & 0x20) | ((w >> 12) & 0x40) | ((w >> 14) & 0x80) | ((w >> 16) & 0x100) | ((w >> 18) & 0x200)
  }

  /** The reference interleaving: x in bits 3i+2, y in bits 3i+1, z in bits 3i. */
  function Interleave(xx: bv32, yy: bv32, zz: bv32): bv32 {
    (Spread(xx) << 2) | (Spread(yy) << 1) | Spread(zz)
  }

  /**
   * `val * 1024` truncated to an unsigned integer; `debug_assert!` demands
   * `0 <= val < 1`. The result is the 10-bit fixed-point value of `val`.
   */
  function ToFixedPoint(val: real): (r: nat)
    requires 0.0 <= val < 1.0
    ensures r < 1024
    ensures r as real <= val * 1024.0 < r as real + 1.0
  {
    (val * 1024.0).Floor
  }

  /** The four wrapping-multiply-and-mask steps (`bv32` multiplication wraps). */
  function ExpandBits(v: bv32): (r: bv32)
    requires TenBits(v)
    ensures r == Spread(v)
    ensures r & !0x49249249 == 0
  {
    var x1 := (v * 0x00010001) & 0xFF0000FF;
    var x2 := (x1 * 0x00000101) & 0x0F00F00F;
    var x3 := (x2 * 0x00000011) & 0xC30C30C3;
    (x3 * 0x00000005) & 0x49249249
  }

  function Morton3(x: real, y: real, z: real): (code: bv32)
    requires 0.0 <= x < 1.0 && 0.0 <= y < 1.0 && 0.0 <= z < 1.0
  {
    var xx := ToFixedPoint(x) as bv32;
    var yy := ToFixedPoint(y) as bv32;
    var zz := ToFixedPoint(z) as bv32;
    (ExpandBits(xx) << 2) | (ExpandBits(yy) << 1) | ExpandBits(zz)
  }

  /** `morton3` interleaves the three fixed-point coordinates. */
  lemma Morton3Interleaves(x: real, y: real, z: real)
    requires 0.0 <= x < 1.0 && 0.0 <= y < 1.0 && 0.0 <= z < 1.0
    ensures Morton3(x, y, z) ==
      Interleave(ToFixedPoint(x) as bv32, ToFixedPoint(y) as bv32, ToFixedPoint(z) as bv32)
  {
  }

  /**
   * The three spread values occupy disjoint bit lanes, so each coordinate is
   * recovered from the code by shifting and masking.
   */
  lemma InterleaveLanes(xx: bv32, yy: bv32, zz: bv32)
    requires TenBits(xx) && TenBits(yy) && TenBits(zz)
    ensures Interleave(xx, yy, zz) & 0x49249249 == Spread(zz)
    ensures (Interleave(xx, yy, zz) >> 1) & 0x49249249 == Spread(yy)
    ensures (Interleave(xx, yy, zz) >> 2) & 0x49249249 == Spread(xx)
  {
  }

  /** De-interleaving a code gives back the three coordinates, so the code is injective. */
  lemma DecodeInterleave(xx: bv32, yy: bv32, zz: bv32)
    requires TenBits(xx) && TenBits(yy) && TenBits(zz)
    ensures Compact(Interleave(xx, yy, zz) >> 2) == xx
    ensures Compact(Interleave(xx, yy, zz) >> 1) == yy
    ensures Compact(Interleave(xx, yy, zz)) == zz
  {
  }

  /** `expand_bits(0x3FF)` from the tests. */
  lemma ExpandAllOnes()
    ensures ExpandBits(0x3FF) == 0x09249249
  {
  }

  /** `to_fixed_point` examples from the tests. */
  lemma FixedPointExamples()
    ensures ToFixedPoint(0.99999) == 0x3FF && ToFixedPoint(0.0) == 0
  {
  }

  /** `morton3(0.9999, 0.0, 0.9999)` from the tests. */
  lemma Morton3Example()
    ensures Morton3(0.9999, 0.0, 0.9999) == 0x2DB6DB6D
  {
    assert ToFixedPoint(0.9999) == 1023;
    ExpandAllOnes();
  }
}
