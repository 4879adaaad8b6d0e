/**
 * The constant-time mask helpers of the RSA-decrypt operation. `unsigned int`
 * is bv32; `size_t` is SizeTBits.SizeT. Every helper returns a full-width mask
 * (all ones or zero), never the value 1.
 */
module CtMask {
  import opened SizeTBits

  const ALL_ONES: bv32 := 0xFFFF_FFFF

  /** A mask as these helpers produce it: all bits set or none. */
  predicate IsMask(m: bv32) {
    m == 0 || m == ALL_ONES
  }

  /** All ones iff the low byte of x is zero. */
  function CtIsZero8(x: bv32): (r: bv32)
    ensures IsMask(r)
    ensures r == ALL_ONES <==> x & 0xFF == 0
  {
    var v := x & 0xFF;
    var orv := v | (0 - v);
    var msb := (orv >> 31) ^ 1;
    0 - (msb & 1)
  }

  /** All ones iff the low bytes of a and b are equal. */
  function CtEq8(a: bv32, b: bv32): (r: bv32)
    ensures IsMask(r)
    ensures r == ALL_ONES <==> a & 0xFF == b & 0xFF
  {
    assert (a ^ b) & 0xFF == 0 <==> a & 0xFF == b & 0xFF;
    CtIsZero8((a ^ b) & 0xFF)
  }

  /** All ones iff x is zero. */
  function CtIsZeroSizeT(x: SizeT): (r: bv32)
    ensures IsMask(r)
    ensures r == ALL_ONES <==> x == 0
  {
    OrNegateTopBit(x);
    var orv := OrWord(x, Negate(x));
    var shifted := orv / TOP_BIT;
    // (orv >> 63) ^ 1u: the shifted value is a single bit, so the XOR flips it
    var msb := 1 - shifted;
    0 - (if msb % 2 == 1 then 1 else 0)
  }

  /** `(x | (0 - x)) >> 63` is 1 exactly when x is non-zero. */
  lemma OrNegateTopBit(x: SizeT)
    ensures OrWord(x, Negate(x)) / TOP_BIT == if x != 0 then 1 else 0
  {
    Pow2Width();
    BitOrTopBit(x, Negate(x), 64);
    var orv := OrWord(x, Negate(x));
    assert orv >= TOP_BIT <==> x != 0 by {
      if x != 0 {
        assert x >= TOP_BIT || Negate(x) >= TOP_BIT;
      }
    }
    TopBitOf(orv);
  }

  /** Shifting a size_t right by 63 leaves its top bit. */
  lemma TopBitOf(v: SizeT)
    ensures v / TOP_BIT == if v >= TOP_BIT then 1 else 0
  {
  }

  /** All ones iff a and b are equal. */
  function CtEqSizeT(a: SizeT, b: SizeT): (r: bv32)
    ensures IsMask(r)
    ensures r == ALL_ONES <==> a == b
  {
    Pow2Width();
    BitXorZero(a, b, 64);
    CtIsZeroSizeT(XorWord(a, b))
  }

  /**
   * All ones iff the top bit of the wrapped difference a - b is set; that is
   * a < b whenever both operands are below 2^63.
   */
  function CtLtSizeT(a: SizeT, b: SizeT): (r: bv32)
    ensures IsMask(r)
    ensures r == ALL_ONES <==> (a - b) % MODULUS >= TOP_BIT
    ensures a < TOP_BIT && b < TOP_BIT ==> (r == ALL_ONES <==> a < b)
  {
    var diff := (a - b) % MODULUS;
    var msb := diff / TOP_BIT;
    0 - (if msb % 2 == 1 then 1 else 0)
  }

  /** a when bit 0 of the mask is set, b otherwise. */
  function CtSelectSizeT(mask: bv32, a: SizeT, b: SizeT): (r: SizeT)
    ensures r == if mask & 1 == 1 then a else b
  {
    SelectBits(a, b);
    // m = (size_t)0 - (size_t)(mask & 1u), then (m & a) | (~m & b)
    if mask & 1 == 1 then OrWord(AndWord(MAX, a), AndWord(0, b))
    else OrWord(AndWord(0, a), AndWord(MAX, b))
  }

  /** `(m & a) | (~m & b)` for the two full-width masks m. */
  lemma SelectBits(a: SizeT, b: SizeT)
    ensures OrWord(AndWord(MAX, a), AndWord(0, b)) == a
    ensures OrWord(AndWord(0, a), AndWord(MAX, b)) == b
  {
    Pow2Width();
    BitAndOnes(a, 64);
    BitAndZero(b, 64);
    BitOrZero(a, 64);
    BitAndZero(a, 64);
    BitAndOnes(b, 64);
    BitOrZero(b, 64);
  }
}
