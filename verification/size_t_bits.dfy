/**
 * The C `size_t` type of an LP64 platform: unsigned 64-bit integers, kept as
 * mathematical integers in [0, 2^64). Subtraction wraps modulo 2^64 where the
 * source relies on it, and the multi-bit operations `&`, `|`, `^` are spelled
 * out bit by bit, most significant bit first.
 */
module SizeTBits {

  const MODULUS: nat := 0x1_0000_0000_0000_0000
  const TOP_BIT: nat := 0x8000_0000_0000_0000
  /** `SIZE_MAX`, the all-ones word; also `~(size_t)0`. */
  const MAX: nat := 0xFFFF_FFFF_FFFF_FFFF

  /** No C object is larger than PTRDIFF_MAX, so every buffer length is below 2^63. */
  const OBJECT_LIMIT: nat := TOP_BIT

  type SizeT = x: int | 0 <= x < 0x1_0000_0000_0000_0000

  /** 2^n. */
  function Pow2(n: nat): (r: nat)
    ensures r >= 1
  {
    if n == 0 then 1 else 2 * Pow2(n - 1)
  }

  lemma {:induction false} Pow2Add(a: nat, b: nat)
    ensures Pow2(a + b) == Pow2(a) * Pow2(b)
  {
    if a > 0 {
      Pow2Add(a - 1, b);
      assert Pow2(a + b) == 2 * Pow2(a - 1 + b);
    }
  }

  /** The width constants agree with 2^64 and 2^63. */
  lemma Pow2Width()
    ensures Pow2(64) == MODULUS && Pow2(63) == TOP_BIT
  {
    Pow2Add(4, 4);
    assert Pow2(8) == 256;
    Pow2Add(8, 8);
    assert Pow2(16) == 0x1_0000;
    Pow2Add(16, 16);
    assert Pow2(32) == 0x1_0000_0000;
    Pow2Add(32, 32);
    Pow2Add(32, 31);
    Pow2Add(16, 15);
    Pow2Add(8, 7);
    Pow2Add(4, 3);
    assert Pow2(15) == 0x8000;
    assert Pow2(31) == 0x8000_0000;
  }

  /** `(size_t)0 - x`. */
  function Negate(x: SizeT): (r: SizeT)
    ensures x == 0 ==> r == 0
    ensures x != 0 ==> r + x == MODULUS
  {
    (MODULUS - x) % MODULUS
  }

  /** The value without its bit of weight h (h is the top bit of a's range). */
  function Low(a: nat, h: nat): nat {
    if a >= h then a - h else a
  }

  /** The bit-wise AND of two n-bit values. */
  function BitAnd(a: nat, b: nat, n: nat): (r: nat)
    requires a < Pow2(n) && b < Pow2(n)
    ensures r < Pow2(n)
    decreases n
  {
    if n == 0 then 0
    else
      var h := Pow2(n - 1);
      (if a >= h && b >= h then h else 0) + BitAnd(Low(a, h), Low(b, h), n - 1)
  }

  /** The bit-wise OR of two n-bit values. */
  function BitOr(a: nat, b: nat, n: nat): (r: nat)
    requires a < Pow2(n) && b < Pow2(n)
    ensures r < Pow2(n)
    decreases n
  {
    if n == 0 then 0
    else
      var h := Pow2(n - 1);
      (if a >= h || b >= h then h else 0) + BitOr(Low(a, h), Low(b, h), n - 1)
  }

  /** The bit-wise exclusive OR of two n-bit values. */
  function BitXor(a: nat, b: nat, n: nat): (r: nat)
    requires a < Pow2(n) && b < Pow2(n)
    ensures r < Pow2(n)
    decreases n
  {
    if n == 0 then 0
    else
      var h := Pow2(n - 1);
      (if (a >= h) != (b >= h) then h else 0) + BitXor(Low(a, h), Low(b, h), n - 1)
  }

  /** `a & b` on size_t. */
  function AndWord(a: SizeT, b: SizeT): SizeT
  {
    Pow2Width();
    BitAnd(a, b, 64)
  }

  /** `a | b` on size_t. */
  function OrWord(a: SizeT, b: SizeT): SizeT
  {
    Pow2Width();
    BitOr(a, b, 64)
  }

  /** `a ^ b` on size_t. */
  function XorWord(a: SizeT, b: SizeT): SizeT
  {
    Pow2Width();
    BitXor(a, b, 64)
  }

  /** The top bit of `a | b` is set iff it is set in `a` or in `b`. */
  lemma BitOrTopBit(a: nat, b: nat, n: nat)
    requires n >= 1 && a < Pow2(n) && b < Pow2(n)
    ensures BitOr(a, b, n) >= Pow2(n - 1) <==> a >= Pow2(n - 1) || b >= Pow2(n - 1)
  {
  }

  /** `a ^ b` is zero exactly when a and b are equal. */
  lemma {:induction false} BitXorZero(a: nat, b: nat, n: nat)
    requires a < Pow2(n) && b < Pow2(n)
    ensures BitXor(a, b, n) == 0 <==> a == b
  {
    if n > 0 {
      var h := Pow2(n - 1);
      BitXorZero(Low(a, h), Low(b, h), n - 1);
    }
  }

  /** ANDing with the all-ones word keeps the other operand. */
  lemma {:induction false} BitAndOnes(a: nat, n: nat)
    requires a < Pow2(n)
    ensures BitAnd(Pow2(n) - 1, a, n) == a
  {
    if n > 0 {
      var h := Pow2(n - 1);
      assert Low(Pow2(n) - 1, h) == h - 1;
      BitAndOnes(Low(a, h), n - 1);
    }
  }

  /** ANDing with zero gives zero. */
  lemma {:induction false} BitAndZero(a: nat, n: nat)
    requires a < Pow2(n)
    ensures BitAnd(0, a, n) == 0
  {
    if n > 0 {
      BitAndZero(Low(a, Pow2(n - 1)), n - 1);
    }
  }

  /** ORing with zero, on either side, keeps the other operand. */
  lemma {:induction false} BitOrZero(a: nat, n: nat)
    requires a < Pow2(n)
    ensures BitOr(a, 0, n) == a && BitOr(0, a, n) == a
  {
    if n > 0 {
      BitOrZero(Low(a, Pow2(n - 1)), n - 1);
    }
  }
}
