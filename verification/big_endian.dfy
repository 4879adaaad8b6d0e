/**
 * Unsigned integers as byte strings, the way the provider hands RSA moduli
 * and exponents to and from the bignum library: big-endian minimal bytes
 * out of BN_bn2bin, big-endian bytes into BN_bin2bn, and host-order
 * (little-endian) bytes out of an unsigned-integer OSSL_PARAM.
 */
module ByteOrder {

  /** Value of a big-endian byte string. */
  function FromBytesBE(s: seq<bv8>): nat
    decreases |s|
  {
    if s == [] then 0 else FromBytesBE(s[..|s| - 1]) * 256 + s[|s| - 1] as nat
  }

  /** Value of a little-endian byte string. */
  function FromBytesLE(s: seq<bv8>): nat
    decreases |s|
  {
    if s == [] then 0 else s[0] as nat + 256 * FromBytesLE(s[1..])
  }

  /** Number of bytes of the minimal big-endian form of v (BN_num_bytes); 0 for 0. */
  function NumBytes(v: nat): nat
  {
    if v == 0 then 0 else 1 + NumBytes(v / 256)
  }

  /** Minimal big-endian bytes of v (BN_bn2bin): no leading zero byte, empty for 0. */
  function ToBytesBE(v: nat): (r: seq<bv8>)
    ensures |r| == NumBytes(v)
  {
    if v == 0 then [] else ToBytesBE(v / 256) + [(v % 256) as bv8]
  }

  /** ToBytesBE is a right inverse of FromBytesBE. */
  lemma {:induction false} FromToBytesBE(v: nat)
    ensures FromBytesBE(ToBytesBE(v)) == v
  {
    if v != 0 {
      var r := ToBytesBE(v);
      assert r[..|r| - 1] == ToBytesBE(v / 256);
      ByteRoundTrip(v % 256);
      FromToBytesBE(v / 256);
      calc {
        FromBytesBE(r);
        FromBytesBE(ToBytesBE(v / 256)) * 256 + v % 256;
        (v / 256) * 256 + v % 256;
      }
    }
  }

  lemma ByteRoundTrip(d: int)
    requires 0 <= d < 256
    ensures (d as bv8) as int == d
  {
    var b := ByteOf(d);
    assert (b as int) as bv8 == b;
  }

  /** The byte whose value is d, counted up from zero. */
  ghost function ByteOf(d: int): (b: bv8)
    requires 0 <= d < 256
    ensures b as int == d
  {
    if d == 0 then 0 else ByteOf(d - 1) + 1
  }

  /** The minimal form never starts with a zero byte. */
  lemma {:induction false} ToBytesBEMinimal(v: nat)
    ensures ToBytesBE(v) == [] || ToBytesBE(v)[0] != 0
    ensures ToBytesBE(v) == [] <==> v == 0
  {
    if v != 0 {
      if v / 256 == 0 {
        assert ToBytesBE(v) == [(v % 256) as bv8];
      } else {
        ToBytesBEMinimal(v / 256);
      }
    }
  }

  /** A leading zero byte does not change the value. */
  lemma {:induction false} LeadingZero(s: seq<bv8>)
    ensures FromBytesBE([0] + s) == FromBytesBE(s)
    decreases |s|
  {
    if s != [] {
      var t := [0 as bv8] + s;
      assert t[..|t| - 1] == [0] + s[..|s| - 1];
      LeadingZero(s[..|s| - 1]);
    }
  }

  /** 256 to the m. */
  function Pow256(m: nat): (r: nat)
    ensures r >= 1
  {
    if m == 0 then 1 else 256 * Pow256(m - 1)
  }

  /** An m-byte little-endian string holds a value below 256^m. */
  lemma {:induction false} FromBytesLEBound(s: seq<bv8>)
    ensures FromBytesLE(s) < Pow256(|s|)
    decreases |s|
  {
    if s != [] {
      FromBytesLEBound(s[1..]);
      assert s[0] as nat <= 255;
    }
  }

  /** A value below 256^m needs at most m bytes. */
  lemma {:induction false} NumBytesBound(v: nat, m: nat)
    requires v < Pow256(m)
    ensures NumBytes(v) <= m
    decreases m
  {
    if v != 0 {
      assert m > 0;
      NumBytesBound(v / 256, m - 1);
    }
  }

  /** Re-encoding a little-endian value big-endian never makes it longer. */
  lemma NumBytesOfLE(s: seq<bv8>)
    ensures NumBytes(FromBytesLE(s)) <= |s|
  {
    FromBytesLEBound(s);
    NumBytesBound(FromBytesLE(s), |s|);
  }

  /** m zero bytes. */
  function Zeros(m: nat): (z: seq<bv8>)
    ensures |z| == m && forall i :: 0 <= i < m ==> z[i] == 0
  {
    seq(m, i => 0)
  }

  /** Any run of leading zero bytes leaves the value unchanged. */
  lemma {:induction false} LeadingZeros(m: nat, s: seq<bv8>)
    ensures FromBytesBE(Zeros(m) + s) == FromBytesBE(s)
  {
    if m == 0 {
      assert Zeros(m) + s == s;
    } else {
      assert Zeros(m) + s == [0] + (Zeros(m - 1) + s);
      LeadingZero(Zeros(m - 1) + s);
      LeadingZeros(m - 1, s);
    }
  }

  /** The value of a concatenation: the high part shifted past the low part. */
  lemma {:induction false} FromBytesBEConcat(a: seq<bv8>, b: seq<bv8>)
    ensures FromBytesBE(a + b) == FromBytesBE(a) * Pow256(|b|) + FromBytesBE(b)
    decreases |b|
  {
    if b == [] {
      assert a + b == a;
    } else {
      var b' := b[..|b| - 1];
      var last := b[|b| - 1] as nat;
      assert (a + b)[..|a + b| - 1] == a + b';
      assert FromBytesBE(a + b) == FromBytesBE(a + b') * 256 + last;
      assert FromBytesBE(b) == FromBytesBE(b') * 256 + last;
      FromBytesBEConcat(a, b');
      Shift(FromBytesBE(a), Pow256(|b'|), FromBytesBE(b'), last);
    }
  }

  lemma Shift(x: nat, p: nat, y: nat, c: nat)
    ensures (x * p + y) * 256 + c == x * (256 * p) + (y * 256 + c)
  {
  }

  /** A big-endian string of m bytes holds less than 256 to the m. */
  lemma {:induction false} FromBytesBEBound(s: seq<bv8>)
    ensures FromBytesBE(s) < Pow256(|s|)
    decreases |s|
  {
    if s != [] {
      FromBytesBEBound(s[..|s| - 1]);
      assert FromBytesBE(s[..|s| - 1]) + 1 <= Pow256(|s| - 1);
      assert (FromBytesBE(s[..|s| - 1]) + 1) * 256 <= Pow256(|s| - 1) * 256;
    }
  }

  /** Keeping the last m bytes keeps the value modulo 256 to the m. */
  lemma LowBytes(s: seq<bv8>, m: nat)
    requires m <= |s|
    ensures FromBytesBE(s[|s| - m..]) == FromBytesBE(s) % Pow256(m)
  {
    var hi, lo := s[..|s| - m], s[|s| - m..];
    assert s == hi + lo;
    FromBytesBEConcat(hi, lo);
    FromBytesBEBound(lo);
    ModOfMultiplePlus(FromBytesBE(s), FromBytesBE(hi), Pow256(m), FromBytesBE(lo));
  }

  /** Euclidean division is unique: a remainder below the divisor is the remainder. */
  lemma ModOfMultiplePlus(x: nat, q: nat, p: nat, r: nat)
    requires x == q * p + r && r < p
    ensures x % p == r
  {
    var d := x / p;
    assert p * (q - d) == x % p - r;
    if q - d >= 1 {
      MultiplyAtLeast(p, q - d);
    } else if q - d <= -1 {
      MultiplyAtLeast(p, d - q);
    }
  }

  lemma MultiplyAtLeast(p: nat, k: int)
    requires k >= 1
    ensures p * k >= p
  {
  }
}
