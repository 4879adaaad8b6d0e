/**
 * Small helpers of the keyless provider (src/stdx/net/tls/native/provider_helper.c):
 * the EC curve-name table, the key size and RSA field getters, the
 * lowercase-hex encoding of the certificate-id digest and the cached log
 * level.
 */
module ProviderHelper {
  import opened Wrappers
  import opened KeylessTypes

  // ------------------------------------------------------------ C strings

  /** tolower in the C locale: only 'A'..'Z' change. */
  function Lower(c: char): (r: char)
    ensures 'A' <= c <= 'Z' ==> r as int == c as int + 32
    ensures !('A' <= c <= 'Z') ==> r == c
  {
    if 'A' <= c <= 'Z' then (c as int + 32) as char else c
  }

  /** strcasecmp(a, b) == 0, for strings without their NUL. */
  predicate EqualsIgnoreCase(a: string, b: string)
  {
    |a| == |b| && forall i :: 0 <= i < |a| ==> Lower(a[i]) == Lower(b[i])
  }

  /** Every character folded to lower case. */
  function LowerAll(s: string): (r: string)
    ensures |r| == |s| && forall i :: 0 <= i < |s| ==> r[i] == Lower(s[i])
  {
    seq(|s|, i requires 0 <= i < |s| => Lower(s[i]))
  }

  /** Case-insensitive equality is equality after folding. */
  lemma EqualsIgnoreCaseIsFolding(a: string, b: string)
    ensures EqualsIgnoreCase(a, b) <==> LowerAll(a) == LowerAll(b)
  {
    if LowerAll(a) == LowerAll(b) {
      assert |a| == |LowerAll(a)|;
      forall i | 0 <= i < |a| ensures Lower(a[i]) == Lower(b[i]) {
        assert LowerAll(a)[i] == LowerAll(b)[i];
      }
    }
  }

  // ------------------------------------------------------------ curve table

  /** The spellings the source accepts for each curve, in the order it tests them. */
  const P256_NAMES: seq<string> := ["P-256", "p256", "prime256v1", "secp256r1"]
  const P384_NAMES: seq<string> := ["P-384", "p384", "secp384r1"]
  const P521_NAMES: seq<string> := ["P-521", "p521", "secp521r1"]
  const K256_NAMES: seq<string> := ["secp256k1"]

  /** The group name equals one of the names, ignoring case. */
  predicate MatchesAny(g: string, names: seq<string>)
  {
    exists j :: 0 <= j < |names| && EqualsIgnoreCase(g, names[j])
  }

  /**
   * GetEcOrderBitsFromGroup: the bit length of the curve order for the
   * supported curve names, matched without regard to case; 0 for NULL or
   * an unknown name.
   */
  function GetEcOrderBitsFromGroup(groupName: Option<string>): (bits: nat)
    ensures bits == 0 || bits == 256 || bits == 384 || bits == 521
    ensures groupName.None? ==> bits == 0
  {
    if groupName.None? then 0
    else
      var g := groupName.value;
      if MatchesAny(g, P256_NAMES) then 256
      else if MatchesAny(g, P384_NAMES) then 384
      else if MatchesAny(g, P521_NAMES) then 521
      else if MatchesAny(g, K256_NAMES) then 256
      else 0
  }

  /**
   * An independent statement of the table: the known curves by their
   * lower-case names.
   */
  function CurveOrderBits(): map<string, nat>
  {
    map[
      "p-256" := 256, "p256" := 256, "prime256v1" := 256, "secp256r1" := 256,
      "p-384" := 384, "p384" := 384, "secp384r1" := 384,
      "p-521" := 521, "p521" := 521, "secp521r1" := 521,
      "secp256k1" := 256]
  }

  /** The lookup answers exactly as the lower-case table does for the folded name. */
  lemma OrderBitsIsTableLookup(g: string)
    ensures GetEcOrderBitsFromGroup(Some(g)) ==
      (var t := CurveOrderBits(); if LowerAll(g) in t then t[LowerAll(g)] else 0)
  {
    var f := LowerAll(g);
    FoldedNames();
    MatchesAnyFolded(g, P256_NAMES, ["p-256", "p256", "prime256v1", "secp256r1"]);
    MatchesAnyFolded(g, P384_NAMES, ["p-384", "p384", "secp384r1"]);
    MatchesAnyFolded(g, P521_NAMES, ["p-521", "p521", "secp521r1"]);
    MatchesAnyFolded(g, K256_NAMES, ["secp256k1"]);
  }

  /** Matching a list of names is membership of the folded name among their folded forms. */
  lemma MatchesAnyFolded(g: string, names: seq<string>, folded: seq<string>)
    requires |folded| == |names|
    requires forall j :: 0 <= j < |names| ==> LowerAll(names[j]) == folded[j]
    ensures MatchesAny(g, names) <==> LowerAll(g) in folded
  {
    if LowerAll(g) in folded {
      var j :| 0 <= j < |folded| && folded[j] == LowerAll(g);
      EqualsIgnoreCaseIsFolding(g, names[j]);
    }
    if MatchesAny(g, names) {
      var j :| 0 <= j < |names| && EqualsIgnoreCase(g, names[j]);
      EqualsIgnoreCaseIsFolding(g, names[j]);
    }
  }

  /** The folded forms of the accepted spellings. */
  lemma FoldedNames()
    ensures LowerAll("P-256") == "p-256"
    ensures LowerAll("p256") == "p256"
    ensures LowerAll("prime256v1") == "prime256v1"
    ensures LowerAll("secp256r1") == "secp256r1"
    ensures LowerAll("P-384") == "p-384"
    ensures LowerAll("p384") == "p384"
    ensures LowerAll("secp384r1") == "secp384r1"
    ensures LowerAll("P-521") == "p-521"
    ensures LowerAll("p521") == "p521"
    ensures LowerAll("secp521r1") == "secp521r1"
    ensures LowerAll("secp256k1") == "secp256k1"
  {
  }

  // ------------------------------------------------------------ key getters

  /**
   * KeylessKeyGetSize: the modulus length in bytes for an RSA key, a fixed
   * 80-byte bound for an EC key, and 0 for NULL or an unimported key.
   */
  function KeyGetSize(k: KeylessKey?): (r: nat)
    reads k
    ensures k == null ==> r == 0
    ensures k != null && k.keyType == KEY_TYPE_RSA ==> r == k.nLen
    ensures k != null && k.keyType == KEY_TYPE_EC ==> r == EC_SIZE_BOUND
    ensures k != null && k.keyType != KEY_TYPE_RSA && k.keyType != KEY_TYPE_EC ==> r == 0
  {
    if k == null then 0
    else if k.keyType == KEY_TYPE_RSA then k.nLen
    else if k.keyType == KEY_TYPE_EC then EC_SIZE_BOUND
    else 0
  }

  /** The size reported for every EC key. */
  const EC_SIZE_BOUND: nat := 80

  /** KeylessKeyGetN: the modulus bytes of an RSA key, else NULL. */
  function KeyGetN(k: KeylessKey?): (r: Option<seq<bv8>>)
    reads k
    ensures k != null && k.keyType == KEY_TYPE_RSA ==> r == k.n
    ensures k == null || k.keyType != KEY_TYPE_RSA ==> r.None?
  {
    if k != null && k.keyType == KEY_TYPE_RSA then k.n else None
  }

  /** KeylessKeyGetNLen: the modulus length of an RSA key, else 0. */
  function KeyGetNLen(k: KeylessKey?): (r: nat)
    reads k
    ensures k != null && k.keyType == KEY_TYPE_RSA ==> r == k.nLen
    ensures k == null || k.keyType != KEY_TYPE_RSA ==> r == 0
  {
    if k != null && k.keyType == KEY_TYPE_RSA then k.nLen else 0
  }

  /** KeylessKeyGetE: the public-exponent bytes of an RSA key, else NULL. */
  function KeyGetE(k: KeylessKey?): (r: Option<seq<bv8>>)
    reads k
    ensures k != null && k.keyType == KEY_TYPE_RSA ==> r == k.e
    ensures k == null || k.keyType != KEY_TYPE_RSA ==> r.None?
  {
    if k != null && k.keyType == KEY_TYPE_RSA then k.e else None
  }

  /** KeylessKeyGetELen: the public-exponent length of an RSA key, else 0. */
  function KeyGetELen(k: KeylessKey?): (r: nat)
    reads k
    ensures k != null && k.keyType == KEY_TYPE_RSA ==> r == k.eLen
    ensures k == null || k.keyType != KEY_TYPE_RSA ==> r == 0
  {
    if k != null && k.keyType == KEY_TYPE_RSA then k.eLen else 0
  }

  /**
   * The getters agree with each other: a buffer handed out has the length
   * handed out beside it, and an RSA key's size is its modulus length.
   */
  lemma GettersAgree(k: KeylessKey?)
    requires k != null ==> k.Valid()
    ensures KeyGetN(k).Some? ==> |KeyGetN(k).value| == KeyGetNLen(k)
    ensures KeyGetE(k).Some? ==> |KeyGetE(k).value| == KeyGetELen(k)
    ensures k != null && k.keyType == KEY_TYPE_RSA ==> KeyGetSize(k) == KeyGetNLen(k)
    ensures k == null || k.keyType != KEY_TYPE_RSA ==>
      KeyGetN(k).None? && KeyGetE(k).None? && KeyGetNLen(k) == 0 && KeyGetELen(k) == 0
  {
  }

  // ------------------------------------------------------------ hex encoding

  const HEX_DIGITS: string := "0123456789abcdef"

  predicate IsHexDigit(c: char)
  {
    '0' <= c <= '9' || 'a' <= c <= 'f'
  }

  /** Lowercase hex text: an even number of digits. */
  predicate IsLowerHex(h: string)
  {
    |h| % 2 == 0 && forall i :: 0 <= i < |h| ==> IsHexDigit(h[i])
  }

  /** The high and low nibble of a byte, as the source extracts them. */
  function HighNibble(b: bv8): (r: nat)
    ensures r < 16
  {
    ((b >> 4) & 0xF) as nat
  }

  function LowNibble(b: bv8): (r: nat)
    ensures r < 16
  {
    (b & 0xF) as nat
  }

  /** Lowercase hex: two digits per byte, high nibble first, no separators. */
  function HexEncode(d: seq<bv8>): (r: string)
    ensures |r| == 2 * |d|
    ensures IsLowerHex(r)
  {
    DigitsAreHex();
    seq(2 * |d|, i requires 0 <= i < 2 * |d| =>
      HEX_DIGITS[if i % 2 == 0 then HighNibble(d[i / 2]) else LowNibble(d[i / 2])])
  }

  /** The value of a lowercase hex digit. */
  function DigitValue(c: char): (v: nat)
    requires IsHexDigit(c)
    ensures v < 16 && HEX_DIGITS[v] == c
  {
    if '0' <= c <= '9' then c as int - '0' as int else c as int - 'a' as int + 10
  }

  /** Each digit reads back as its own position. */
  lemma DigitValueOf(v: nat)
    requires v < 16
    ensures IsHexDigit(HEX_DIGITS[v]) && DigitValue(HEX_DIGITS[v]) == v
  {
    if v < 10 {
      assert HEX_DIGITS[v] as int == '0' as int + v;
    } else {
      assert HEX_DIGITS[v] as int == 'a' as int + v - 10;
    }
  }

  lemma DigitsAreHex()
    ensures forall v :: 0 <= v < 16 ==> IsHexDigit(HEX_DIGITS[v]) && DigitValue(HEX_DIGITS[v]) == v
  {
    forall v | 0 <= v < 16 ensures IsHexDigit(HEX_DIGITS[v]) && DigitValue(HEX_DIGITS[v]) == v {
      DigitValueOf(v);
    }
  }

  /** Reading lowercase hex back into bytes. */
  function HexDecode(h: string): (d: seq<bv8>)
    requires IsLowerHex(h)
    ensures |d| == |h| / 2
  {
    seq(|h| / 2, i requires 0 <= i < |h| / 2 =>
      JoinNibbles(DigitValue(h[2 * i]), DigitValue(h[2 * i + 1])))
  }

  /** The byte with the given high and low nibbles. */
  function JoinNibbles(hi: nat, lo: nat): bv8
    requires hi < 16 && lo < 16
  {
    ((hi as bv8) << 4) | (lo as bv8)
  }

  /** A byte is its two nibbles. */
  lemma NibblesRejoin(b: bv8)
    ensures JoinNibbles(HighNibble(b), LowNibble(b)) == b
  {
    NibbleRoundTrip((b >> 4) & 0xF);
    NibbleRoundTrip(b & 0xF);
  }

  lemma NibbleRoundTrip(x: bv8)
    ensures x as nat as bv8 == x
  {
  }

  /** Decoding the encoding gives the digest back. */
  lemma HexRoundTrip(d: seq<bv8>)
    ensures HexDecode(HexEncode(d)) == d
  {
    forall i | 0 <= i < |d| ensures HexDecode(HexEncode(d))[i] == d[i] {
      HexRoundTripAt(d, i);
    }
  }

  lemma HexRoundTripAt(d: seq<bv8>, i: nat)
    requires i < |d|
    ensures HexDecode(HexEncode(d))[i] == d[i]
  {
    EncodeAt(d, i);
    DigitValueOf(HighNibble(d[i]));
    DigitValueOf(LowNibble(d[i]));
    NibblesRejoin(d[i]);
  }

  /** Splitting a joined byte gives its nibbles back. */
  lemma NibblesSplit(hi: nat, lo: nat)
    requires hi < 16 && lo < 16
    ensures HighNibble(JoinNibbles(hi, lo)) == hi && LowNibble(JoinNibbles(hi, lo)) == lo
  {
    var x := hi as bv8;
    var y := lo as bv8;
    assert x < 16 && y < 16;
    assert ((((x << 4) | y) >> 4) & 0xF) == x;
    assert (((x << 4) | y) & 0xF) == y;
    NibbleToNat(hi);
    NibbleToNat(lo);
  }

  lemma NibbleToNat(v: nat)
    requires v < 16
    ensures v as bv8 as nat == v
  {
  }

  /** Encoding the decoding gives lowercase hex back: the encoding is onto lowercase hex. */
  lemma HexRoundTripBack(h: string)
    requires IsLowerHex(h)
    ensures HexEncode(HexDecode(h)) == h
  {
    forall j | 0 <= j < |h| ensures HexEncode(HexDecode(h))[j] == h[j] {
      HexRoundTripBackAt(h, j);
    }
  }

  lemma HexRoundTripBackAt(h: string, j: nat)
    requires IsLowerHex(h)
    requires j < |h|
    ensures HexEncode(HexDecode(h))[j] == h[j]
  {
    var i := j / 2;
    var d := HexDecode(h);
    var hi := DigitValue(h[2 * i]);
    var lo := DigitValue(h[2 * i + 1]);
    assert d[i] == JoinNibbles(hi, lo);
    NibblesSplit(hi, lo);
    assert HighNibble(d[i]) == hi && LowNibble(d[i]) == lo;
    EncodeAt(d, i);
    assert HEX_DIGITS[hi] == h[2 * i] && HEX_DIGITS[lo] == h[2 * i + 1];
    if j % 2 == 0 {
      assert j == 2 * i;
    } else {
      assert j == 2 * i + 1;
    }
  }

  /** The two digits of byte i of an encoding. */
  lemma EncodeAt(d: seq<bv8>, i: nat)
    requires i < |d|
    ensures HexEncode(d)[2 * i] == HEX_DIGITS[HighNibble(d[i])]
    ensures HexEncode(d)[2 * i + 1] == HEX_DIGITS[LowNibble(d[i])]
  {
    assert (2 * i) % 2 == 0 && (2 * i) / 2 == i;
    assert (2 * i + 1) % 2 == 1 && (2 * i + 1) / 2 == i;
  }

  // ------------------------------------------------------------ certificate id

  /**
   * What i2d_X509_NAME / i2d_ASN1_INTEGER give back: the length they
   * return (at most 0 on failure) and the DER bytes.
   */
  datatype DerEncoding = DerEncoding(length: int, bytes: seq<bv8>)

  /**
   * The parts of an X509 certificate the id uses: the DER encodings of its
   * issuer name and serial number, None when the getter returns NULL.
   */
  datatype Certificate = Certificate(issuer: Option<DerEncoding>, serial: Option<DerEncoding>)

  /** A successful encoding carries as many bytes as its length says. */
  predicate EncodingsConsistent(crt: Option<Certificate>)
  {
    crt.Some? ==>
      && (crt.value.issuer.Some? && crt.value.issuer.value.length > 0 ==>
            |crt.value.issuer.value.bytes| == crt.value.issuer.value.length)
      && (crt.value.serial.Some? && crt.value.serial.value.length > 0 ==>
            |crt.value.serial.value.bytes| == crt.value.serial.value.length)
  }

  /** The bytes hashed for the id: DER issuer then DER serial, when both encode. */
  function DigestInput(crt: Option<Certificate>): (m: Option<seq<bv8>>)
    ensures m.Some? ==>
      && crt.Some? && crt.value.issuer.Some? && crt.value.serial.Some?
      && crt.value.issuer.value.length > 0 && crt.value.serial.value.length > 0
      && m.value == crt.value.issuer.value.bytes + crt.value.serial.value.bytes
  {
    if crt.None? || crt.value.issuer.None? || crt.value.serial.None? then None
    else
      var i := crt.value.issuer.value;
      var s := crt.value.serial.value;
      if i.length <= 0 || s.length <= 0 then None else Some(i.bytes + s.bytes)
  }

  /** SHA-256 as an uninterpreted function: 32 bytes for any message. */
  ghost predicate IsDigest(sha256: seq<bv8> -> seq<bv8>)
  {
    forall m :: |sha256(m)| == 32
  }

  /**
   * The hex loop of CertIssuerSerialSha256Hex: two lowercase digits per
   * digest byte into outHex[0..64), then the NUL at index 64.
   */
  method WriteHex(dig: seq<bv8>, outHex: array<char>)
    requires |dig| == 32 && outHex.Length >= 65
    modifies outHex
    ensures outHex[..64] == HexEncode(dig) && outHex[64] == '\0'
    ensures outHex[65..] == old(outHex[65..])
  {
    for i := 0 to 32
      invariant forall j :: 0 <= j < 2 * i ==> outHex[j] == HexEncode(dig)[j]
      invariant outHex[65..] == old(outHex[65..])
    {
      EncodeAt(dig, i);
      outHex[i * 2] := HEX_DIGITS[HighNibble(dig[i])];
      outHex[i * 2 + 1] := HEX_DIGITS[LowNibble(dig[i])];
    }
    outHex[64] := '\0';
  }

  /**
   * CertIssuerSerialSha256Hex: 1 with the lowercase hex SHA-256 of the DER
   * issuer followed by the DER serial written into outHex, NUL-terminated;
   * 0, with outHex untouched, for a NULL certificate or buffer, a missing
   * issuer or serial, a failed encoding, a failed allocation or a failed
   * digest. (1 is success, as GetCertSha256Hex reads it.)
   */
  method CertIssuerSerialSha256Hex(crt: Option<Certificate>, outHex: array?<char>, allocOk: bool,
                                   sha256: seq<bv8> -> seq<bv8>, digestOk: bool)
    returns (r: int)
    requires outHex != null ==> outHex.Length >= 65
    requires EncodingsConsistent(crt) && IsDigest(sha256)
    modifies outHex
    ensures r == 1 <==> crt.Some? && outHex != null && DigestInput(crt).Some? && allocOk && digestOk
    ensures r == 0 || r == 1
    ensures r == 1 ==> outHex[..64] == HexEncode(sha256(DigestInput(crt).value)) && outHex[64] == '\0'
    ensures r == 0 && outHex != null ==> outHex[..] == old(outHex[..])
  {
    if crt.None? || outHex == null {
      return 0;
    }
    if crt.value.issuer.None? || crt.value.serial.None? {
      return 0;
    }
    var derIssuer := crt.value.issuer.value;
    var derSerial := crt.value.serial.value;
    if derIssuer.length <= 0 || derSerial.length <= 0 {
      return 0;
    }
    if !allocOk {
      return 0;
    }
    var cat := derIssuer.bytes + derSerial.bytes;
    if !digestOk {
      return 0;
    }
    var dig := sha256(cat);
    WriteHex(dig, outHex);
    return 1;
  }

  /**
   * GetCertSha256Hex: the NUL-terminated 64-digit id in a new buffer, or
   * NULL when the id cannot be computed or the buffer cannot be allocated.
   */
  method GetCertSha256Hex(crt: Option<Certificate>, catAllocOk: bool, sha256: seq<bv8> -> seq<bv8>,
                          digestOk: bool, outAllocOk: bool)
    returns (out: Option<string>)
    requires EncodingsConsistent(crt) && IsDigest(sha256)
    ensures out.Some? <==> DigestInput(crt).Some? && catAllocOk && digestOk && outAllocOk
    ensures out.Some? ==> out.value == HexEncode(sha256(DigestInput(crt).value)) + ['\0']
  {
    var buf := new char[65];
    var r := CertIssuerSerialSha256Hex(crt, buf, catAllocOk, sha256, digestOk);
    if r == 0 {
      return None;
    }
    if !outAllocOk {
      return None;
    }
    assert buf[..] == buf[..64] + [buf[64]];
    return Some(buf[..]);
  }

  /** The id is 64 lowercase hex digits that decode to the digest. */
  lemma CertIdDecodes(crt: Option<Certificate>, sha256: seq<bv8> -> seq<bv8>)
    requires IsDigest(sha256) && DigestInput(crt).Some?
    ensures |HexEncode(sha256(DigestInput(crt).value))| == 64
    ensures IsLowerHex(HexEncode(sha256(DigestInput(crt).value)))
    ensures HexDecode(HexEncode(sha256(DigestInput(crt).value))) == sha256(DigestInput(crt).value)
  {
    HexRoundTrip(sha256(DigestInput(crt).value));
  }

  // ------------------------------------------------------------ log level

  /** The log level a CJ_KEYLESS_DEBUG value selects: on iff set, non-empty and not starting with '0'. */
  function LevelOf(env: Option<string>): (level: int)
    ensures level == LOG_ON <==> env.Some? && |env.value| > 0 && env.value[0] != '0'
    ensures level == LOG_ON || level == LOG_OFF
  {
    if env.Some? && |env.value| > 0 && env.value[0] != '0' then LOG_ON else LOG_OFF
  }

  /** The static cache of GetKeylessLogLevel; negative until the first call. */
  class LogLevelCache {
    var cached: int

    constructor ()
      ensures cached == -1
    {
      cached := -1;
    }

    /**
     * GetKeylessLogLevel: the first call reads the environment (given as
     * `env`) and caches the level; later calls return the cached level
     * whatever the environment says by then.
     */
    method Get(env: Option<string>) returns (level: int)
      modifies this
      ensures old(cached) < 0 ==> level == LevelOf(env)
      ensures old(cached) >= 0 ==> level == old(cached)
      ensures cached == level
    {
      if cached < 0 {
        cached := LevelOf(env);
      }
      level := cached;
    }
  }

  /** KEYLESS_PROVIDER_LOG: whether the message is written to stderr; nothing else happens. */
  method ProviderLog(cache: LogLevelCache, env: Option<string>) returns (emitted: bool)
    modifies cache
    ensures emitted <==> cache.cached == LOG_ON
    ensures old(cache.cached) < 0 ==> (emitted <==> LevelOf(env) == LOG_ON)
    ensures old(cache.cached) >= 0 ==> cache.cached == old(cache.cached)
  {
    var level := cache.Get(env);
    emitted := level == LOG_ON;
  }
}
