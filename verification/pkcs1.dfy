/**
 * EME-PKCS1-v1_5 decoding (section 7.2.2, step 3, of RFC 8017) as the RSA
 * decrypt operation performs it: mask arithmetic, one scan over the encoded
 * message and one masked copy into the caller's buffer.
 */
module Pkcs1 {
  import opened Wrappers
  import opened SizeTBits
  import opened CtMask

  /** 0x00 || 0x02 || PS (at least 8 bytes) || 0x00. */
  const MIN_OVERHEAD: nat := 11

  /** The index of the first zero byte of s[lo..hi), if there is one. */
  function FirstZero(s: seq<bv8>, lo: nat, hi: nat): (r: Option<nat>)
    requires hi <= |s|
    ensures r.Some? ==> lo <= r.value < hi && s[r.value] == 0
    ensures r.Some? ==> forall k :: lo <= k < r.value ==> s[k] != 0
    ensures r.None? ==> forall k :: lo <= k < hi ==> s[k] != 0
    decreases hi
  {
    if hi <= lo then None
    else
      match FirstZero(s, lo, hi - 1)
      case Some(k) => Some(k)
      case None => if s[hi - 1] == 0 then Some(hi - 1) else None
  }

  /**
   * EM is 0x00 || 0x02 || PS || 0x00 || M with PS free of zero bytes and at
   * least 8 bytes long, and M exactly outLen bytes long.
   */
  predicate Conforming(em: seq<bv8>, outLen: nat) {
    && |em| >= outLen + MIN_OVERHEAD
    && em[0] == 0x00
    && em[1] == 0x02
    && var sep := FirstZero(em, 2, |em|);
    && sep.Some?
    && sep.value >= 10
    && |em| - sep.value - 1 == outLen
  }

  predicate NonZero(ps: seq<bv8>) {
    forall k :: 0 <= k < |ps| ==> ps[k] != 0
  }

  /** The encoding step: EM = 0x00 || 0x02 || PS || 0x00 || M. */
  function Encode(ps: seq<bv8>, m: seq<bv8>): (em: seq<bv8>)
    ensures |em| == |ps| + |m| + 3
  {
    [0x00, 0x02] + ps + [0x00] + m
  }

  /** The message M of a conforming EM: its last outLen bytes. */
  function Message(em: seq<bv8>, outLen: nat): seq<bv8>
    requires outLen <= |em|
  {
    em[|em| - outLen..]
  }

  /** The message of an array's first n bytes is a slice of the array. */
  lemma MessageOfArray(a: array<bv8>, n: nat, outLen: nat)
    requires outLen <= n <= a.Length
    ensures Message(a[..n], outLen) == a[n - outLen..n]
  {
  }

  /** a - b, or 0 when b exceeds a: the read position used when EM is rejected. */
  function SaturatingSub(a: SizeT, b: SizeT): (r: SizeT)
    ensures a >= b ==> r == a - b
    ensures a < b ==> r == 0
  {
    if a >= b then a - b else 0
  }

  /** A copy from em[readIndex..) with readIndex == emLen - outLen is the message slice. */
  lemma CopiedMessage(out: array<bv8>, em: array<bv8>, readIndex: nat, emLen: nat, outLen: nat)
    requires outLen <= out.Length && outLen <= emLen <= em.Length
    requires readIndex == emLen - outLen
    requires out[..outLen] == em[readIndex..readIndex + outLen]
    ensures out[..outLen] == em[emLen - outLen..emLen]
  {
  }

  /** The separator of an encoding is the zero right after PS. */
  lemma EncodeSeparator(ps: seq<bv8>, m: seq<bv8>)
    requires NonZero(ps)
    ensures FirstZero(Encode(ps, m), 2, |Encode(ps, m)|) == Some(|ps| + 2)
  {
    var em := Encode(ps, m);
    var sep := FirstZero(em, 2, |em|);
    assert em[|ps| + 2] == 0;
    assert forall k :: 2 <= k < |ps| + 2 ==> em[k] == ps[k - 2];
  }

  /** Round trip: every encoding with a long enough zero-free PS decodes to its M. */
  lemma EncodeConforms(ps: seq<bv8>, m: seq<bv8>)
    requires |ps| >= 8 && NonZero(ps)
    ensures Conforming(Encode(ps, m), |m|)
    ensures Message(Encode(ps, m), |m|) == m
  {
    EncodeSeparator(ps, m);
    var em := Encode(ps, m);
    assert em[|em| - |m|..] == m;
  }

  /** Conversely, every conforming EM is such an encoding. */
  lemma ConformingIsEncoding(em: seq<bv8>, outLen: nat)
    requires Conforming(em, outLen)
    ensures var sep := FirstZero(em, 2, |em|).value;
      && |em[2..sep]| >= 8
      && NonZero(em[2..sep])
      && em == Encode(em[2..sep], Message(em, outLen))
  {
    var sep := FirstZero(em, 2, |em|).value;
    var ps := em[2..sep];
    assert forall k :: 0 <= k < |ps| ==> ps[k] == em[k + 2];
    assert em == [em[0], em[1]] + em[2..sep] + [em[sep]] + em[sep + 1..];
  }

  /** The per-byte select of the copy loop, for the two masks it is used with. */
  lemma MaskedSelect(valid: bv8, invalid: bv8, selected: bv8, fallback: bv8)
    requires (valid == 0xFF && invalid == 0) || (valid == 0 && invalid == 0xFF)
    ensures (valid & selected) | (invalid & fallback) == if valid == 0xFF then selected else fallback
  {
  }

  /**
   * The copy loop of Pkcs1V15Unpad: out[i] becomes em[readIndex + i] under the
   * all-ones byte mask and keeps its value under the zero mask.
   */
  method MaskedCopy(out: array<bv8>, outLen: SizeT, em: array<bv8>, readIndex: SizeT,
                    validMaskByte: bv8, invalidMaskByte: bv8)
    requires out != em
    requires outLen <= out.Length && readIndex + outLen <= em.Length
    requires (validMaskByte == 0xFF && invalidMaskByte == 0) || (validMaskByte == 0 && invalidMaskByte == 0xFF)
    modifies out
    ensures validMaskByte == 0xFF ==> out[..outLen] == em[readIndex..readIndex + outLen]
    ensures validMaskByte == 0xFF ==> out[outLen..] == old(out[outLen..])
    ensures validMaskByte == 0 ==> out[..] == old(out[..])
  {
    var i: SizeT := 0;
    while i < outLen
      invariant 0 <= i <= outLen
      invariant forall k :: 0 <= k < i ==>
        out[k] == if validMaskByte == 0xFF then em[readIndex + k] else old(out[k])
      invariant forall k :: i <= k < out.Length ==> out[k] == old(out[k])
    {
      var fallbackByte := out[i];
      var selected := em[readIndex + i];
      MaskedSelect(validMaskByte, invalidMaskByte, selected, fallbackByte);
      out[i] := (validMaskByte & selected) | (invalidMaskByte & fallbackByte);
      i := i + 1;
    }
    if validMaskByte == 0xFF {
      assert out[..outLen] == em[readIndex..readIndex + outLen];
    } else {
      assert out[..] == old(out[..]);
    }
  }

  /**
   * The separator scan of Pkcs1V15Unpad: visits every index of em[2..emLen),
   * remembering the first zero byte through mask selects rather than an exit.
   */
  method ScanForSeparator(em: array<bv8>, emLen: SizeT)
    returns (sepIndex: SizeT, zeroFound: bv32, ghost scanned: nat)
    requires 2 <= emLen <= em.Length
    ensures var sep := FirstZero(em[..emLen], 2, emLen);
      && zeroFound == (if sep.Some? then ALL_ONES else 0)
      && sepIndex == (if sep.Some? then sep.value else 0)
    ensures scanned == emLen - 2
  {
    ghost var e := em[..emLen];
    zeroFound := 0;
    var looking: bv32 := ALL_ONES;
    sepIndex := 0;
    scanned := 0;
    var i: SizeT := 2;
    while i < emLen
      invariant 2 <= i <= emLen
      invariant scanned == i - 2
      invariant looking == if FirstZero(e, 2, i).None? then ALL_ONES else 0
      invariant zeroFound == if FirstZero(e, 2, i).Some? then ALL_ONES else 0
      invariant sepIndex == if FirstZero(e, 2, i).Some? then FirstZero(e, 2, i).value else 0
    {
      assert e[i] == em[i];
      sepIndex, zeroFound, looking := ScanStep(em[i], i, sepIndex, zeroFound, looking);
      i := i + 1;
      scanned := scanned + 1;
    }
  }

  /**
   * One step of the separator scan at index i: while still looking, a zero
   * byte records i as the separator, sets zeroFound and stops the looking.
   */
  method ScanStep(b: bv8, i: SizeT, sepIndex: SizeT, zeroFound: bv32, looking: bv32)
    returns (sepIndex': SizeT, zeroFound': bv32, looking': bv32)
    requires IsMask(zeroFound) && IsMask(looking)
    ensures var hit := looking == ALL_ONES && b == 0;
      && sepIndex' == (if hit then i else sepIndex)
      && zeroFound' == (if hit then ALL_ONES else zeroFound)
      && looking' == (if hit then 0 else looking)
  {
    LowByte(b, 0);
    var isZero := CtIsZero8(b as bv32);
    StepMasks(looking, isZero, zeroFound);
    sepIndex' := CtSelectSizeT(looking & isZero, i, sepIndex);
    zeroFound' := zeroFound | (looking & isZero);
    looking' := looking & !isZero;
  }

  /** The mask updates of one scan step, case by case. */
  lemma StepMasks(looking: bv32, isZero: bv32, zeroFound: bv32)
    requires IsMask(looking) && IsMask(isZero) && IsMask(zeroFound)
    ensures var hit := looking == ALL_ONES && isZero == ALL_ONES;
      && ((looking & isZero) & 1 == 1 <==> hit)
      && zeroFound | (looking & isZero) == (if hit then ALL_ONES else zeroFound)
      && looking & !isZero == (if hit then 0 else looking)
  {
    if looking == 0 {
      assert looking & isZero == 0;
      assert looking & !isZero == 0;
    } else if isZero == 0 {
      assert looking & isZero == 0;
      assert looking & !isZero == ALL_ONES;
    } else {
      assert looking & isZero == ALL_ONES;
      assert looking & !isZero == 0;
    }
  }

  /** The AND of two masks is a mask, all ones exactly when both are. */
  lemma AndMask(a: bv32, b: bv32)
    requires IsMask(a) && IsMask(b)
    ensures IsMask(a & b) && (a & b == ALL_ONES <==> a == ALL_ONES && b == ALL_ONES)
  {
  }

  /** The complement of a mask is a mask, all ones exactly when the mask is zero. */
  lemma NotMask(a: bv32)
    requires IsMask(a)
    ensures IsMask(!a) && (!a == ALL_ONES <==> a == 0)
  {
  }

  /** The OR of two masks is a mask, all ones exactly when either is. */
  lemma OrMask(a: bv32, b: bv32)
    requires IsMask(a) && IsMask(b)
    ensures IsMask(a | b) && (a | b == ALL_ONES <==> a == ALL_ONES || b == ALL_ONES)
  {
  }

  /** Bit 0 of a mask tells which mask it is. */
  lemma MaskLowBit(m: bv32)
    requires IsMask(m)
    ensures m & 1 == 1 <==> m == ALL_ONES
  {
  }

  /** A byte widened to 32 bits keeps its value in the low byte. */
  lemma LowByte(b: bv8, c: bv8)
    ensures (b as bv32) & 0xFF == (c as bv32) & 0xFF <==> b == c
    ensures (b as bv32) & 0xFF == 0 <==> b == 0
  {
  }

  /** The header masks of Pkcs1V15Unpad: all ones exactly for em[0] == 0x00 and em[1] == 0x02. */
  method HeaderMask(em: array<bv8>) returns (mask: bv32)
    requires 2 <= em.Length
    ensures IsMask(mask) && (mask == ALL_ONES <==> em[0] == 0 && em[1] == 2)
  {
    LowByte(em[0], 0);
    LowByte(em[1], 2);
    var zeroOk := CtIsZero8(em[0] as bv32);
    var typeOk := CtEq8(em[1] as bv32, 0x02);
    AndMask(zeroOk, typeOk);
    mask := zeroOk & typeOk;
  }

  /**
   * The length masks of Pkcs1V15Unpad: psTooShort is all ones exactly when
   * the separator sits before index 10, msgLenBad exactly when the message
   * after it is not outLen bytes long.
   */
  method LengthMasks(sepIndex: SizeT, msgLen: SizeT, outLen: SizeT) returns (psTooShort: bv32, msgLenBad: bv32)
    requires sepIndex < OBJECT_LIMIT
    ensures IsMask(psTooShort) && (psTooShort == ALL_ONES <==> sepIndex < 10)
    ensures IsMask(msgLenBad) && (msgLenBad == ALL_ONES <==> msgLen != outLen)
  {
    psTooShort := CtLtSizeT(sepIndex, 10);
    var lenOk := CtEqSizeT(msgLen, outLen);
    NotMask(lenOk);
    msgLenBad := !lenOk;
  }

  /** validMask & zeroFound & ~psTooShort & ~msgLenBad, as masks. */
  method CombineMasks(header: bv32, zeroFound: bv32, psTooShort: bv32, msgLenBad: bv32) returns (validMask: bv32)
    requires IsMask(header) && IsMask(zeroFound) && IsMask(psTooShort) && IsMask(msgLenBad)
    ensures IsMask(validMask)
    ensures validMask == ALL_ONES <==>
      header == ALL_ONES && zeroFound == ALL_ONES && psTooShort == 0 && msgLenBad == 0
  {
    NotMask(psTooShort);
    NotMask(msgLenBad);
    AndMask(header, zeroFound);
    validMask := header & zeroFound;
    AndMask(validMask, !psTooShort);
    validMask := validMask & !psTooShort;
    AndMask(validMask, !msgLenBad);
    validMask := validMask & !msgLenBad;
  }

  /**
   * The branch-free validity check of Pkcs1V15Unpad: the mask is all ones
   * exactly when em[0..emLen) is a conforming EM for an outLen-byte message,
   * and then M starts at the returned index.
   */
  method CheckEncoding(em: array<bv8>, emLen: SizeT, outLen: SizeT)
    returns (validMask: bv32, msgIndex: SizeT, ghost scanned: nat)
    requires outLen + MIN_OVERHEAD <= emLen <= em.Length && emLen < OBJECT_LIMIT
    ensures validMask == if Conforming(em[..emLen], outLen) then ALL_ONES else 0
    ensures validMask == ALL_ONES ==> msgIndex == emLen - outLen
    ensures scanned == emLen - 2
  {
    ghost var e := em[..emLen];
    var header := HeaderMask(em);
    var sepIndex, zeroFound;
    sepIndex, zeroFound, scanned := ScanForSeparator(em, emLen);
    ghost var sep := FirstZero(e, 2, emLen);

    msgIndex := sepIndex + 1;
    var msgLen: SizeT := emLen - msgIndex;
    var psTooShort, msgLenBad := LengthMasks(sepIndex, msgLen, outLen);
    validMask := CombineMasks(header, zeroFound, psTooShort, msgLenBad);
    assert Conforming(e, outLen) <==> e[0] == 0 && e[1] == 2 && sep.Some? && sepIndex >= 10 && msgLen == outLen;
  }

  /**
   * What Pkcs1V15Unpad derives from its validity mask: the read index (the
   * message index or the fallback), the byte masks for the copy, and the
   * result `validMask & 1`.
   */
  method ApplyMask(validMask: bv32, msgIndex: SizeT, fallbackIndex: SizeT)
    returns (readIndex: SizeT, validMaskByte: bv8, invalidMaskByte: bv8, r: int)
    requires IsMask(validMask)
    ensures readIndex == if validMask == ALL_ONES then msgIndex else fallbackIndex
    ensures validMask == ALL_ONES ==> validMaskByte == 0xFF && invalidMaskByte == 0 && r == 1
    ensures validMask == 0 ==> validMaskByte == 0 && invalidMaskByte == 0xFF && r == 0
  {
    MaskLowBit(validMask);
    MaskBits(validMask);
    readIndex := CtSelectSizeT(validMask, msgIndex, fallbackIndex);
    validMaskByte := (validMask & 0xFF) as bv8;
    invalidMaskByte := !validMaskByte;
    r := (validMask & 1) as int;
  }

  /** The low byte and the low bit of a mask, for each of its two values. */
  lemma MaskBits(m: bv32)
    requires IsMask(m)
    ensures m == ALL_ONES ==> (m & 0xFF) as bv8 == 0xFF && !((m & 0xFF) as bv8) == 0 && (m & 1) as int == 1
    ensures m == 0 ==> (m & 0xFF) as bv8 == 0 && !((m & 0xFF) as bv8) == 0xFF && (m & 1) as int == 0
  {
    if m == 0 {
      assert m & 1 == 0;
    } else {
      assert m & 1 == 1;
    }
  }

  /**
   * Pkcs1V15Unpad: on success copies M into out[0..outLen) and returns 1; on
   * failure returns 0 and leaves out exactly as it was. The separator scan
   * runs over all of em[2..emLen) whatever the data, and the copy reads
   * em[emLen - outLen..emLen) in both cases.
   */
  method Pkcs1V15Unpad(out: array?<bv8>, outLen: SizeT, em: array?<bv8>, emLen: SizeT)
    returns (r: int, ghost scanned: nat)
    requires outLen < OBJECT_LIMIT && emLen < OBJECT_LIMIT
    requires out != null ==> outLen <= out.Length
    requires em != null ==> emLen <= em.Length
    requires out == null || out != em
    modifies out
    ensures r == 0 || r == 1
    ensures r == 1 <==> out != null && em != null && Conforming(em[..emLen], outLen)
    ensures r == 1 ==> out[..outLen] == Message(em[..emLen], outLen)
    ensures r == 1 ==> out[outLen..] == old(out[outLen..])
    ensures r == 0 && out != null ==> out[..] == old(out[..])
    ensures out != null && em != null && emLen >= outLen + MIN_OVERHEAD ==> scanned == emLen - 2
  {
    if out == null || em == null || emLen < outLen + MIN_OVERHEAD {
      return 0, 0;
    }
    var validMask, msgIndex;
    validMask, msgIndex, scanned := CheckEncoding(em, emLen, outLen);
    ghost var ok := validMask == ALL_ONES;

    var fallbackIndex := SaturatingSub(emLen, outLen);
    var readIndex, validMaskByte, invalidMaskByte, result := ApplyMask(validMask, msgIndex, fallbackIndex);
    assert readIndex == emLen - outLen;

    MaskedCopy(out, outLen, em, readIndex, validMaskByte, invalidMaskByte);
    r := result;
    MessageOfArray(em, emLen, outLen);
    if ok {
      CopiedMessage(out, em, readIndex, emLen, outLen);
    }
  }
}
