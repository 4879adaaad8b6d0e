/**
 * The RSA decrypt operation of the keyless provider
 * (src/stdx/net/tls/native/provider_asymcipher.c): the operation context,
 * its reference to the key, and the decryption of a TLS RSA pre-master
 * secret by a remote callback followed by constant-time EME-PKCS1-v1_5
 * decoding.
 *
 * The random generator, the secure allocator and the remote callback are
 * parameters: `rand` is what RAND_bytes produces (None when it fails,
 * taken to write nothing),
 * `allocOk` whether both secure buffers are allocated, and `reply` what
 * the callback hands back.
 */
module AsymCipher {
  import opened Wrappers
  import opened SizeTBits
  import opened KeylessTypes
  import opened CallbackRegistry
  import opened ProviderHelper
  import opened ByteOrder
  import opened Pkcs1
  import KeyManagement

  /** A TLS RSA pre-master secret is 48 bytes (section 7.4.7.1 of RFC 5246). */
  const PMS_LENGTH: nat := 48

  // ------------------------------------------------------------ context

  /** KeylessAcNewctx: a zeroed context, or NULL when the allocation fails. */
  method NewCtx(allocOk: bool) returns (c: AsymcipherCtx?)
    ensures !allocOk ==> c == null
    ensures allocOk ==> c != null && fresh(c) && c.keyData == null && c.ctxType == 0 && c.dynMsg == ZERO_DYN_MSG
  {
    if !allocOk {
      return null;
    }
    c := new AsymcipherCtx();
  }

  /** KeylessAcFreectx: drops the context's reference to its key, if it holds one. */
  method FreeCtx(c: AsymcipherCtx?) returns (released: bool)
    modifies if c == null then {} else {c.keyData}
    ensures c == null || c.keyData == null ==> !released
    ensures c != null && c.keyData != null ==>
      c.keyData.refCnt == old(c.keyData.refCnt) - 1 && (released <==> c.keyData.refCnt <= 0)
    ensures c != null && c.keyData != null ==>
      unchanged(c.keyData`keyType, c.keyData`keyId, c.keyData`n, c.keyData`nLen, c.keyData`e, c.keyData`eLen)
    ensures c != null && c.keyData != null ==>
      unchanged(c.keyData`ecPoint, c.keyData`ecPointLen, c.keyData`groupName, c.keyData`dynMsg)
    ensures c != null && c.keyData != null && old(c.keyData.Valid()) ==> c.keyData.Valid()
  {
    if c == null || c.keyData == null {
      return false;
    }
    released := KeyManagement.KeyFree(c.keyData);
  }

  /**
   * KeylessAcDupctx: a byte copy of the context sharing its key, which
   * gains a reference; NULL for NULL or when the copy cannot be allocated.
   */
  method DupCtx(c: AsymcipherCtx?, allocOk: bool) returns (d: AsymcipherCtx?)
    modifies if c == null then {} else {c.keyData}
    ensures c == null || !allocOk ==> d == null
    ensures c != null && allocOk ==>
      && d != null && fresh(d)
      && d.keyData == c.keyData && d.ctxType == c.ctxType && d.dynMsg == c.dynMsg
    ensures c != null && allocOk && c.keyData != null ==> c.keyData.refCnt == old(c.keyData.refCnt) + 1
    ensures c != null && !allocOk && c.keyData != null ==> c.keyData.refCnt == old(c.keyData.refCnt)
    ensures c != null && c.keyData != null ==>
      unchanged(c.keyData`keyType, c.keyData`keyId, c.keyData`n, c.keyData`nLen, c.keyData`e, c.keyData`eLen)
    ensures c != null && c.keyData != null ==>
      unchanged(c.keyData`ecPoint, c.keyData`ecPointLen, c.keyData`groupName, c.keyData`dynMsg)
    ensures c != null && c.keyData != null && old(c.keyData.Valid()) ==> c.keyData.Valid()
  {
    if c == null || !allocOk {
      return null;
    }
    d := new AsymcipherCtx();
    d.keyData := c.keyData;
    d.ctxType := c.ctxType;
    d.dynMsg := c.dynMsg;
    if d.keyData != null {
      var _ := KeyManagement.KeyUpRef(d.keyData);
    }
  }

  /**
   * KeylessAcDecryptInit: 0 for a NULL context or key. Otherwise the
   * context takes a new reference to the key and records its type, and
   * only then is a key that is not RSA refused with 0.
   */
  method DecryptInit(c: AsymcipherCtx?, key: KeylessKey?) returns (r: int)
    modifies c, key
    ensures c == null || key == null ==> r == 0
    ensures c != null && key == null ==> unchanged(c)
    ensures c == null && key != null ==> unchanged(key)
    ensures c != null && key != null ==>
      && c.keyData == key && c.ctxType == key.keyType
      && key.refCnt == old(key.refCnt) + 1
      && key.keyType == old(key.keyType)
      && (r == 1 <==> key.keyType == KEY_TYPE_RSA)
      && (r == 0 || r == 1)
      && c.dynMsg == old(c.dynMsg)
    ensures key != null ==> unchanged(key`keyType, key`keyId, key`n, key`nLen, key`e, key`eLen)
    ensures key != null ==> unchanged(key`ecPoint, key`ecPointLen, key`groupName, key`dynMsg)
    ensures key != null && old(key.Valid()) ==> key.Valid()
  {
    if c == null || key == null {
      return 0;
    }
    var _ := KeyManagement.KeyUpRef(key);
    c.keyData := key;
    c.ctxType := KeyManagement.KeyGetType(key);
    r := if c.ctxType != KEY_TYPE_RSA then 0 else 1;
  }

  // ------------------------------------------------------------ decrypt

  /**
   * The block size KeylessAcDecrypt works with: the RSA modulus length,
   * or the key's generic size when that is 0.
   */
  function ModLen(k: KeylessKey?): (m: nat)
    reads k
  {
    if KeyGetNLen(k) != 0 then KeyGetNLen(k) else KeyGetSize(k)
  }

  /** The fallback never changes the answer: the block size is the key's size. */
  lemma ModLenIsKeySize(k: KeylessKey?)
    ensures ModLen(k) == KeyGetSize(k)
    ensures k != null && k.keyType == KEY_TYPE_RSA ==> ModLen(k) == k.nLen
    ensures k != null && k.keyType == KEY_TYPE_EC ==> ModLen(k) == EC_SIZE_BOUND
  {
  }

  /**
   * The ciphertext block sent to the remote side: the input right-aligned
   * in a modlen-byte zeroed block, keeping its last modlen bytes when it
   * is longer.
   */
  function Align(input: seq<bv8>, modlen: nat): (block: seq<bv8>)
    ensures |block| == modlen
  {
    if |input| > modlen then input[|input| - modlen..] else Zeros(modlen - |input|) + input
  }

  /**
   * As integers, the aligned block is the ciphertext reduced modulo
   * 256^modlen: a ciphertext that fits is sent unchanged in value.
   */
  lemma AlignKeepsValue(input: seq<bv8>, modlen: nat)
    ensures FromBytesBE(Align(input, modlen)) == FromBytesBE(input) % Pow256(modlen)
    ensures |input| <= modlen ==> FromBytesBE(Align(input, modlen)) == FromBytesBE(input)
  {
    if |input| > modlen {
      LowBytes(input, modlen);
    } else {
      LeadingZeros(modlen - |input|, input);
      LowBytes(Align(input, modlen), modlen);
      assert Align(input, modlen)[|Align(input, modlen)| - modlen..] == Align(input, modlen);
    }
  }

  /** The callback's reply is used: a buffer came back and 0 < written <= modlen. */
  predicate Accepted(reply: RemoteReply, modlen: nat)
  {
    reply.buffer.Some? && 0 < reply.written <= modlen
  }

  /** The reply holds at least the bytes it claims to have written. */
  predicate ReplyReadable(reply: RemoteReply)
  {
    reply.buffer.Some? && reply.written > 0 ==> |reply.buffer.value| >= reply.written
  }

  /**
   * The encoded message handed to the padding check: the accepted reply
   * right-aligned in a zeroed modlen-byte block, or all zeros.
   */
  function Received(reply: RemoteReply, modlen: nat): (em: seq<bv8>)
    requires ReplyReadable(reply)
    ensures |em| == modlen
  {
    if Accepted(reply, modlen) then Align(reply.buffer.value[..reply.written], modlen) else Zeros(modlen)
  }

  /**
   * The pre-master secret the operation yields: the decoded message when
   * the encoded message conforms and carries exactly 48 bytes, else the
   * random bytes already in the output, so a bad padding is not revealed
   * (section 7.4.7.1 of RFC 5246).
   */
  function PreMasterSecret(em: seq<bv8>, random: seq<bv8>): (pms: seq<bv8>)
    requires |random| == PMS_LENGTH
    ensures |pms| == PMS_LENGTH
  {
    if Conforming(em, PMS_LENGTH) then Message(em, PMS_LENGTH) else random
  }

  /**
   * Round trip: when the remote side returns a well-formed encoding of a
   * 48-byte secret, sized to the modulus, that secret is what decrypting
   * yields, whatever the random bytes.
   */
  lemma DecryptRecoversSecret(ps: seq<bv8>, pms: seq<bv8>, random: seq<bv8>, modlen: nat)
    requires |ps| >= 8 && NonZero(ps) && |pms| == PMS_LENGTH && |random| == PMS_LENGTH
    requires |Encode(ps, pms)| == modlen
    ensures var reply := RemoteReply(Some(Encode(ps, pms)), modlen);
      PreMasterSecret(Received(reply, modlen), random) == pms
  {
    var reply := RemoteReply(Some(Encode(ps, pms)), modlen);
    var em := Encode(ps, pms);
    assert em[..reply.written] == em;
    assert Received(reply, modlen) == em by {
      assert Zeros(0) + em == em;
    }
    EncodeConforms(ps, pms);
  }

  /** A refused reply never decodes: the output keeps the random bytes. */
  lemma RefusedReplyKeepsRandom(reply: RemoteReply, modlen: nat, random: seq<bv8>)
    requires ReplyReadable(reply) && !Accepted(reply, modlen) && |random| == PMS_LENGTH
    ensures PreMasterSecret(Received(reply, modlen), random) == random
  {
    var em := Received(reply, modlen);
    if |em| >= 1 {
      assert em[0] == 0;
    }
    if |em| >= 2 {
      assert em[1] == 0;
    }
  }

  /**
   * The decryption callback registered for the key's id; none for a key
   * without an id or before the provider context exists.
   */
  ghost function DecryptCallbackFor(st: ProviderState, k: KeylessKey): Option<RemoteDecryptCb>
    reads st, st.providerCtx, if st.providerCtx == null then [] else st.providerCtx.nodes, k
  {
    if k.keyId.None? || st.providerCtx == null then None
    else DecryptOf(st.providerCtx.Table(), k.keyId.value)
  }

  /** RAND_bytes into the output: its first |random| bytes become the random bytes. */
  method WriteRandom(out: array<bv8>, random: seq<bv8>)
    requires |random| <= out.Length
    modifies out
    ensures out[..|random|] == random
    ensures out[|random|..] == old(out[|random|..])
  {
    forall i | 0 <= i < |random| {
      out[i] := random[i];
    }
  }

  /**
   * The last step of a decryption: the secure buffer for the encoded
   * message is filled from the reply and decoded into out[0..48); on a
   * padding failure out keeps its random bytes.
   */
  method ReceiveAndUnpad(out: array<bv8>, modlen: SizeT, reply: RemoteReply) returns (success: int)
    requires PMS_LENGTH <= out.Length && modlen < OBJECT_LIMIT && ReplyReadable(reply)
    modifies out
    ensures out[..PMS_LENGTH] == PreMasterSecret(Received(reply, modlen), old(out[..PMS_LENGTH]))
    ensures out[PMS_LENGTH..] == old(out[PMS_LENGTH..])
    ensures success == 1 <==> Conforming(Received(reply, modlen), PMS_LENGTH)
  {
    ghost var before := out[..];
    var block := Received(reply, modlen);
    var em := new bv8[modlen](i requires 0 <= i < modlen => block[i]);
    assert em[..modlen] == block;
    ghost var scanned;
    success, scanned := Pkcs1V15Unpad(out, PMS_LENGTH, em, modlen);
    if success != 1 {
      assert out[..] == before;
    }
  }

  /**
   * The part of KeylessAcDecrypt after the checks: random bytes into
   * out[0..48), the two secure buffers, the ciphertext copy (refused when
   * empty unless `emptyCopyOk`), the remote call and the decoding.
   */
  method DecryptBlock(out: array<bv8>, modlen: SizeT, input: seq<bv8>, random: seq<bv8>,
                      allocOk: bool, emptyCopyOk: bool, reply: RemoteReply)
    returns (r: int, ghost sent: Option<seq<bv8>>)
    requires PMS_LENGTH <= out.Length && 0 < modlen < OBJECT_LIMIT
    requires |random| == PMS_LENGTH && ReplyReadable(reply)
    modifies out
    ensures out[PMS_LENGTH..] == old(out[PMS_LENGTH..])
    ensures r == 0 || r == 1
    ensures r == 1 <==> allocOk && (|input| > 0 || emptyCopyOk)
    ensures r == 0 ==> out[..PMS_LENGTH] == random && sent.None?
    ensures r == 1 ==> sent == Some(Align(input, modlen))
    ensures r == 1 ==> out[..PMS_LENGTH] == PreMasterSecret(Received(reply, modlen), random)
  {
    sent := None;
    WriteRandom(out, random);
    if !allocOk {
      return 0, None;
    }
    var copyLen := if |input| > modlen then modlen else |input|;
    if copyLen == 0 && !emptyCopyOk {
      return 0, None;
    }
    sent := Some(Align(input, modlen));
    var _ := ReceiveAndUnpad(out, modlen, reply);
    r := 1;
  }

  /**
   * KeylessAcDecrypt. In order: 0 without a context or key, or when the
   * block size is 0; a size query (no output buffer) answers 48; 0 for an
   * output smaller than 48 bytes or a key with no decryption callback,
   * with the output untouched; 0 when the random generator fails. After
   * that out[0..48) holds random bytes, and the operation fails only when
   * a buffer cannot be allocated or the ciphertext copy is refused;
   * otherwise it reports 48 bytes, which are the decoded secret when the
   * remote reply is accepted and well padded, and the random bytes
   * otherwise. `sent` is the block passed to the callback.
   */
  method Decrypt(st: ProviderState, c: AsymcipherCtx?, out: array?<bv8>, outsize: SizeT, input: seq<bv8>,
                 rand: Option<seq<bv8>>, allocOk: bool, emptyCopyOk: bool, reply: RemoteReply)
    returns (r: int, outlen: Option<SizeT>, ghost sent: Option<seq<bv8>>)
    requires st.providerCtx != null ==> st.providerCtx.Valid()
    requires c != null && c.keyData != null ==> c.keyData.Valid()
    requires out != null ==> outsize <= out.Length
    requires rand.Some? ==> |rand.value| == PMS_LENGTH
    requires ReplyReadable(reply)
    modifies out
    ensures r == 0 || r == 1
    ensures r == 0 ==> outlen.None?
    ensures r == 1 ==> outlen == Some(PMS_LENGTH)
    ensures sent.Some? ==> r == 1 && c != null && c.keyData != null && sent.value == Align(input, ModLen(c.keyData))
    ensures c == null || c.keyData == null || ModLen(c.keyData) == 0 ==> r == 0 && (out != null ==> unchanged(out))
    ensures c != null && c.keyData != null && ModLen(c.keyData) != 0 ==>
      var modlen := ModLen(c.keyData);
      && (out == null ==> r == 1 && sent.None?)
      && (out != null && (outsize < PMS_LENGTH || DecryptCallbackFor(st, c.keyData).None? || rand.None?) ==>
            r == 0 && unchanged(out))
      && (out != null && outsize >= PMS_LENGTH && DecryptCallbackFor(st, c.keyData).Some? && rand.Some? ==>
            && out[PMS_LENGTH..] == old(out[PMS_LENGTH..])
            && (r == 1 <==> allocOk && (|input| > 0 || emptyCopyOk))
            && (r == 0 ==> out[..PMS_LENGTH] == rand.value)
            && (r == 1 ==> sent.Some? && out[..PMS_LENGTH] == PreMasterSecret(Received(reply, modlen), rand.value)))
  {
    sent := None;
    if c == null || c.keyData == null {
      return 0, None, None;
    }
    var key := c.keyData;
    var modlen := KeyGetNLen(key);
    if modlen == 0 {
      modlen := KeyGetSize(key);
    }
    if modlen == 0 {
      return 0, None, None;
    }
    if out == null {
      return 1, Some(PMS_LENGTH), None;
    }
    if outsize < PMS_LENGTH {
      return 0, None, None;
    }
    var dcb := LookupDecryptCb(st, key.keyId);
    if dcb.None? {
      return 0, None, None;
    }
    if rand.None? {
      return 0, None, None;
    }
    r, sent := DecryptBlock(out, modlen, input, rand.value, allocOk, emptyCopyOk, reply);
    outlen := if r == 1 then Some(PMS_LENGTH) else None;
  }
}
