/**
 * Key management for keyless keys (src/stdx/net/tls/native/provider_keymgt.c):
 * the reference-counted key object, importing public material from
 * OpenSSL parameters, the `has` and `match` queries, the derived
 * parameters a key reports and the operation names it advertises.
 *
 * An OSSL_PARAM array is a sequence of `Param`s; a BIGNUM is the natural
 * number it holds. Allocation outcomes are parameters.
 */
module KeyManagement {
  import opened Wrappers
  import opened SizeTBits
  import opened KeylessTypes
  import opened CallbackRegistry
  import opened ProviderHelper
  import opened ByteOrder

  /** OSSL_KEYMGMT_SELECT_* bits. */
  const SELECT_PRIVATE_KEY: bv32 := 0x01
  const SELECT_PUBLIC_KEY: bv32 := 0x02

  /** sizeof(KeylessKey*) on the 64-bit targets. */
  const KEY_REFERENCE_SIZE: nat := 8

  /** Parameter names (OpenSSL core names, and the provider's own key id). */
  const PARAM_RSA_N: string := "n"
  const PARAM_RSA_E: string := "e"
  const PARAM_PUB_KEY: string := "pub"
  const PARAM_GROUP_NAME: string := "group"
  const PARAM_MAX_SIZE: string := "max-size"
  const PARAM_BITS: string := "bits"
  const PARAM_SECURITY_BITS: string := "security-bits"
  const PARAM_DEFAULT_DIGEST: string := "default-digest"
  const PARAM_KEYLESS_ID: string := "KEYLESS_ID"

  // ------------------------------------------------------------ parameters

  datatype ParamType = UnsignedInteger | SignedInteger | OctetString | Utf8String

  /** One OSSL_PARAM: its key, its data type and its data bytes (data_size of them). */
  datatype Param = Param(key: string, dataType: ParamType, data: seq<bv8>)

  /** Every parameter's data fits in a C object. */
  predicate ParamsFit(params: seq<Param>)
  {
    forall i :: 0 <= i < |params| ==> |params[i].data| < OBJECT_LIMIT
  }

  /** OSSL_PARAM_locate_const: a parameter with the key, or NULL (LocateIsFirst: the first one). */
  function Locate(params: seq<Param>, key: string): (r: Option<Param>)
    ensures r.None? <==> forall i :: 0 <= i < |params| ==> params[i].key != key
    ensures r.Some? ==> exists i :: 0 <= i < |params| && params[i] == r.value && r.value.key == key
  {
    if params == [] then None
    else if params[0].key == key then Some(params[0])
    else
      var r := Locate(params[1..], key);
      assert forall i :: 1 <= i < |params| ==> params[i] == params[1..][i - 1];
      r
  }

  /** Index i holds the first parameter with the key. */
  predicate FirstWith(params: seq<Param>, key: string, i: int)
  {
    0 <= i < |params| && params[i].key == key && forall j :: 0 <= j < i ==> params[j].key != key
  }

  /** The located parameter is the first one with the key: later duplicates are ignored. */
  lemma {:induction false} LocateIsFirst(params: seq<Param>, key: string)
    requires Locate(params, key).Some?
    ensures exists i :: FirstWith(params, key, i) && params[i] == Locate(params, key).value
  {
    if params[0].key == key {
      assert FirstWith(params, key, 0);
    } else {
      LocateIsFirst(params[1..], key);
      var i :| FirstWith(params[1..], key, i) && params[1..][i] == Locate(params[1..], key).value;
      assert FirstWith(params, key, i + 1);
    }
  }

  /** A located parameter's data fits when all of them do. */
  lemma LocatedFits(params: seq<Param>, key: string)
    requires ParamsFit(params) && Locate(params, key).Some?
    ensures |Locate(params, key).value.data| < OBJECT_LIMIT
  {
  }

  /** The integer a parameter holds: host-order (little-endian) for an unsigned integer, big-endian octets otherwise. */
  function IntValue(p: Param): nat
  {
    if p.dataType == UnsignedInteger then FromBytesLE(p.data) else FromBytesBE(p.data)
  }

  /** The bytes an RSA import stores for a parameter: minimal big-endian via a BIGNUM, or the octets verbatim. */
  function ImportedBytes(p: Param): seq<bv8>
  {
    if p.dataType == UnsignedInteger then ToBytesBE(FromBytesLE(p.data)) else p.data
  }

  /** Either way, the stored bytes denote the parameter's integer. */
  lemma ImportedBytesDenote(p: Param)
    ensures FromBytesBE(ImportedBytes(p)) == IntValue(p)
    ensures p.dataType == UnsignedInteger ==> |ImportedBytes(p)| <= |p.data|
  {
    if p.dataType == UnsignedInteger {
      FromToBytesBE(FromBytesLE(p.data));
      NumBytesOfLE(p.data);
    }
  }

  /** A C string's bytes as characters. */
  function Chars(b: seq<bv8>): (s: string)
    ensures |s| == |b|
  {
    seq(|b|, i requires 0 <= i < |b| => b[i] as int as char)
  }

  // ------------------------------------------------------------ the key object

  /**
   * KeylessKeyNew: NULL when the allocation fails; else a zeroed key with
   * one reference, carrying a copy of this thread's diagnostic record
   * ("all found" when none was set).
   */
  method KeyNew(st: ProviderState, allocOk: bool) returns (k: KeylessKey?)
    ensures !allocOk ==> k == null
    ensures allocOk ==> k != null && fresh(k) && k.Valid()
    ensures k != null ==>
      && k.keyType == KEY_TYPE_NONE && k.refCnt == 1
      && k.nLen == 0 && k.eLen == 0 && k.ecPointLen == 0
      && k.keyId.None? && k.n.None? && k.e.None? && k.ecPoint.None? && k.groupName.None?
      && k.dynMsg == CopyDynMsg(Some(ZERO_DYN_MSG), GetThreadDynMsg(st)).value
  {
    if !allocOk {
      return null;
    }
    var msg := CopyDynMsg(Some(ZERO_DYN_MSG), GetThreadDynMsg(st)).value;
    k := new KeylessKey(msg);
  }

  /** KeylessKeyDup: the same key with one more reference; NULL stays NULL. */
  method KeyDup(k: KeylessKey?) returns (r: KeylessKey?)
    modifies k
    ensures r == k
    ensures k != null ==> k.refCnt == old(k.refCnt) + 1
    ensures k != null ==> unchanged(k`keyType, k`keyId, k`n, k`nLen, k`e, k`eLen)
    ensures k != null ==> unchanged(k`ecPoint, k`ecPointLen, k`groupName, k`dynMsg)
    ensures k != null && old(k.Valid()) ==> k.Valid()
  {
    if k != null {
      k.refCnt := k.refCnt + 1;
    }
    return k;
  }

  /** KeylessKeyUpRef: 0 for NULL, else 1 with one more reference. */
  method KeyUpRef(k: KeylessKey?) returns (r: int)
    modifies k
    ensures r == (if k == null then 0 else 1)
    ensures k != null ==> k.refCnt == old(k.refCnt) + 1
    ensures k != null ==> unchanged(k`keyType, k`keyId, k`n, k`nLen, k`e, k`eLen)
    ensures k != null ==> unchanged(k`ecPoint, k`ecPointLen, k`groupName, k`dynMsg)
    ensures k != null && old(k.Valid()) ==> k.Valid()
  {
    if k == null {
      return 0;
    }
    k.refCnt := k.refCnt + 1;
    return 1;
  }

  /**
   * KeylessKeyFree (also reached through KeylessKeyFreeExtern and the
   * dispatch table's free): drops one reference; the key and its buffers
   * are released exactly when the count falls to 0 or below.
   */
  method KeyFree(k: KeylessKey?) returns (released: bool)
    modifies k
    ensures k == null ==> !released
    ensures k != null ==> k.refCnt == old(k.refCnt) - 1 && (released <==> k.refCnt <= 0)
    ensures k != null ==> unchanged(k`keyType, k`keyId, k`n, k`nLen, k`e, k`eLen)
    ensures k != null ==> unchanged(k`ecPoint, k`ecPointLen, k`groupName, k`dynMsg)
    ensures k != null && old(k.Valid()) ==> k.Valid()
  {
    if k == null {
      return false;
    }
    k.refCnt := k.refCnt - 1;
    released := k.refCnt <= 0;
  }

  /** KeylessLoad: a new reference to the key a reference names, or NULL for a reference of the wrong size. */
  method Load(ref: KeylessKey?, referenceSize: nat) returns (r: KeylessKey?)
    modifies ref
    ensures referenceSize != KEY_REFERENCE_SIZE ==> r == null && (ref != null ==> ref.refCnt == old(ref.refCnt))
    ensures referenceSize == KEY_REFERENCE_SIZE ==> r == ref && (ref != null ==> ref.refCnt == old(ref.refCnt) + 1)
    ensures ref != null ==> unchanged(ref`keyType, ref`keyId, ref`n, ref`nLen, ref`e, ref`eLen)
    ensures ref != null ==> unchanged(ref`ecPoint, ref`ecPointLen, ref`groupName, ref`dynMsg)
    ensures ref != null && old(ref.Valid()) ==> ref.Valid()
  {
    if referenceSize != KEY_REFERENCE_SIZE {
      return null;
    }
    r := KeyDup(ref);
  }

  /** KeylessKeyGetType: the type tag, 0 for NULL. */
  function KeyGetType(k: KeylessKey?): (t: int)
    reads k
    ensures k == null ==> t == 0
    ensures k != null ==> t == k.keyType
  {
    if k == null then 0 else k.keyType
  }

  /** KeylessKeyGetGroup: the group name of an EC key, NULL for any other key. */
  function KeyGetGroup(k: KeylessKey?): (g: Option<string>)
    reads k
    ensures g.Some? ==> k != null && k.keyType == KEY_TYPE_EC && g == k.groupName
    ensures k != null && k.keyType == KEY_TYPE_EC ==> g == k.groupName
  {
    if k != null && k.keyType == KEY_TYPE_EC then k.groupName else None
  }

  /** KeylessKeyGetId: the key id, NULL for NULL. */
  function KeyGetId(k: KeylessKey?): (id: Option<string>)
    reads k
    ensures k == null ==> id.None?
    ensures k != null ==> id == k.keyId
  {
    if k == null then None else k.keyId
  }

  // ------------------------------------------------------------ import

  /** The length of the C string held in the first n bytes of s: up to the first NUL, at most n. */
  function CStrLen(s: seq<bv8>, n: nat): (len: nat)
    requires n <= |s|
    ensures len <= n
    ensures forall i :: 0 <= i < len ==> s[i] != 0
    ensures len == n || s[len] == 0
    decreases n
  {
    if n == 0 || s[0] == 0 then 0
    else
      var rest := CStrLen(s[1..], n - 1);
      assert forall i :: 1 <= i < 1 + rest ==> s[i] == s[1..][i - 1];
      1 + rest
  }

  /** Those three properties pin the length down: any length that has them is CStrLen. */
  lemma CStrLenUnique(s: seq<bv8>, n: nat, len: nat)
    requires n <= |s| && len <= n
    requires forall i :: 0 <= i < len ==> s[i] != 0
    requires len == n || s[len] == 0
    ensures len == CStrLen(s, n)
  {
  }

  /**
   * What KeylessStrndup(d, |d|) yields: the C string in d, or NULL when the
   * allocation fails or an empty copy is refused.
   */
  function CopiedString(d: seq<bv8>, allocOk: bool, emptyCopyOk: bool): Option<string>
  {
    var len := CStrLen(d, |d|);
    if allocOk && (len > 0 || emptyCopyOk) then Some(Chars(d[..len])) else None
  }

  /** A NUL-free, non-empty buffer is copied whole once the allocation
   *  succeeds; one that starts with NUL is copied only when an empty copy
   *  is allowed. */
  lemma CopiedStringWhole(d: seq<bv8>, allocOk: bool, emptyCopyOk: bool)
    ensures (forall i :: 0 <= i < |d| ==> d[i] != 0) && |d| > 0 ==>
      CopiedString(d, allocOk, emptyCopyOk) == (if allocOk then Some(Chars(d)) else None)
    ensures |d| > 0 && d[0] == 0 ==>
      CopiedString(d, allocOk, emptyCopyOk) == (if allocOk && emptyCopyOk then Some([]) else None)
  {
    if (forall i :: 0 <= i < |d| ==> d[i] != 0) && |d| > 0 {
      CStrLenUnique(d, |d|, |d|);
      assert d[..|d|] == d;
    }
    if |d| > 0 && d[0] == 0 {
      CStrLenUnique(d, |d|, 0);
    }
  }

  /**
   * KeylessStrndup: a copy of s up to the first NUL or n bytes, whichever
   * comes first; NULL when the allocation fails. Whether an empty copy
   * succeeds is left to `emptyCopyOk`.
   */
  method Strndup(s: seq<bv8>, n: nat, allocOk: bool, emptyCopyOk: bool) returns (out: Option<string>)
    requires n <= |s|
    ensures out.Some? ==>
      && |out.value| <= n && |out.value| <= |s|
      && (forall i :: 0 <= i < |out.value| ==> s[i] != 0)
      && (|out.value| == n || s[|out.value|] == 0)
      && out.value == Chars(s[..|out.value|])
    ensures out.Some? ==> allocOk
    ensures allocOk && (n > 0 && s[0] != 0) ==> out.Some?
    ensures n == |s| ==> out == CopiedString(s, allocOk, emptyCopyOk)
  {
    var len: nat := 0;
    while len < n && s[len] != 0
      invariant len <= n && len <= |s|
      invariant forall i :: 0 <= i < len ==> s[i] != 0
      decreases n - len
    {
      len := len + 1;
    }
    CStrLenUnique(s, n, len);
    if !allocOk {
      return None;
    }
    if len == 0 && !emptyCopyOk {
      return None;
    }
    out := Some(Chars(s[..len]));
  }

  /** Both parameters convert to BIGNUMs (OSSL_PARAM_get_BN takes unsigned integers). */
  predicate BignumPair(pN: Param, pE: Param)
  {
    pN.dataType == UnsignedInteger && pE.dataType == UnsignedInteger
  }

  /** Both parameters are octet strings (OSSL_PARAM_get_octet_string_ptr). */
  predicate OctetPair(pN: Param, pE: Param)
  {
    pN.dataType == OctetString && pE.dataType == OctetString
  }

  /** N and E are both present, and both integers or both octet strings. */
  predicate RsaImportable(params: seq<Param>)
  {
    && Locate(params, PARAM_RSA_N).Some? && Locate(params, PARAM_RSA_E).Some?
    && (BignumPair(Locate(params, PARAM_RSA_N).value, Locate(params, PARAM_RSA_E).value)
        || OctetPair(Locate(params, PARAM_RSA_N).value, Locate(params, PARAM_RSA_E).value))
  }

  /**
   * KeylessImportRsa: 0 without N or E. With both as integers the key
   * becomes RSA holding their minimal big-endian bytes; with both as
   * octet strings it holds them verbatim. The type is set before the
   * buffers are allocated, so a failed allocation leaves an RSA key with
   * no N and no E. Any other mix of types is refused untouched.
   */
  method ImportRsa(k: KeylessKey, params: seq<Param>, allocN: bool, allocE: bool) returns (r: int)
    requires k.Valid() && ParamsFit(params)
    modifies k
    ensures k.Valid()
    ensures unchanged(k`keyId, k`ecPoint, k`ecPointLen, k`groupName, k`dynMsg, k`refCnt)
    ensures r == 0 || r == 1
    ensures r == 1 <==> RsaImportable(params) && allocN && allocE
    ensures r == 1 ==>
      && k.keyType == KEY_TYPE_RSA
      && k.n == Some(ImportedBytes(Locate(params, PARAM_RSA_N).value))
      && k.e == Some(ImportedBytes(Locate(params, PARAM_RSA_E).value))
    ensures r == 0 && k.keyType != old(k.keyType) ==> k.keyType == KEY_TYPE_RSA && k.n.None? && k.e.None?
    ensures RsaImportable(params) && !(allocN && allocE) ==> k.keyType == KEY_TYPE_RSA && k.n.None? && k.e.None?
    ensures !RsaImportable(params) ==> r == 0 && unchanged(k)
    ensures RsaImportable(params) && BignumPair(Locate(params, PARAM_RSA_N).value, Locate(params, PARAM_RSA_E).value) ==>
      && k.nLen == |ImportedBytes(Locate(params, PARAM_RSA_N).value)|
      && k.eLen == |ImportedBytes(Locate(params, PARAM_RSA_E).value)|
    ensures RsaImportable(params) && !(allocN && allocE)
      && OctetPair(Locate(params, PARAM_RSA_N).value, Locate(params, PARAM_RSA_E).value)
      ==> k.nLen == old(k.nLen) && k.eLen == old(k.eLen)
  {
    var pN := Locate(params, PARAM_RSA_N);
    var pE := Locate(params, PARAM_RSA_E);
    if pN.None? || pE.None? {
      return 0;
    }
    LocatedFits(params, PARAM_RSA_N);
    LocatedFits(params, PARAM_RSA_E);
    if BignumPair(pN.value, pE.value) {
      r := StoreBignums(k, pN.value, pE.value, allocN && allocE);
      return;
    }
    if !OctetPair(pN.value, pE.value) {
      return 0;
    }
    r := StoreOctets(k, pN.value, pE.value, allocN && allocE);
  }

  /**
   * The BIGNUM branch of KeylessImportRsa: the key becomes RSA with the
   * minimal byte lengths recorded, then holds the minimal big-endian bytes
   * of N and E, or no buffers when an allocation fails.
   */
  method StoreBignums(k: KeylessKey, pN: Param, pE: Param, allocOk: bool) returns (r: int)
    requires k.Valid() && BignumPair(pN, pE)
    requires |pN.data| < OBJECT_LIMIT && |pE.data| < OBJECT_LIMIT
    modifies k
    ensures k.Valid()
    ensures unchanged(k`keyId, k`ecPoint, k`ecPointLen, k`groupName, k`dynMsg, k`refCnt)
    ensures k.keyType == KEY_TYPE_RSA
    ensures r == if allocOk then 1 else 0
    ensures allocOk ==> k.n == Some(ImportedBytes(pN)) && k.e == Some(ImportedBytes(pE))
    ensures !allocOk ==> k.n.None? && k.e.None?
    ensures k.nLen == |ImportedBytes(pN)| && k.eLen == |ImportedBytes(pE)|
  {
    ImportedBytesDenote(pN);
    ImportedBytesDenote(pE);
    var bnN := FromBytesLE(pN.data);
    var bnE := FromBytesLE(pE.data);
    k.keyType := KEY_TYPE_RSA;
    k.nLen := NumBytes(bnN);
    k.eLen := NumBytes(bnE);
    if !allocOk {
      k.n := None;
      k.e := None;
      return 0;
    }
    k.n := Some(ToBytesBE(bnN));
    k.e := Some(ToBytesBE(bnE));
    return 1;
  }

  /**
   * The octet-string branch of KeylessImportRsa: the key becomes RSA, then
   * holds copies of the N and E octets with their lengths, or no buffers
   * when an allocation fails.
   */
  method StoreOctets(k: KeylessKey, pN: Param, pE: Param, allocOk: bool) returns (r: int)
    requires k.Valid() && OctetPair(pN, pE)
    requires |pN.data| < OBJECT_LIMIT && |pE.data| < OBJECT_LIMIT
    modifies k
    ensures k.Valid()
    ensures unchanged(k`keyId, k`ecPoint, k`ecPointLen, k`groupName, k`dynMsg, k`refCnt)
    ensures k.keyType == KEY_TYPE_RSA
    ensures r == if allocOk then 1 else 0
    ensures allocOk ==> k.n == Some(ImportedBytes(pN)) && k.e == Some(ImportedBytes(pE))
    ensures !allocOk ==> k.n.None? && k.e.None?
    ensures !allocOk ==> k.nLen == old(k.nLen) && k.eLen == old(k.eLen)
  {
    k.keyType := KEY_TYPE_RSA;
    if !allocOk {
      k.n := None;
      k.e := None;
      return 0;
    }
    k.n := Some(pN.data);
    k.nLen := |pN.data|;
    k.e := Some(pE.data);
    k.eLen := |pE.data|;
    return 1;
  }

  /**
   * KeylessImportEc: 0 without a public point. Otherwise the key becomes
   * EC and its point length is recorded before the point buffer is
   * allocated; 0 when that fails. A group name, when given, is copied
   * like a C string of at most its data size; a failed copy leaves the
   * group name NULL and the import still succeeds.
   */
  method ImportEc(k: KeylessKey, params: seq<Param>, allocPoint: bool, allocGroup: bool, emptyCopyOk: bool)
    returns (r: int)
    requires k.Valid() && ParamsFit(params)
    modifies k
    ensures k.Valid()
    ensures unchanged(k`keyId, k`n, k`nLen, k`e, k`eLen, k`dynMsg, k`refCnt)
    ensures r == 0 || r == 1
    ensures r == 1 <==> Locate(params, PARAM_PUB_KEY).Some? && allocPoint
    ensures Locate(params, PARAM_PUB_KEY).None? ==> unchanged(k)
    ensures Locate(params, PARAM_PUB_KEY).Some? ==>
      && k.keyType == KEY_TYPE_EC
      && k.ecPointLen == |Locate(params, PARAM_PUB_KEY).value.data|
      && k.ecPoint == (if allocPoint then Some(Locate(params, PARAM_PUB_KEY).value.data) else None)
    ensures r == 1 && Locate(params, PARAM_GROUP_NAME).None? ==> k.groupName == old(k.groupName)
    ensures r == 1 && Locate(params, PARAM_GROUP_NAME).Some? ==>
      k.groupName == CopiedString(Locate(params, PARAM_GROUP_NAME).value.data, allocGroup, emptyCopyOk)
    ensures r == 0 ==> k.groupName == old(k.groupName)
  {
    var pPoint := Locate(params, PARAM_PUB_KEY);
    var pGroup := Locate(params, PARAM_GROUP_NAME);
    if pPoint.None? {
      return 0;
    }
    LocatedFits(params, PARAM_PUB_KEY);
    k.keyType := KEY_TYPE_EC;
    k.ecPointLen := |pPoint.value.data|;
    if !allocPoint {
      k.ecPoint := None;
      return 0;
    }
    k.ecPoint := Some(pPoint.value.data);
    if pGroup.Some? {
      k.groupName := Strndup(pGroup.value.data, |pGroup.value.data|, allocGroup, emptyCopyOk);
    }
    return 1;
  }

  /** The key-id step succeeds: there is no id, or its copy is made. */
  predicate IdAccepted(params: seq<Param>, allocId: bool, emptyCopyOk: bool)
  {
    Locate(params, PARAM_KEYLESS_ID).None?
    || CopiedString(Locate(params, PARAM_KEYLESS_ID).value.data, allocId, emptyCopyOk).Some?
  }

  /** KeylessImportKeyId: 1 without a key id; else the key id is copied, and 0 reports a failed copy. */
  method ImportKeyId(k: KeylessKey, params: seq<Param>, allocId: bool, emptyCopyOk: bool) returns (r: int)
    requires k.Valid()
    modifies k`keyId
    ensures k.Valid()
    ensures r == 0 || r == 1
    ensures Locate(params, PARAM_KEYLESS_ID).None? ==> r == 1 && k.keyId == old(k.keyId)
    ensures Locate(params, PARAM_KEYLESS_ID).Some? ==> (r == 1 <==> k.keyId.Some?)
    ensures Locate(params, PARAM_KEYLESS_ID).Some? ==>
      k.keyId == CopiedString(Locate(params, PARAM_KEYLESS_ID).value.data, allocId, emptyCopyOk)
    ensures r == 1 <==> IdAccepted(params, allocId, emptyCopyOk)
  {
    var pId := Locate(params, PARAM_KEYLESS_ID);
    if pId.None? {
      return 1;
    }
    k.keyId := Strndup(pId.value.data, |pId.value.data|, allocId, emptyCopyOk);
    r := if k.keyId.Some? then 1 else 0;
  }

  /** The allocation outcomes an import meets. */
  datatype ImportAllocs = ImportAllocs(n: bool, e: bool, point: bool, group: bool, keyId: bool, emptyCopy: bool)

  /**
   * KeylessImport: 0 for NULL; 1 with nothing changed when the public-key
   * bit is not selected. Otherwise RSA when N is present, else EC when a
   * public point is present, else 0; then the key id, where a missing id
   * is accepted and a failed copy gives 0. A successful public import
   * leaves a key that has its public part, holding the imported N and E
   * or point (with the copied group name) and the copied id.
   */
  method Import(k: KeylessKey?, selection: bv32, params: seq<Param>, allocs: ImportAllocs) returns (r: int)
    requires k != null ==> k.Valid()
    requires ParamsFit(params)
    modifies k
    ensures k != null ==> k.Valid()
    ensures k == null ==> r == 0
    ensures k != null && (selection & SELECT_PUBLIC_KEY) == 0 ==> r == 1 && unchanged(k)
    ensures k != null && (selection & SELECT_PUBLIC_KEY) != 0 ==> PublicImportFrame(k, params, allocs)
    ensures r == 1 && (selection & SELECT_PUBLIC_KEY) != 0 ==>
      && Has(k, SELECT_PUBLIC_KEY) == 1
      && k.keyType == (if Locate(params, PARAM_RSA_N).Some? then KEY_TYPE_RSA else KEY_TYPE_EC)
    ensures k != null && (selection & SELECT_PUBLIC_KEY) != 0
      && Locate(params, PARAM_RSA_N).None? && Locate(params, PARAM_PUB_KEY).None?
      ==> r == 0 && unchanged(k)
    ensures k != null && (selection & SELECT_PUBLIC_KEY) != 0 ==>
      (r == 1 <==> PublicImportSucceeds(params, allocs))
    ensures r == 1 && (selection & SELECT_PUBLIC_KEY) != 0 && Locate(params, PARAM_RSA_N).Some? ==>
      && k.n == Some(ImportedBytes(Locate(params, PARAM_RSA_N).value))
      && k.e == Some(ImportedBytes(Locate(params, PARAM_RSA_E).value))
    ensures r == 1 && (selection & SELECT_PUBLIC_KEY) != 0 && Locate(params, PARAM_RSA_N).None? ==>
      k.ecPoint == Some(Locate(params, PARAM_PUB_KEY).value.data)
    ensures r == 1 && (selection & SELECT_PUBLIC_KEY) != 0 && Locate(params, PARAM_KEYLESS_ID).Some? ==>
      k.keyId == CopiedString(Locate(params, PARAM_KEYLESS_ID).value.data, allocs.keyId, allocs.emptyCopy)
    ensures r == 1 && (selection & SELECT_PUBLIC_KEY) != 0 && Locate(params, PARAM_RSA_N).None?
      && Locate(params, PARAM_GROUP_NAME).Some?
      ==> k.groupName == CopiedString(Locate(params, PARAM_GROUP_NAME).value.data, allocs.group, allocs.emptyCopy)
  {
    if k == null {
      return 0;
    }
    if (selection & SELECT_PUBLIC_KEY) != 0 {
      r := ImportPublic(k, params, allocs);
      return;
    }
    return 1;
  }

  /** Whether the public part of an import goes through: the RSA pair or the
   *  EC point is taken and stored, and the key id, if any, is copied. */
  predicate PublicImportSucceeds(params: seq<Param>, allocs: ImportAllocs)
  {
    KeyPartImported(params, allocs) && IdAccepted(params, allocs.keyId, allocs.emptyCopy)
  }

  /** Whether the RSA import (N given) or the EC import (no N) succeeds. */
  predicate KeyPartImported(params: seq<Param>, allocs: ImportAllocs)
  {
    if Locate(params, PARAM_RSA_N).Some? then RsaImportable(params) && allocs.n && allocs.e
    else Locate(params, PARAM_PUB_KEY).Some? && allocs.point
  }

  /**
   * What the public-key branch does to the key, whatever its result: the
   * reference count and diagnostic record stay; the RSA path leaves the EC
   * fields alone and the EC path the RSA fields; a refused pair or a missing
   * point changes nothing; a sub-import that fails leaves the id as it was,
   * with the partial classification that sub-import makes; one that succeeds
   * goes on to copy the id.
   */
  twostate predicate PublicImportFrame(k: KeylessKey, params: seq<Param>, allocs: ImportAllocs)
    reads k
  {
    && k.refCnt == old(k.refCnt) && k.dynMsg == old(k.dynMsg)
    && (Locate(params, PARAM_KEYLESS_ID).None? ==> k.keyId == old(k.keyId))
    && (Locate(params, PARAM_RSA_N).Some? ==>
      && k.ecPoint == old(k.ecPoint) && k.ecPointLen == old(k.ecPointLen) && k.groupName == old(k.groupName)
      && (!RsaImportable(params) ==> unchanged(k))
      && (RsaImportable(params) ==>
        var pN, pE := Locate(params, PARAM_RSA_N).value, Locate(params, PARAM_RSA_E).value;
        && k.keyType == KEY_TYPE_RSA
        && (BignumPair(pN, pE) ==> k.nLen == |ImportedBytes(pN)| && k.eLen == |ImportedBytes(pE)|)
        && (OctetPair(pN, pE) && !(allocs.n && allocs.e) ==> k.nLen == old(k.nLen) && k.eLen == old(k.eLen))
        && (!(allocs.n && allocs.e) ==> k.n.None? && k.e.None? && k.keyId == old(k.keyId))
        && (allocs.n && allocs.e ==> k.n == Some(ImportedBytes(pN)) && k.e == Some(ImportedBytes(pE)))))
    && (Locate(params, PARAM_RSA_N).None? ==>
      && k.n == old(k.n) && k.nLen == old(k.nLen) && k.e == old(k.e) && k.eLen == old(k.eLen)
      && (Locate(params, PARAM_PUB_KEY).None? ==> unchanged(k))
      && (Locate(params, PARAM_PUB_KEY).Some? ==>
        var point := Locate(params, PARAM_PUB_KEY).value.data;
        && k.keyType == KEY_TYPE_EC && k.ecPointLen == |point|
        && k.ecPoint == (if allocs.point then Some(point) else None)
        && (!allocs.point ==> k.keyId == old(k.keyId) && k.groupName == old(k.groupName))
        && (allocs.point && Locate(params, PARAM_GROUP_NAME).None? ==> k.groupName == old(k.groupName))))
    && (KeyPartImported(params, allocs) && Locate(params, PARAM_KEYLESS_ID).Some? ==>
      k.keyId == CopiedString(Locate(params, PARAM_KEYLESS_ID).value.data, allocs.keyId, allocs.emptyCopy))
  }

  /** The public-key branch of KeylessImport: RSA when N is given, EC when
   *  only the point is, refused otherwise; then the key id. */
  method ImportPublic(k: KeylessKey, params: seq<Param>, allocs: ImportAllocs) returns (r: int)
    requires k.Valid() && ParamsFit(params)
    modifies k
    ensures k.Valid()
    ensures r == 1 ==>
      && Has(k, SELECT_PUBLIC_KEY) == 1
      && k.keyType == (if Locate(params, PARAM_RSA_N).Some? then KEY_TYPE_RSA else KEY_TYPE_EC)
    ensures Locate(params, PARAM_RSA_N).None? && Locate(params, PARAM_PUB_KEY).None? ==> r == 0 && unchanged(k)
    ensures r == 1 <==> PublicImportSucceeds(params, allocs)
    ensures r == 1 && Locate(params, PARAM_RSA_N).Some? ==>
      && k.n == Some(ImportedBytes(Locate(params, PARAM_RSA_N).value))
      && k.e == Some(ImportedBytes(Locate(params, PARAM_RSA_E).value))
    ensures r == 1 && Locate(params, PARAM_RSA_N).None? ==>
      k.ecPoint == Some(Locate(params, PARAM_PUB_KEY).value.data)
    ensures r == 1 && Locate(params, PARAM_KEYLESS_ID).Some? ==>
      k.keyId == CopiedString(Locate(params, PARAM_KEYLESS_ID).value.data, allocs.keyId, allocs.emptyCopy)
    ensures r == 1 && Locate(params, PARAM_RSA_N).None? && Locate(params, PARAM_GROUP_NAME).Some? ==>
      k.groupName == CopiedString(Locate(params, PARAM_GROUP_NAME).value.data, allocs.group, allocs.emptyCopy)
    ensures PublicImportFrame(k, params, allocs)
  {
    if Locate(params, PARAM_RSA_N).Some? {
      var ok := ImportRsa(k, params, allocs.n, allocs.e);
      if ok == 0 {
        return 0;
      }
    } else if Locate(params, PARAM_PUB_KEY).Some? {
      var ok := ImportEc(k, params, allocs.point, allocs.group, allocs.emptyCopy);
      if ok == 0 {
        return 0;
      }
    } else {
      return 0;
    }
    r := ImportKeyId(k, params, allocs.keyId, allocs.emptyCopy);
  }


  // ------------------------------------------------------------ has / match

  /** The key holds its public part: N and E for RSA, the point for EC. */
  predicate HasPublic(k: KeylessKey)
    reads k
  {
    (k.keyType == KEY_TYPE_RSA && k.n.Some? && k.e.Some?) || (k.keyType == KEY_TYPE_EC && k.ecPoint.Some?)
  }

  /**
   * KeylessHas: 0 for NULL; otherwise 1 unless the public part is selected
   * and missing. The private part is never missing: it lives remotely.
   */
  function Has(k: KeylessKey?, selection: bv32): (r: int)
    reads k
    ensures r == 1 <==> k != null && ((selection & SELECT_PUBLIC_KEY) != 0 ==> HasPublic(k))
    ensures r == 0 || r == 1
  {
    if k == null then 0
    else if (selection & SELECT_PUBLIC_KEY) != 0 && !HasPublic(k) then 0
    else 1
  }

  /** Selecting the private part changes nothing; an empty selection holds for any key. */
  lemma HasIgnoresPrivate(k: KeylessKey?, selection: bv32)
    ensures Has(k, selection | SELECT_PRIVATE_KEY) == Has(k, selection)
    ensures k != null ==> Has(k, 0) == 1 && Has(k, SELECT_PRIVATE_KEY) == 1
  {
    assert ((selection | SELECT_PRIVATE_KEY) & SELECT_PUBLIC_KEY) == (selection & SELECT_PUBLIC_KEY);
  }

  /** A buffer the source may read: present, or empty. */
  predicate Readable(buf: Option<seq<bv8>>, len: nat)
  {
    buf.Some? || len == 0
  }

  /** The bytes behind a buffer; none behind NULL. */
  function BytesOf(buf: Option<seq<bv8>>): seq<bv8>
  {
    if buf.Some? then buf.value else []
  }

  /** The buffers KeylessMatch reads for this key's type are readable. */
  predicate MatchReadable(k: KeylessKey)
    reads k
  {
    && (k.keyType == KEY_TYPE_RSA ==> Readable(k.n, k.nLen) && Readable(k.e, k.eLen))
    && (k.keyType == KEY_TYPE_EC ==> Readable(k.ecPoint, k.ecPointLen))
  }

  /**
   * The public parts are equal: same type; for RSA the same modulus and
   * exponent as integers (and the four BIGNUM conversions succeed); for
   * EC the same point bytes and the same group name or none on both.
   */
  predicate SamePublic(a: KeylessKey, b: KeylessKey, bnOk: bool)
    reads a, b
  {
    && a.keyType == b.keyType
    && (a.keyType == KEY_TYPE_RSA ==>
          && bnOk
          && FromBytesBE(BytesOf(a.n)) == FromBytesBE(BytesOf(b.n))
          && FromBytesBE(BytesOf(a.e)) == FromBytesBE(BytesOf(b.e)))
    && (a.keyType == KEY_TYPE_EC ==>
          && a.ecPointLen == b.ecPointLen
          && BytesOf(a.ecPoint) == BytesOf(b.ecPoint)
          && a.groupName == b.groupName)
  }

  /**
   * KeylessMatch: 0 when either key is NULL; with the public-key bit, 0
   * unless the public parts are equal; otherwise 1. `bnOk` says whether
   * the BIGNUM conversions of an RSA comparison succeed.
   */
  function Match(a: KeylessKey?, b: KeylessKey?, selection: bv32, bnOk: bool): (r: int)
    requires a != null && b != null ==> a.Valid() && b.Valid() && MatchReadable(a) && MatchReadable(b)
    reads a, b
    ensures r == 1 <==> a != null && b != null && ((selection & SELECT_PUBLIC_KEY) != 0 ==> SamePublic(a, b, bnOk))
    ensures r == 0 || r == 1
  {
    if a == null || b == null then 0
    else if (selection & SELECT_PUBLIC_KEY) == 0 then 1
    else if a.keyType != b.keyType then 0
    else if a.keyType == KEY_TYPE_RSA then
      var ok := bnOk
        && FromBytesBE(BytesOf(a.n)) == FromBytesBE(BytesOf(b.n))
        && FromBytesBE(BytesOf(a.e)) == FromBytesBE(BytesOf(b.e));
      if ok then 1 else 0
    else if a.keyType == KEY_TYPE_EC then
      if a.ecPointLen != b.ecPointLen then 0
      else if BytesOf(a.ecPoint)[..a.ecPointLen] != BytesOf(b.ecPoint)[..a.ecPointLen] then 0
      else if a.groupName.None? != b.groupName.None? then 0
      else if a.groupName.Some? && a.groupName.value != b.groupName.value then 0
      else 1
    else 1
  }

  /** Every key matches itself, given the conversions succeed. */
  lemma MatchReflexive(a: KeylessKey, selection: bv32)
    requires a.Valid() && MatchReadable(a)
    ensures Match(a, a, selection, true) == 1
  {
  }

  /** Matching does not depend on the order of the keys. */
  lemma MatchSymmetric(a: KeylessKey?, b: KeylessKey?, selection: bv32, bnOk: bool)
    requires a != null && b != null ==> a.Valid() && b.Valid() && MatchReadable(a) && MatchReadable(b)
    ensures Match(a, b, selection, bnOk) == Match(b, a, selection, bnOk)
  {
  }

  /** RSA keys are compared as integers: a modulus with a leading zero byte matches the one without. */
  lemma MatchIgnoresLeadingZero(a: KeylessKey, b: KeylessKey)
    requires a.Valid() && b.Valid() && MatchReadable(a) && MatchReadable(b)
    requires a.keyType == KEY_TYPE_RSA == b.keyType
    requires BytesOf(a.n) == [0] + BytesOf(b.n) && BytesOf(a.e) == BytesOf(b.e)
    ensures Match(a, b, SELECT_PUBLIC_KEY, true) == 1
  {
    LeadingZero(BytesOf(b.n));
  }

  // ------------------------------------------------------------ derived values

  /** (unsigned)(nLen * 8): the bit length in 32-bit unsigned arithmetic. */
  function RsaBits(nLen: nat): (bits: nat)
    ensures bits < 0x1_0000_0000
    ensures nLen * 8 < 0x1_0000_0000 ==> bits == nLen * 8
  {
    (nLen * 8) % 0x1_0000_0000
  }

  /**
   * DefaultDigestForKey: for EC with a group name, by the curve order
   * (512 bits or more SHA512, 384 or more SHA384, else SHA256); for RSA
   * by the modulus bits (7680 or more SHA512, 3072 or more SHA384, else
   * SHA256); SHA256 for anything else.
   */
  function DefaultDigestForKey(k: KeylessKey): (md: string)
    reads k
    ensures md == "SHA256" || md == "SHA384" || md == "SHA512"
  {
    if k.keyType == KEY_TYPE_EC && k.groupName.Some? then
      var ob := GetEcOrderBitsFromGroup(k.groupName);
      if ob >= 512 then "SHA512" else if ob >= 384 then "SHA384" else "SHA256"
    else if k.keyType == KEY_TYPE_RSA then
      var bits := RsaBits(k.nLen);
      if bits >= 7680 then "SHA512" else if bits >= 3072 then "SHA384" else "SHA256"
    else "SHA256"
  }

  /** Output bits of the digests named. */
  function DigestBits(md: string): nat
  {
    if md == "SHA512" then 512 else if md == "SHA384" then 384 else 256
  }

  /**
   * The RSA security strength reported as SECURITY_BITS, following NIST
   * SP 800-57 Part 1 Rev. 5, Table 2; 0 means not reported.
   */
  function RsaSecurityBits(rsaBits: nat): (s: nat)
    ensures s == 0 <==> rsaBits < 2048
  {
    if rsaBits >= 15360 then 256
    else if rsaBits >= 7680 then 192
    else if rsaBits >= 3072 then 128
    else if rsaBits >= 2048 then 112
    else 0
  }

  /** Strength never decreases with the modulus size. */
  lemma SecurityBitsMonotone(x: nat, y: nat)
    requires x <= y
    ensures RsaSecurityBits(x) <= RsaSecurityBits(y)
  {
  }

  /**
   * The default digest of an RSA key is strong enough for the key: half
   * its output (its collision strength) is at least the key's security
   * strength.
   */
  lemma DefaultDigestCoversStrength(k: KeylessKey)
    requires k.keyType == KEY_TYPE_RSA
    ensures DigestBits(DefaultDigestForKey(k)) / 2 >= RsaSecurityBits(RsaBits(k.nLen))
  {
  }

  /** The curves the table knows get the digest of their size. */
  lemma DefaultDigestForCurves(k: KeylessKey)
    requires k.keyType == KEY_TYPE_EC && k.groupName.Some?
    ensures GetEcOrderBitsFromGroup(k.groupName) == 256 ==> DefaultDigestForKey(k) == "SHA256"
    ensures GetEcOrderBitsFromGroup(k.groupName) == 384 ==> DefaultDigestForKey(k) == "SHA384"
    ensures GetEcOrderBitsFromGroup(k.groupName) == 521 ==> DefaultDigestForKey(k) == "SHA512"
    ensures GetEcOrderBitsFromGroup(k.groupName) == 0 ==> DefaultDigestForKey(k) == "SHA256"
  {
  }

  /** MAX_SIZE of an EC key: 2 * ceil(orderBits / 8) + 10 for a known curve, else 160. */
  function EcMaxSize(orderBits: nat): (size: nat)
    ensures orderBits == 0 ==> size == 160
  {
    if orderBits != 0 then
      var nbytes := orderBits / 8 + (if orderBits % 8 != 0 then 1 else 0);
      2 * nbytes + 10
    else 160
  }

  /**
   * The longest DER ECDSA signature for an order of the given bits: a
   * SEQUENCE of two INTEGERs of up to nbytes + 1 content bytes each.
   */
  function EcdsaDerMax(orderBits: nat): nat
  {
    var nbytes := orderBits / 8 + (if orderBits % 8 != 0 then 1 else 0);
    var body := 2 * (2 + nbytes + 1);
    (if body < 128 then 2 else 3) + body
  }

  /** MAX_SIZE covers every DER signature of each known curve, and the fallback covers them all. */
  lemma EcMaxSizeCoversSignatures(orderBits: nat)
    requires orderBits == 256 || orderBits == 384 || orderBits == 521
    ensures EcMaxSize(orderBits) >= EcdsaDerMax(orderBits)
    ensures EcMaxSize(0) >= EcdsaDerMax(orderBits)
  {
  }

  /** The MAX_SIZE values of the NIST curves. */
  lemma EcMaxSizeValues()
    ensures EcMaxSize(256) == 74 && EcMaxSize(384) == 106 && EcMaxSize(521) == 142
  {
  }

  /** The parameters a key reports, by name. */
  datatype ParamName = RsaN | RsaE | PubKey | GroupName | MaxSize | Bits | SecurityBitsName | DefaultDigest | KeylessId

  /** A value written into a parameter. */
  datatype ParamValue = UInt(u: nat) | Size(z: nat) | Utf8(s: string) | Octets(o: seq<bv8>) | BigNum(v: nat)

  /**
   * The value a key reports for one parameter name, or None when it
   * leaves that parameter unwritten: the RSA values (N, E, MAX_SIZE,
   * BITS, and SECURITY_BITS when at least 2048 bits), the EC values (the
   * point and group name when present, MAX_SIZE), then for every key the
   * key id when present and the default digest.
   */
  function ReportedValue(k: KeylessKey, name: ParamName): Option<ParamValue>
    reads k
  {
    var rsa := k.keyType == KEY_TYPE_RSA;
    var ec := k.keyType == KEY_TYPE_EC;
    match name
    case RsaN => if rsa then Some(BigNum(FromBytesBE(BytesOf(k.n)))) else None
    case RsaE => if rsa then Some(BigNum(FromBytesBE(BytesOf(k.e)))) else None
    case Bits => if rsa then Some(UInt(RsaBits(k.nLen))) else None
    case SecurityBitsName =>
      if rsa && RsaSecurityBits(RsaBits(k.nLen)) != 0 then Some(UInt(RsaSecurityBits(RsaBits(k.nLen)))) else None
    case PubKey => if ec && k.ecPoint.Some? then Some(Octets(k.ecPoint.value)) else None
    case GroupName => if ec && k.groupName.Some? then Some(Utf8(k.groupName.value)) else None
    case MaxSize =>
      if rsa then Some(Size(k.nLen))
      else if ec then Some(Size(EcMaxSize(GetEcOrderBitsFromGroup(k.groupName))))
      else None
    case KeylessId => if k.keyId.Some? then Some(Utf8(k.keyId.value)) else None
    case DefaultDigest => Some(Utf8(DefaultDigestForKey(k)))
  }

  /** The names whose values depend on the key's type. */
  const TYPED_NAMES: set<ParamName> := {RsaN, RsaE, Bits, SecurityBitsName, PubKey, GroupName, MaxSize}

  /**
   * Among `names`, `filled` holds exactly the requested parameters the
   * key reports, with the values it reports.
   */
  ghost predicate ReportsOn(k: KeylessKey, requested: set<ParamName>, names: set<ParamName>, filled: map<ParamName, ParamValue>)
    reads k
  {
    forall name ::
      && (name in filled <==> name in names && name in requested && ReportedValue(k, name).Some?)
      && (name in filled ==> filled[name] == ReportedValue(k, name).value)
  }

  /** `filled` holds exactly the requested parameters the key reports, with the values it reports. */
  ghost predicate Reports(k: KeylessKey, requested: set<ParamName>, filled: map<ParamName, ParamValue>)
    reads k
  {
    ReportsOn(k, requested, TYPED_NAMES + {KeylessId, DefaultDigest}, filled)
  }

  /** The BIGNUM conversions an RSA key needs for the requested N and E succeed. */
  predicate RsaBignumsOk(k: KeylessKey, requested: set<ParamName>, bnOkN: bool, bnOkE: bool)
    reads k
  {
    k.keyType == KEY_TYPE_RSA ==> (RsaN in requested ==> bnOkN) && (RsaE in requested ==> bnOkE)
  }

  /** The RSA branch of KeylessGetParams. */
  method GetRsaParams(k: KeylessKey, requested: set<ParamName>, bnOkN: bool, bnOkE: bool)
    returns (ok: bool, filled: map<ParamName, ParamValue>)
    requires k.keyType == KEY_TYPE_RSA
    ensures ok <==> RsaBignumsOk(k, requested, bnOkN, bnOkE)
    ensures ok ==> ReportsOn(k, requested, TYPED_NAMES, filled)
    ensures !ok ==> filled.Keys <= {RsaN}
  {
    filled := map[];
    if RsaN in requested {
      if !bnOkN {
        return false, filled;
      }
      filled := filled[RsaN := BigNum(FromBytesBE(BytesOf(k.n)))];
    }
    if RsaE in requested {
      if !bnOkE {
        return false, filled;
      }
      filled := filled[RsaE := BigNum(FromBytesBE(BytesOf(k.e)))];
    }
    assert ReportsOn(k, requested, {RsaN, RsaE}, filled);
    if MaxSize in requested {
      filled := filled[MaxSize := Size(k.nLen)];
    }
    var rsaBits := RsaBits(k.nLen);
    if Bits in requested {
      filled := filled[Bits := UInt(rsaBits)];
    }
    assert ReportsOn(k, requested, {RsaN, RsaE, MaxSize, Bits}, filled);
    if SecurityBitsName in requested {
      var secureBits := RsaSecurityBits(rsaBits);
      if secureBits != 0 {
        filled := filled[SecurityBitsName := UInt(secureBits)];
      }
    }
    ok := true;
  }

  /** The EC branch of KeylessGetParams; a point or group name the key lacks is left unwritten. */
  method GetEcParams(k: KeylessKey, requested: set<ParamName>) returns (filled: map<ParamName, ParamValue>)
    requires k.keyType == KEY_TYPE_EC
    ensures ReportsOn(k, requested, TYPED_NAMES, filled)
  {
    filled := map[];
    if PubKey in requested && k.ecPoint.Some? {
      filled := filled[PubKey := Octets(k.ecPoint.value)];
    }
    if k.groupName.Some? && GroupName in requested {
      filled := filled[GroupName := Utf8(k.groupName.value)];
    }
    var orderBits := GetEcOrderBitsFromGroup(k.groupName);
    if MaxSize in requested {
      filled := filled[MaxSize := Size(EcMaxSize(orderBits))];
    }
  }

  /**
   * KeylessGetParams: 0 for NULL; 0 when an RSA modulus or exponent that
   * was asked for cannot be converted to a BIGNUM or stored (`bnOkN`,
   * `bnOkE`), having written at most the modulus; otherwise 1 with every
   * requested value the key reports written, and nothing else.
   */
  method GetParams(k: KeylessKey?, requested: set<ParamName>, bnOkN: bool, bnOkE: bool)
    returns (r: int, filled: map<ParamName, ParamValue>)
    ensures r == 1 <==> k != null && RsaBignumsOk(k, requested, bnOkN, bnOkE)
    ensures r == 1 ==> Reports(k, requested, filled)
    ensures r == 0 ==> filled.Keys <= {RsaN}
  {
    if k == null {
      return 0, map[];
    }
    if k.keyType == KEY_TYPE_RSA {
      var ok;
      ok, filled := GetRsaParams(k, requested, bnOkN, bnOkE);
      if !ok {
        return 0, filled;
      }
    } else if k.keyType == KEY_TYPE_EC {
      filled := GetEcParams(k, requested);
    } else {
      filled := map[];
    }
    assert ReportsOn(k, requested, TYPED_NAMES, filled);
    if KeylessId in requested && k.keyId.Some? {
      filled := filled[KeylessId := Utf8(k.keyId.value)];
    }
    if DefaultDigest in requested {
      filled := filled[DefaultDigest := Utf8(DefaultDigestForKey(k))];
    }
    r := 1;
  }

  /**
   * What an RSA key reports hangs together: BITS is eight times MAX_SIZE
   * (below the 32-bit wrap), SECURITY_BITS is reported exactly from 2048
   * bits and follows BITS, and N is the integer the stored modulus bytes
   * denote.
   */
  lemma RsaParamsAgree(k: KeylessKey)
    requires k.keyType == KEY_TYPE_RSA && k.nLen * 8 < 0x1_0000_0000
    ensures ReportedValue(k, Bits) == Some(UInt(8 * k.nLen))
    ensures ReportedValue(k, MaxSize) == Some(Size(k.nLen))
    ensures ReportedValue(k, SecurityBitsName).Some? <==> k.nLen * 8 >= 2048
    ensures ReportedValue(k, SecurityBitsName).Some? ==>
      ReportedValue(k, SecurityBitsName).value == UInt(RsaSecurityBits(8 * k.nLen))
    ensures ReportedValue(k, RsaN) == Some(BigNum(FromBytesBE(BytesOf(k.n))))
  {
  }

  /** An EC key's MAX_SIZE covers every DER signature its curve can produce. */
  lemma EcMaxSizeReported(k: KeylessKey)
    requires k.keyType == KEY_TYPE_EC
    requires GetEcOrderBitsFromGroup(k.groupName) != 0
    ensures ReportedValue(k, MaxSize).Some?
    ensures ReportedValue(k, MaxSize).value.z >= EcdsaDerMax(GetEcOrderBitsFromGroup(k.groupName))
  {
    EcMaxSizeCoversSignatures(GetEcOrderBitsFromGroup(k.groupName));
  }

  // ------------------------------------------------------------ operation names

  /** KeylessRsaQueryOpName: "RSA" for signatures and asymmetric ciphers, else NULL. */
  function RsaQueryOpName(operationId: int): (name: Option<string>)
    ensures name.Some? <==> operationId == OP_SIGNATURE || operationId == OP_ASYM_CIPHER
    ensures name.Some? ==> name.value == "RSA"
  {
    if operationId == OP_SIGNATURE || operationId == OP_ASYM_CIPHER then Some("RSA") else None
  }

  /** KeylessEcQueryOpName: "ECDSA" for signatures only, else NULL. */
  function EcQueryOpName(operationId: int): (name: Option<string>)
    ensures name.Some? <==> operationId == OP_SIGNATURE
    ensures name.Some? ==> name.value == "ECDSA"
  {
    if operationId == OP_SIGNATURE then Some("ECDSA") else None
  }

  /** Every operation a key type names is one the provider answers a query for. */
  lemma AdvertisedOperationsAreServed(operationId: int)
    ensures RsaQueryOpName(operationId).Some? ==> Query(operationId).Some?
    ensures EcQueryOpName(operationId).Some? ==> Query(operationId).Some?
  {
  }
}
