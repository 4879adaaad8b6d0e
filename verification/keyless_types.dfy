/**
 * The records and constants shared by the keyless provider's modules: key
 * type tags, the key object, the asymmetric-cipher context, the callback
 * registry's entries and context, the remote callback handles and the
 * dynamic-loader diagnostic record.
 *
 * C strings (key ids, group names) are strings without their NUL
 * terminator; a NULL pointer is `None`.
 */
module KeylessTypes {
  import opened Wrappers
  import opened SizeTBits

  /** Key type tags. An unimported key has tag 0. */
  const KEY_TYPE_NONE: int := 0
  const KEY_TYPE_RSA: int := 1
  const KEY_TYPE_EC: int := 2
  /** ECDSA keys share the EC tag. */
  const KEY_TYPE_ECDSA: int := 2

  /** Log levels returned by the cached log-level lookup. */
  const LOG_OFF: int := 0
  const LOG_ON: int := 1

  /** Status codes of the embedded-provider loader. */
  const LOAD_SUCCESS: int := 0
  const PROVIDER_ADD_FAILED: int := 1
  const PROVIDER_NOT_FOUND: int := 2

  /**
   * The dynamic-loader diagnostic record: whether every looked-up OpenSSL
   * symbol was found, and the name of the one that was not.
   */
  datatype DynMsg = DynMsg(found: bool, funcName: Option<string>)

  /** A record fresh from a zeroing allocator. */
  const ZERO_DYN_MSG: DynMsg := DynMsg(false, None)

  /** Non-null remote callbacks, told apart by an opaque handle. */
  datatype RemoteSignCb = RemoteSignCb(handle: nat)
  datatype RemoteDecryptCb = RemoteDecryptCb(handle: nat)

  /**
   * What a remote decrypt callback gives back: the buffer it returns (or
   * NULL) and the length it reports through `written` (an int64_t).
   */
  datatype RemoteReply = RemoteReply(buffer: Option<seq<bv8>>, written: int)

  /** The key object: public material only, shared by reference count. */
  class KeylessKey {
    var keyType: int
    var keyId: Option<string>
    var n: Option<seq<bv8>>
    var nLen: nat
    var e: Option<seq<bv8>>
    var eLen: nat
    var ecPoint: Option<seq<bv8>>
    var ecPointLen: nat
    var groupName: Option<string>
    var dynMsg: DynMsg
    var refCnt: int

    /**
     * Every allocated buffer has the length recorded beside it, and no
     * length exceeds the largest C object.
     */
    ghost predicate Valid()
      reads this
    {
      && (n.Some? ==> |n.value| == nLen)
      && (e.Some? ==> |e.value| == eLen)
      && (ecPoint.Some? ==> |ecPoint.value| == ecPointLen)
      && nLen < OBJECT_LIMIT && eLen < OBJECT_LIMIT && ecPointLen < OBJECT_LIMIT
    }

    /** A zeroed record with one reference, carrying the given diagnostic record. */
    constructor (msg: DynMsg)
      ensures Valid()
      ensures keyType == KEY_TYPE_NONE && refCnt == 1 && dynMsg == msg
      ensures keyId.None? && n.None? && e.None? && ecPoint.None? && groupName.None?
      ensures nLen == 0 && eLen == 0 && ecPointLen == 0
    {
      keyType := KEY_TYPE_NONE;
      keyId := None;
      n := None;
      nLen := 0;
      e := None;
      eLen := 0;
      ecPoint := None;
      ecPointLen := 0;
      groupName := None;
      dynMsg := msg;
      refCnt := 1;
    }
  }

  /** The asymmetric-cipher operation context: a key reference and its type tag. */
  class AsymcipherCtx {
    var keyData: KeylessKey?
    var ctxType: int
    var dynMsg: DynMsg

    /** A zeroed context. */
    constructor ()
      ensures keyData == null && ctxType == 0 && dynMsg == ZERO_DYN_MSG
    {
      keyData := null;
      ctxType := 0;
      dynMsg := ZERO_DYN_MSG;
    }
  }

  /** One registry entry: a key id and the callbacks registered for it. */
  class CallbackEntry {
    var keyId: string
    var signCb: Option<RemoteSignCb>
    var decryptCb: Option<RemoteDecryptCb>
    var next: CallbackEntry?

    /** A zeroed entry holding a copy of the key id. */
    constructor (id: string)
      ensures keyId == id && signCb.None? && decryptCb.None? && next == null
    {
      keyId := id;
      signCb := None;
      decryptCb := None;
      next := null;
    }
  }

  /** The callbacks registered for one key id. */
  datatype Slot = Slot(sign: Option<RemoteSignCb>, decrypt: Option<RemoteDecryptCb>)

  /** A registry entry as a value. */
  datatype Binding = Binding(keyId: string, slot: Slot)

  predicate KeysUnique(bs: seq<Binding>)
  {
    forall i, j :: 0 <= i < j < |bs| ==> bs[i].keyId != bs[j].keyId
  }

  /** The registry as a map from key id to callbacks; the first binding of a key wins. */
  function TableOf(bs: seq<Binding>): (t: map<string, Slot>)
    decreases |bs|
  {
    if bs == [] then map[] else TableOf(bs[1..])[bs[0].keyId := bs[0].slot]
  }

  /** The table's keys are exactly the key ids of the bindings. */
  lemma {:induction false} TableOfKeys(bs: seq<Binding>)
    ensures forall k :: k in TableOf(bs) <==> exists i :: 0 <= i < |bs| && bs[i].keyId == k
    decreases |bs|
  {
    if bs != [] {
      TableOfKeys(bs[1..]);
      forall k | k in TableOf(bs[1..]) ensures exists i :: 1 <= i < |bs| && bs[i].keyId == k {
        var j :| 0 <= j < |bs[1..]| && bs[1..][j].keyId == k;
        assert bs[j + 1].keyId == k;
      }
      forall k | exists i :: 1 <= i < |bs| && bs[i].keyId == k ensures k in TableOf(bs[1..]) {
        var i :| 1 <= i < |bs| && bs[i].keyId == k;
        assert bs[1..][i - 1].keyId == k;
      }
    }
  }

  /** The entries of a list as values. */
  function BindingsOf(ns: seq<CallbackEntry>): (bs: seq<Binding>)
    reads ns
    ensures |bs| == |ns|
    ensures forall i :: 0 <= i < |ns| ==>
      bs[i] == Binding(ns[i].keyId, Slot(ns[i].signCb, ns[i].decryptCb))
    decreases |ns|
  {
    if ns == [] then []
    else [Binding(ns[0].keyId, Slot(ns[0].signCb, ns[0].decryptCb))] + BindingsOf(ns[1..])
  }

  /** Each entry's `next` is the entry after it; the last one's is NULL. */
  ghost predicate Linked(ns: seq<CallbackEntry>)
    reads ns
  {
    forall i :: 0 <= i < |ns| ==> ns[i].next == if i + 1 < |ns| then ns[i + 1] else null
  }

  /** The provider context: the head of the callback list. */
  class ProviderCtx {
    var callbacks: CallbackEntry?
    /** The entries of the list, head first. */
    ghost var nodes: seq<CallbackEntry>

    /** `nodes` is the list from `callbacks`, and key ids are unique in it. */
    ghost predicate Valid()
      reads this, nodes
    {
      && callbacks == (if nodes == [] then null else nodes[0])
      && Linked(nodes)
      && KeysUnique(BindingsOf(nodes))
    }

    ghost function Table(): map<string, Slot>
      reads this, nodes
    {
      TableOf(BindingsOf(nodes))
    }

    /** An empty registry. */
    constructor ()
      ensures Valid() && nodes == [] && Table() == map[]
    {
      callbacks := null;
      nodes := [];
    }
  }
}
