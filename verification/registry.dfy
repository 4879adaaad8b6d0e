/**
 * The provider's process state (src/stdx/net/tls/native/provider.c): the
 * callback registry — a singly linked list of entries keyed by key id, with
 * find, find-or-create, register, lookup and clear — the global provider
 * context pointer, the per-thread diagnostic slot, the operation query and
 * provider initialisation. The registry lock is not modelled: every
 * operation runs to completion before the next starts.
 */
module CallbackRegistry {
  import opened Wrappers
  import opened KeylessTypes

  /** OpenSSL operation ids. */
  const OP_KEYMGMT: int := 10
  const OP_SIGNATURE: int := 12
  const OP_ASYM_CIPHER: int := 13

  const INVALID_SIGN_PARAMS: string := "Invalid parameters for sign callback registration"
  const SIGN_CTX_NOT_READY: string := "Provider context not ready for sign callback registration"
  const INVALID_DECRYPT_PARAMS: string := "Invalid parameters for decrypt callback registration"
  const DECRYPT_CTX_NOT_READY: string := "Provider context not ready for decrypt callback registration"

  /** The module's globals: the published provider context and one thread's diagnostic slot. */
  class ProviderState {
    var providerCtx: ProviderCtx?
    var threadDynMsg: DynMsg
    var threadDynMsgSet: bool

    /** The state at load time: no context, the slot zeroed and unset. */
    constructor ()
      ensures providerCtx == null && threadDynMsg == ZERO_DYN_MSG && !threadDynMsgSet
    {
      providerCtx := null;
      threadDynMsg := ZERO_DYN_MSG;
      threadDynMsgSet := false;
    }
  }


  // ---------------------------------------------------------------- DynMsg

  /**
   * KeylessCopyDynMsg on the destination's value: nothing happens without a
   * destination; a missing source yields a record saying "all symbols found".
   */
  function CopyDynMsg(dst: Option<DynMsg>, src: Option<DynMsg>): (r: Option<DynMsg>)
    ensures r.Some? <==> dst.Some?
    ensures dst.Some? && src.Some? ==> r == src
    ensures dst.Some? && src.None? ==> r.value.found && r.value.funcName.None?
  {
    if dst.None? then None
    else if src.Some? then src
    else Some(dst.value.(found := true, funcName := None))
  }

  /** KeylessCheckDynMsg: a missing record, or one with every symbol found, passes. */
  function CheckDynMsg(msg: Option<DynMsg>): (ok: bool)
    ensures ok <==> msg.None? || msg.value.found
  {
    match msg
    case None => true
    case Some(m) => m.found
  }

  /** A record copied from no source always passes the check. */
  lemma CopyFromNothingPasses(dst: DynMsg)
    ensures CheckDynMsg(CopyDynMsg(Some(dst), None))
  {
  }

  /** A copied record passes the check exactly when its source does. */
  lemma CopyPreservesCheck(dst: DynMsg, src: DynMsg)
    ensures CheckDynMsg(CopyDynMsg(Some(dst), Some(src))) == CheckDynMsg(Some(src))
  {
  }

  /** KeylessProviderGetThreadDynMsg: the thread's record, if one was set. */
  function GetThreadDynMsg(st: ProviderState): (r: Option<DynMsg>)
    reads st
    ensures r.Some? <==> st.threadDynMsgSet
    ensures r.Some? ==> r.value == st.threadDynMsg
  {
    if st.threadDynMsgSet then Some(st.threadDynMsg) else None
  }

  /**
   * KeylessProviderSetThreadDynMsg: stores a copy and marks the slot set, or
   * for no record resets the slot and marks it unset; reading the slot back
   * gives exactly what was stored.
   */
  method SetThreadDynMsg(st: ProviderState, msg: Option<DynMsg>)
    modifies st
    ensures GetThreadDynMsg(st) == msg
    ensures msg.None? ==> st.threadDynMsg.found && st.threadDynMsg.funcName.None?
    ensures st.providerCtx == old(st.providerCtx)
  {
    if msg.Some? {
      st.threadDynMsg := msg.value;
      st.threadDynMsgSet := true;
    } else {
      st.threadDynMsg := st.threadDynMsg.(found := true, funcName := None);
      st.threadDynMsgSet := false;
    }
  }

  // ------------------------------------------------------- registry laws

  /** Registering a sign callback for k in table t. */
  function RegisterSign(t: map<string, Slot>, k: string, cb: RemoteSignCb): map<string, Slot>
  {
    t[k := (if k in t then t[k] else Slot(None, None)).(sign := Some(cb))]
  }

  /** Registering a decrypt callback for k in table t. */
  function RegisterDecrypt(t: map<string, Slot>, k: string, cb: RemoteDecryptCb): map<string, Slot>
  {
    t[k := (if k in t then t[k] else Slot(None, None)).(decrypt := Some(cb))]
  }

  /** The sign callback for k, if an entry holds one. */
  function SignOf(t: map<string, Slot>, k: string): Option<RemoteSignCb>
  {
    if k in t then t[k].sign else None
  }

  /** The decrypt callback for k, if an entry holds one. */
  function DecryptOf(t: map<string, Slot>, k: string): Option<RemoteDecryptCb>
  {
    if k in t then t[k].decrypt else None
  }

  /**
   * Register-then-lookup: the registered callback is found, the other kind
   * of callback for that key is kept, and every other key is unaffected.
   */
  lemma RegisterSignLaws(t: map<string, Slot>, k: string, cb: RemoteSignCb, other: string)
    ensures SignOf(RegisterSign(t, k, cb), k) == Some(cb)
    ensures DecryptOf(RegisterSign(t, k, cb), k) == DecryptOf(t, k)
    ensures other != k ==> SignOf(RegisterSign(t, k, cb), other) == SignOf(t, other)
    ensures other != k ==> DecryptOf(RegisterSign(t, k, cb), other) == DecryptOf(t, other)
    ensures k in t ==> RegisterSign(t, k, cb).Keys == t.Keys
  {
  }

  /** The decrypt counterpart of RegisterSignLaws. */
  lemma RegisterDecryptLaws(t: map<string, Slot>, k: string, cb: RemoteDecryptCb, other: string)
    ensures DecryptOf(RegisterDecrypt(t, k, cb), k) == Some(cb)
    ensures SignOf(RegisterDecrypt(t, k, cb), k) == SignOf(t, k)
    ensures other != k ==> DecryptOf(RegisterDecrypt(t, k, cb), other) == DecryptOf(t, other)
    ensures other != k ==> SignOf(RegisterDecrypt(t, k, cb), other) == SignOf(t, other)
    ensures k in t ==> RegisterDecrypt(t, k, cb).Keys == t.Keys
  {
  }

  /** Registering twice for the same key: the second callback wins. */
  lemma ReRegisterOverwrites(t: map<string, Slot>, k: string, a: RemoteSignCb, b: RemoteSignCb)
    ensures RegisterSign(RegisterSign(t, k, a), k, b) == RegisterSign(t, k, b)
  {
  }

  /** With unique keys, a key's entry in the table is its one binding. */
  lemma {:induction false} TableOfAt(bs: seq<Binding>, i: nat)
    requires KeysUnique(bs) && i < |bs|
    ensures bs[i].keyId in TableOf(bs) && TableOf(bs)[bs[i].keyId] == bs[i].slot
    decreases |bs|
  {
    if i > 0 {
      assert bs[1..][i - 1] == bs[i];
      TableOfAt(bs[1..], i - 1);
    }
  }

  /** Rewriting one binding's callbacks rewrites that key of the table and nothing else. */
  lemma {:induction false} TableOfUpdate(bs: seq<Binding>, i: nat, s: Slot)
    requires KeysUnique(bs) && i < |bs|
    ensures KeysUnique(bs[i := Binding(bs[i].keyId, s)])
    ensures TableOf(bs[i := Binding(bs[i].keyId, s)]) == TableOf(bs)[bs[i].keyId := s]
    decreases |bs|
  {
    var bs' := bs[i := Binding(bs[i].keyId, s)];
    assert forall j :: 0 <= j < |bs| ==> bs'[j].keyId == bs[j].keyId;
    if i == 0 {
      assert bs'[1..] == bs[1..];
    } else {
      var k := bs[i].keyId;
      assert bs'[1..] == bs[1..][i - 1 := Binding(k, s)];
      TableOfUpdate(bs[1..], i - 1, s);
      assert bs[0].keyId != k;
      var rest := TableOf(bs[1..]);
      calc {
        TableOf(bs');
        TableOf(bs'[1..])[bs[0].keyId := bs[0].slot];
        rest[k := s][bs[0].keyId := bs[0].slot];
        { assert rest[k := s][bs[0].keyId := bs[0].slot] == rest[bs[0].keyId := bs[0].slot][k := s]; }
        rest[bs[0].keyId := bs[0].slot][k := s];
        TableOf(bs)[k := s];
      }
    }
  }

  /** A binding for a new key goes in front, keeps keys unique and adds just that key. */
  lemma Prepend(bs: seq<Binding>, b: Binding)
    requires KeysUnique(bs) && b.keyId !in TableOf(bs)
    ensures KeysUnique([b] + bs)
    ensures TableOf([b] + bs) == TableOf(bs)[b.keyId := b.slot]
  {
    TableOfKeys(bs);
    assert ([b] + bs)[1..] == bs;
    forall i, j | 0 <= i < j < |[b] + bs| ensures ([b] + bs)[i].keyId != ([b] + bs)[j].keyId {
      if i == 0 {
        assert ([b] + bs)[j] == bs[j - 1];
      }
    }
  }

  // --------------------------------------------------------- the list

  /** In a linked list, entry i's successor is entry i + 1, or NULL after the last. */
  lemma LinkedAt(ns: seq<CallbackEntry>, i: nat)
    requires Linked(ns) && i < |ns|
    ensures ns[i].next == if i + 1 < |ns| then ns[i + 1] else null
  {
  }


  /**
   * KeylessFindEntryLocked: NULL without a context or a key id, else the
   * entry holding that key id, NULL when there is none.
   */
  method FindEntryLocked(ctx: ProviderCtx?, keyId: Option<string>) returns (entry: CallbackEntry?)
    requires ctx != null ==> ctx.Valid()
    ensures ctx == null || keyId.None? ==> entry == null
    ensures ctx != null && keyId.Some? ==> (entry == null <==> keyId.value !in ctx.Table())
    ensures entry != null ==>
      && ctx != null && keyId.Some?
      && (exists i :: 0 <= i < |ctx.nodes| && ctx.nodes[i] == entry)
      && entry.keyId == keyId.value
      && ctx.Table()[keyId.value] == Slot(entry.signCb, entry.decryptCb)
  {
    if ctx == null || keyId.None? {
      return null;
    }
    var id := keyId.value;
    var it := ctx.callbacks;
    ghost var i := 0;
    ghost var bs := BindingsOf(ctx.nodes);
    while it != null
      invariant 0 <= i <= |ctx.nodes|
      invariant it == if i < |ctx.nodes| then ctx.nodes[i] else null
      invariant forall j :: 0 <= j < i ==> bs[j].keyId != id
      decreases |ctx.nodes| - i
    {
      if it.keyId == id {
        TableOfAt(bs, i);
        return it;
      }
      it := it.next;
      i := i + 1;
    }
    TableOfKeys(bs);
    return null;
  }

  /**
   * KeylessEnsureEntryLocked: the existing entry for the key id, or else a
   * zeroed entry holding a copy of it, put at the head of the list; NULL
   * with the registry untouched when the entry or the key copy cannot be
   * allocated. Key ids stay unique.
   */
  method EnsureEntryLocked(ctx: ProviderCtx, keyId: string, allocOk: bool, dupOk: bool)
    returns (entry: CallbackEntry?)
    requires ctx.Valid()
    modifies ctx
    ensures ctx.Valid()
    ensures keyId in old(ctx.Table()) ==> entry != null && ctx.nodes == old(ctx.nodes)
    ensures keyId !in old(ctx.Table()) && !(allocOk && dupOk) ==>
      entry == null && ctx.nodes == old(ctx.nodes)
    ensures keyId !in old(ctx.Table()) && allocOk && dupOk ==>
      entry != null && fresh(entry) && ctx.nodes == [entry] + old(ctx.nodes)
    ensures ctx.Table() == if entry != null && keyId !in old(ctx.Table())
      then old(ctx.Table())[keyId := Slot(None, None)] else old(ctx.Table())
    ensures entry != null ==>
      && entry.keyId == keyId
      && (exists i :: 0 <= i < |ctx.nodes| && ctx.nodes[i] == entry)
      && ctx.Table()[keyId] == Slot(entry.signCb, entry.decryptCb)
  {
    entry := FindEntryLocked(ctx, Some(keyId));
    if entry != null {
      return;
    }
    if !allocOk || !dupOk {
      assert ctx.Valid();
      return null;
    }
    entry := new CallbackEntry(keyId);
    PushFront(ctx, entry);
  }

  /** Links a new entry, for a key id not yet present, in front of the list. */
  method PushFront(ctx: ProviderCtx, entry: CallbackEntry)
    requires ctx.Valid()
    requires entry !in ctx.nodes && entry.keyId !in ctx.Table()
    modifies ctx, entry`next
    ensures ctx.Valid()
    ensures ctx.nodes == [entry] + old(ctx.nodes)
    ensures ctx.Table() == old(ctx.Table())[entry.keyId := Slot(entry.signCb, entry.decryptCb)]
  {
    ghost var oldNodes := ctx.nodes;
    ghost var oldBs := BindingsOf(oldNodes);
    ghost var b := Binding(entry.keyId, Slot(entry.signCb, entry.decryptCb));
    Prepend(oldBs, b);
    ghost var oldNext := seq(|oldNodes|, i requires 0 <= i < |oldNodes| reads oldNodes => oldNodes[i].next);
    forall i | 0 <= i < |oldNodes|
      ensures oldNext[i] == if i + 1 < |oldNodes| then oldNodes[i + 1] else null
    {
      LinkedAt(oldNodes, i);
    }
    entry.next := ctx.callbacks;
    ctx.callbacks := entry;
    ctx.nodes := [entry] + ctx.nodes;
    assert BindingsOf(ctx.nodes) == [b] + oldBs;
    forall j | 0 <= j < |ctx.nodes|
      ensures ctx.nodes[j].next == if j + 1 < |ctx.nodes| then ctx.nodes[j + 1] else null
    {
      if j > 0 {
        assert ctx.nodes[j] == oldNodes[j - 1] != entry;
        assert oldNext[j - 1] == if j < |oldNodes| then oldNodes[j] else null;
      }
    }
    assert Linked(ctx.nodes);
    assert KeysUnique(BindingsOf(ctx.nodes));
    assert ctx.callbacks == ctx.nodes[0];
  }

  /** Stores both callbacks of an entry of the list; the key ids and the links stay. */
  method SetSlot(ctx: ProviderCtx, entry: CallbackEntry, sign: Option<RemoteSignCb>,
                 decrypt: Option<RemoteDecryptCb>)
    requires ctx.Valid()
    requires exists i :: 0 <= i < |ctx.nodes| && ctx.nodes[i] == entry
    modifies entry`signCb, entry`decryptCb
    ensures ctx.Valid() && entry.signCb == sign && entry.decryptCb == decrypt
    ensures ctx.Table() == old(ctx.Table())[entry.keyId := Slot(sign, decrypt)]
  {
    ghost var i :| 0 <= i < |ctx.nodes| && ctx.nodes[i] == entry;
    ghost var bs := BindingsOf(ctx.nodes);
    ghost var ns := ctx.nodes;
    ghost var nxt := seq(|ns|, j requires 0 <= j < |ns| reads ns => ns[j].next);
    forall j | 0 <= j < |ns|
      ensures nxt[j] == if j + 1 < |ns| then ns[j + 1] else null
    {
      LinkedAt(ns, j);
    }
    TableOfAt(bs, i);
    TableOfUpdate(bs, i, Slot(sign, decrypt));
    entry.signCb := sign;
    entry.decryptCb := decrypt;
    ghost var nbs := BindingsOf(ns);
    forall j | 0 <= j < |ns|
      ensures nbs[j] == bs[i := Binding(entry.keyId, Slot(sign, decrypt))][j]
    {
      if j != i {
        assert bs[j].keyId != bs[i].keyId;
        assert ns[j] != entry;
        assert ns[j].signCb == old(ns[j].signCb);
        assert ns[j].decryptCb == old(ns[j].decryptCb);
        assert nbs[j] == bs[j];
      } else {
        assert nbs[j] == Binding(entry.keyId, Slot(sign, decrypt));
      }
    }
    assert nbs == bs[i := Binding(entry.keyId, Slot(sign, decrypt))];
    forall j | 0 <= j < |ctx.nodes|
      ensures ctx.nodes[j].next == if j + 1 < |ctx.nodes| then ctx.nodes[j + 1] else null
    {
      assert ctx.nodes[j].next == nxt[j];
    }
    assert Linked(ctx.nodes);
    assert KeysUnique(BindingsOf(ctx.nodes));
    assert ctx.Table() == TableOf(nbs);
  }

  /**
   * KeylessClearCallbacks: detaches the whole list (the context is left
   * empty) and then releases every detached entry, one per step.
   */
  method ClearCallbacks(ctx: ProviderCtx?) returns (ghost released: nat)
    requires ctx != null ==> ctx.Valid()
    modifies ctx
    ensures ctx != null ==> ctx.Valid() && ctx.nodes == [] && ctx.Table() == map[]
    ensures released == if ctx == null then 0 else |old(ctx.nodes)|
  {
    if ctx == null {
      return 0;
    }
    var it := ctx.callbacks;
    ghost var detached := ctx.nodes;
    ctx.callbacks := null;
    ctx.nodes := [];
    released := 0;
    while it != null
      invariant 0 <= released <= |detached|
      invariant it == if released < |detached| then detached[released] else null
      invariant Linked(detached)
      modifies {}
      decreases |detached| - released
    {
      LinkedAt(detached, released);
      var next := it.next;
      it := next;
      released := released + 1;
    }
  }

  // ------------------------------------------------ lookup and register

  /**
   * KeylessLookupSignCb: the sign callback registered for the key id, NULL
   * for a NULL key id, before the provider context exists, or when none is
   * registered. The registry is only read.
   */
  method LookupSignCb(st: ProviderState, keyId: Option<string>) returns (cb: Option<RemoteSignCb>)
    requires st.providerCtx != null ==> st.providerCtx.Valid()
    ensures cb == if keyId.None? || st.providerCtx == null then None
                  else SignOf(st.providerCtx.Table(), keyId.value)
  {
    if keyId.None? {
      return None;
    }
    var ctx := st.providerCtx;
    if ctx == null {
      return None;
    }
    var entry := FindEntryLocked(ctx, keyId);
    if entry != null {
      cb := entry.signCb;
    } else {
      cb := None;
    }
  }

  /** KeylessLookupDecryptCb: the decrypt counterpart of LookupSignCb. */
  method LookupDecryptCb(st: ProviderState, keyId: Option<string>) returns (cb: Option<RemoteDecryptCb>)
    requires st.providerCtx != null ==> st.providerCtx.Valid()
    ensures cb == if keyId.None? || st.providerCtx == null then None
                  else DecryptOf(st.providerCtx.Table(), keyId.value)
  {
    if keyId.None? {
      return None;
    }
    var ctx := st.providerCtx;
    if ctx == null {
      return None;
    }
    var entry := FindEntryLocked(ctx, keyId);
    if entry != null {
      cb := entry.decryptCb;
    } else {
      cb := None;
    }
  }

  /**
   * KeylessRegisterSignCallback: rejects a NULL key id or callback and a
   * missing provider context with an error message, leaving the registry
   * as it was; otherwise sets the sign callback of the key's entry (made
   * if needed), so a later lookup finds it. When the entry cannot be
   * allocated nothing changes and no error is raised.
   */
  method RegisterSignCallback(st: ProviderState, keyId: Option<string>, cb: Option<RemoteSignCb>,
                              allocOk: bool, dupOk: bool)
    returns (error: Option<string>)
    requires st.providerCtx != null ==> st.providerCtx.Valid()
    modifies st.providerCtx, if st.providerCtx == null then [] else st.providerCtx.nodes
    ensures st.providerCtx != null ==> st.providerCtx.Valid()
    ensures error == if keyId.None? || cb.None? then Some(INVALID_SIGN_PARAMS)
                     else if st.providerCtx == null then Some(SIGN_CTX_NOT_READY)
                     else None
    ensures error.None? ==>
      st.providerCtx.Table() ==
        if keyId.value in old(st.providerCtx.Table()) || (allocOk && dupOk)
        then RegisterSign(old(st.providerCtx.Table()), keyId.value, cb.value)
        else old(st.providerCtx.Table())
    ensures error.Some? && st.providerCtx != null ==>
      st.providerCtx.Table() == old(st.providerCtx.Table())
  {
    if keyId.None? || cb.None? {
      return Some(INVALID_SIGN_PARAMS);
    }
    var ctx := st.providerCtx;
    if ctx == null {
      return Some(SIGN_CTX_NOT_READY);
    }
    SetSignLocked(ctx, keyId.value, cb.value, allocOk, dupOk);
    return None;
  }

  /**
   * The part of KeylessRegisterSignCallback done under the write lock: the
   * key's entry, made if needed, gets the callback; nothing changes when
   * the entry cannot be allocated.
   */
  method SetSignLocked(ctx: ProviderCtx, keyId: string, cb: RemoteSignCb, allocOk: bool, dupOk: bool)
    requires ctx.Valid()
    modifies ctx, ctx.nodes
    ensures ctx.Valid()
    ensures ctx.Table() ==
      if keyId in old(ctx.Table()) || (allocOk && dupOk)
      then RegisterSign(old(ctx.Table()), keyId, cb)
      else old(ctx.Table())
  {
    ghost var t0 := ctx.Table();
    var entry := EnsureEntryLocked(ctx, keyId, allocOk, dupOk);
    if entry != null {
      ghost var before := ctx.Table();
      assert RegisterSign(before, keyId, cb) == RegisterSign(t0, keyId, cb);
      SetSlot(ctx, entry, Some(cb), entry.decryptCb);
    }
  }

  /** KeylessRegisterDecryptCallback: the decrypt counterpart of RegisterSignCallback. */
  method RegisterDecryptCallback(st: ProviderState, keyId: Option<string>, cb: Option<RemoteDecryptCb>,
                                 allocOk: bool, dupOk: bool)
    returns (error: Option<string>)
    requires st.providerCtx != null ==> st.providerCtx.Valid()
    modifies st.providerCtx, if st.providerCtx == null then [] else st.providerCtx.nodes
    ensures st.providerCtx != null ==> st.providerCtx.Valid()
    ensures error == if keyId.None? || cb.None? then Some(INVALID_DECRYPT_PARAMS)
                     else if st.providerCtx == null then Some(DECRYPT_CTX_NOT_READY)
                     else None
    ensures error.None? ==>
      st.providerCtx.Table() ==
        if keyId.value in old(st.providerCtx.Table()) || (allocOk && dupOk)
        then RegisterDecrypt(old(st.providerCtx.Table()), keyId.value, cb.value)
        else old(st.providerCtx.Table())
    ensures error.Some? && st.providerCtx != null ==>
      st.providerCtx.Table() == old(st.providerCtx.Table())
  {
    if keyId.None? || cb.None? {
      return Some(INVALID_DECRYPT_PARAMS);
    }
    var ctx := st.providerCtx;
    if ctx == null {
      return Some(DECRYPT_CTX_NOT_READY);
    }
    SetDecryptLocked(ctx, keyId.value, cb.value, allocOk, dupOk);
    return None;
  }

  /**
   * The part of KeylessRegisterDecryptCallback done under the write lock: the
   * key's entry, made if needed, gets the callback; nothing changes when
   * the entry cannot be allocated.
   */
  method SetDecryptLocked(ctx: ProviderCtx, keyId: string, cb: RemoteDecryptCb, allocOk: bool, dupOk: bool)
    requires ctx.Valid()
    modifies ctx, ctx.nodes
    ensures ctx.Valid()
    ensures ctx.Table() ==
      if keyId in old(ctx.Table()) || (allocOk && dupOk)
      then RegisterDecrypt(old(ctx.Table()), keyId, cb)
      else old(ctx.Table())
  {
    ghost var t0 := ctx.Table();
    var entry := EnsureEntryLocked(ctx, keyId, allocOk, dupOk);
    if entry != null {
      ghost var before := ctx.Table();
      assert RegisterDecrypt(before, keyId, cb) == RegisterDecrypt(t0, keyId, cb);
      SetSlot(ctx, entry, entry.signCb, Some(cb));
    }
  }

  // ------------------------------------------------- provider lifecycle

  /**
   * KeylessProviderNewctx: NULL, with the global left alone, when the
   * context cannot be allocated or its lock cannot be initialised; else an
   * empty registry, published as the global provider context.
   */
  method ProviderNewctx(st: ProviderState, allocOk: bool, lockOk: bool) returns (ctx: ProviderCtx?)
    modifies st
    ensures ctx == null <==> !(allocOk && lockOk)
    ensures ctx == null ==> st.providerCtx == old(st.providerCtx)
    ensures ctx != null ==> fresh(ctx) && ctx.Valid() && ctx.Table() == map[] && st.providerCtx == ctx
    ensures st.threadDynMsg == old(st.threadDynMsg) && st.threadDynMsgSet == old(st.threadDynMsgSet)
  {
    if !allocOk || !lockOk {
      return null;
    }
    ctx := new ProviderCtx();
    st.providerCtx := ctx;
  }

  /**
   * KeylessProviderFreectx: empties the context's registry and clears
   * the published provider context only when it is this one.
   */
  method ProviderFreectx(st: ProviderState, ctx: ProviderCtx?)
    requires ctx != null ==> ctx.Valid()
    modifies st, ctx
    ensures ctx != null ==> ctx.Valid() && ctx.Table() == map[]
    ensures st.providerCtx == if ctx != null && old(st.providerCtx) == ctx then null else old(st.providerCtx)
    ensures st.threadDynMsg == old(st.threadDynMsg) && st.threadDynMsgSet == old(st.threadDynMsgSet)
  {
    if ctx == null {
      return;
    }
    ghost var released := ClearCallbacks(ctx);
    if st.providerCtx == ctx {
      st.providerCtx := null;
    }
  }

  /** The algorithm tables the provider offers. */
  datatype AlgorithmTable = KeymgmtAlgorithms | SignatureAlgorithms | AsymcipherAlgorithms

  /** KeylessQuery: the table for key management, signature and asymmetric cipher; nothing else. */
  function Query(operationId: int): (r: Option<AlgorithmTable>)
    ensures r.Some? <==> operationId in {OP_KEYMGMT, OP_SIGNATURE, OP_ASYM_CIPHER}
    ensures r == Some(KeymgmtAlgorithms) <==> operationId == OP_KEYMGMT
    ensures r == Some(SignatureAlgorithms) <==> operationId == OP_SIGNATURE
    ensures r == Some(AsymcipherAlgorithms) <==> operationId == OP_ASYM_CIPHER
  {
    if operationId == OP_KEYMGMT then Some(KeymgmtAlgorithms)
    else if operationId == OP_SIGNATURE then Some(SignatureAlgorithms)
    else if operationId == OP_ASYM_CIPHER then Some(AsymcipherAlgorithms)
    else None
  }

  /**
   * KeylessProviderInit: hands out the dispatch table and a fresh context;
   * fails exactly when the context cannot be made.
   */
  method ProviderInit(st: ProviderState, allocOk: bool, lockOk: bool)
    returns (r: int, provctx: ProviderCtx?)
    modifies st
    ensures r == 1 <==> provctx != null
    ensures r == 0 || r == 1
    ensures r == 1 <==> allocOk && lockOk
    ensures provctx != null ==> fresh(provctx) && provctx.Table() == map[] && st.providerCtx == provctx
    ensures r == 0 ==> st.providerCtx == old(st.providerCtx)
  {
    provctx := ProviderNewctx(st, allocOk, lockOk);
    r := if provctx == null then 0 else 1;
  }

  /**
   * DYN_CJ_TLS_InitEmbeddedKeylessProvider: succeeds exactly when the
   * provider is added as a built-in and then loads; whether the default
   * provider loads afterwards does not matter.
   */
  function InitEmbeddedKeylessProvider(addBuiltinResult: int, keylessLoaded: bool, defaultLoaded: bool): (ok: bool)
    ensures ok ==> addBuiltinResult == 1 && keylessLoaded
    ensures addBuiltinResult == 1 && keylessLoaded ==> ok
  {
    if addBuiltinResult != 1 then false
    else if !keylessLoaded then false
    else true
  }

  /** The result never depends on the default provider. */
  lemma DefaultProviderIgnored(addBuiltinResult: int, keylessLoaded: bool)
    ensures InitEmbeddedKeylessProvider(addBuiltinResult, keylessLoaded, false)
         == InitEmbeddedKeylessProvider(addBuiltinResult, keylessLoaded, true)
  {
  }
}
