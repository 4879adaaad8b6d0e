# Keyless TLS provider — a Dafny model

The keyless provider is an OpenSSL 3 provider, embedded in the TLS layer of
the standard library (`src/stdx/net/tls/native`). It lets a TLS server work
with an RSA or EC key whose private half lives somewhere else. The provider
keeps only the public material of a key: the RSA modulus and exponent, or
the EC point and curve name. Private operations go to callbacks that the
application registers per key id. Those callbacks reach a remote signer or
decrypter.

This project models the provider's core in Dafny and proves properties of
that model:

- **`CallbackRegistry`** (`provider.c`). The global provider context
  holds a singly linked list of callback entries. The model covers finding
  an entry, finding or creating one, registering and looking up callbacks,
  and clearing the list. It also covers the per-thread diagnostic record,
  context creation and release, the operation query, and provider
  initialisation. The list is a `class` with a ghost sequence of its
  entries. Each method is proved against a map from key id to callbacks.
- **`KeyManagement`** (`provider_keymgt.c`). The model covers the
  reference-counted key object (`KeylessKey`), the three import paths (RSA
  parameters, EC point and group, key id) and the has and match checks. It
  also covers the derived parameters the key reports: bits, security bits,
  maximum signature size and default digest. OpenSSL parameter arrays are
  sequences of `Param` records. The bignum and octet-string conversions are
  explicit byte-order functions (`ByteOrder`).
- **`AsymCipher`**, **`Pkcs1`** and **`CtMask`**
  (`provider_asymcipher.c`). The model covers the asymmetric-cipher
  context. It covers the RSA decrypt operation, which asks the remote
  callback to decrypt the TLS pre-master secret. It covers the
  constant-time EME-PKCS1-v1_5 decoding (section 7.2.2 of RFC 8017). If
  the padding is bad, the output keeps random bytes (section 7.4.7.1 of
  RFC 5246). The mask helpers are modelled on 32-bit words (`bv32`) and
  64-bit `size_t` values (`SizeTBits.SizeT`, with its bit operations
  written out).
- **`ProviderHelper`** (`provider_helper.c`). The model covers
  case-insensitive curve-name lookup and the typed key getters. It covers
  the certificate id: the SHA-256 of the issuer and serial encodings,
  written as lower-case hex, with a proved hex round trip. It also covers
  the cached log level.
- **`KeylessTypes`** (`provider.h`). The shared records and constants.

Everything the provider gets from outside appears as a parameter of the
operation that uses it. This covers allocation success, lock
initialisation, the random generator's output, the remote callback's reply,
bignum conversion success, the SHA-256 function and the environment
variable. The model does not fix what any of these returns. One assumption
about side effects remains: a failed random generator writes nothing (see
"## Left out").

## Model

| member | source | states |
|---|---|---|
| CtMask.CtIsZero8 | src/stdx/net/tls/native/provider_asymcipher.c:26-32 | the result is a full mask (0 or all ones), and it is all ones exactly when the low byte of x is zero |
| CtMask.CtEq8 | src/stdx/net/tls/native/provider_asymcipher.c:48-51 | a full mask that is all ones exactly when the low bytes of a and b are equal |
| CtMask.CtIsZeroSizeT | src/stdx/net/tls/native/provider_asymcipher.c:66-71 | a full mask that is all ones exactly when the 64-bit x is zero |
| CtMask.CtEqSizeT | src/stdx/net/tls/native/provider_asymcipher.c:87-90 | a full mask that is all ones exactly when a == b |
| CtMask.CtLtSizeT | src/stdx/net/tls/native/provider_asymcipher.c:107-112 | all ones exactly when a - b, wrapped to 64 bits, has its top bit set; for operands below 2^63 that means exactly a < b |
| CtMask.CtSelectSizeT | src/stdx/net/tls/native/provider_asymcipher.c:133-138 | yields a when the mask's low bit is set and b otherwise |
| Pkcs1.EncodeConforms | src/stdx/net/tls/native/provider_asymcipher.c:163-217 | round trip: an encoding 0x00 0x02 PS 0x00 M, with PS at least 8 nonzero bytes, is accepted and decodes to M |
| Pkcs1.ConformingIsEncoding | src/stdx/net/tls/native/provider_asymcipher.c:173-206 | converse: every accepted block is exactly such an encoding of its message |
| Pkcs1.HeaderMask | src/stdx/net/tls/native/provider_asymcipher.c:173-179 | the header mask is all ones exactly when the block starts 0x00 0x02 |
| Pkcs1.ScanForSeparator | src/stdx/net/tls/native/provider_asymcipher.c:183-193 | finds the first zero byte after the header, and scans all emLen - 2 bytes whatever the data |
| Pkcs1.ScanStep | src/stdx/net/tls/native/provider_asymcipher.c:188-192 | one scan step: while still looking, a zero byte records its index, sets zeroFound and stops the search; any other step leaves all three unchanged |
| Pkcs1.LengthMasks | src/stdx/net/tls/native/provider_asymcipher.c:198-199 | psTooShort is all ones exactly when the separator lies before index 10; msgLenBad exactly when the message length differs from outLen |
| Pkcs1.CombineMasks | src/stdx/net/tls/native/provider_asymcipher.c:201-203 | the validity mask is all ones exactly when the header is right, a separator was found, the padding is long enough and the length matches |
| Pkcs1.ApplyMask | src/stdx/net/tls/native/provider_asymcipher.c:205-208 | a valid mask selects the message index and the byte masks 0xFF/0x00; an invalid one selects the fallback index and 0x00/0xFF |
| Pkcs1.CheckEncoding | src/stdx/net/tls/native/provider_asymcipher.c:173-206 | the validity mask is all ones exactly when the block is a well-formed encoding with an outLen-byte message; the read index is then emLen - outLen |
| Pkcs1.MaskedCopy | src/stdx/net/tls/native/provider_asymcipher.c:205-214 | with the valid mask, out[0..outLen) becomes the message bytes; with the invalid mask, out stays as it was |
| Pkcs1.Pkcs1V15Unpad | src/stdx/net/tls/native/provider_asymcipher.c:163-217 | returns 1 exactly when both buffers exist and the block conforms; on 1, out holds the message; on 0, out is unchanged; the scan always covers emLen - 2 bytes |
| AsymCipher.NewCtx | src/stdx/net/tls/native/provider_asymcipher.c:224-229 | a fresh zeroed context (no key, type 0, zeroed diagnostic record), or NULL when allocation fails |
| AsymCipher.FreeCtx | src/stdx/net/tls/native/provider_asymcipher.c:236-246 | drops one reference to the context's key; the key is released exactly when its count reaches zero; its other fields stay |
| AsymCipher.DupCtx | src/stdx/net/tls/native/provider_asymcipher.c:255-271 | a fresh copy sharing the key, whose count grows by one; NULL and no count change otherwise; the key's other fields stay |
| AsymCipher.DecryptInit | src/stdx/net/tls/native/provider_asymcipher.c:280-295 | the context takes a reference to the key and records its type, keeping its diagnostic record; it returns 1 exactly for an RSA key; the key's other fields stay; NULL arguments change nothing |
| AsymCipher.ModLenIsKeySize | src/stdx/net/tls/native/provider_asymcipher.c:327-333 | the block size is the key size: the modulus length for RSA, the 80-byte bound for EC |
| AsymCipher.AlignKeepsValue | src/stdx/net/tls/native/provider_asymcipher.c:373-382 | as an integer, the block sent is the ciphertext modulo 256^modlen; a ciphertext that fits keeps its value |
| AsymCipher.DecryptRecoversSecret | src/stdx/net/tls/native/provider_asymcipher.c:388-396 | round trip: a reply that is a well-formed encoding of a 48-byte secret yields that secret, whatever the random bytes |
| AsymCipher.RefusedReplyKeepsRandom | src/stdx/net/tls/native/provider_asymcipher.c:391-400 | a refused reply (NULL, or a bad length) never decodes, so the output keeps its random bytes |
| AsymCipher.WriteRandom | src/stdx/net/tls/native/provider_asymcipher.c:357-361 | the first 48 output bytes become the generator's bytes, and the rest is unchanged |
| AsymCipher.ReceiveAndUnpad | src/stdx/net/tls/native/provider_asymcipher.c:388-400 | out[0..48) becomes the pre-master secret of the received block, and success means the block conforms |
| AsymCipher.DecryptBlock | src/stdx/net/tls/native/provider_asymcipher.c:357-407 | fails exactly on allocation failure or a refused empty copy, leaving random bytes; otherwise sends the aligned ciphertext and yields the pre-master secret |
| AsymCipher.Decrypt | src/stdx/net/tls/native/provider_asymcipher.c:321-420 | every early exit, in order, with the output untouched (for a failed RAND_bytes, as far as the generator is taken to write nothing); the size query answers 48; after the random fill the output is the decoded secret or the random bytes, and the callback gets the aligned ciphertext |
| KeyManagement.Locate | src/stdx/net/tls/native/provider_keymgt.c:97-101 | a parameter carrying the key; none exactly when no parameter has it |
| KeyManagement.LocateIsFirst | src/stdx/net/tls/native/provider_keymgt.c:97-98 | the located parameter is the first with its key, so later duplicates are ignored |
| KeyManagement.ImportedBytesDenote | src/stdx/net/tls/native/provider_keymgt.c:103-147 | the stored bytes are the parameter's integer, big-endian, and never longer than the parameter |
| KeyManagement.KeyNew | src/stdx/net/tls/native/provider_keymgt.c:30-38 | a fresh zeroed key (no type, no buffers, all lengths 0) with one reference, carrying a copy of the thread's diagnostic record; NULL when allocation fails |
| KeyManagement.KeyDup | src/stdx/net/tls/native/provider_keymgt.c:41-47 | the same key, with one more reference and all else unchanged |
| KeyManagement.KeyUpRef | src/stdx/net/tls/native/provider_keymgt.c:65-73 | 0 for NULL; otherwise one more reference and 1 |
| KeyManagement.KeyFree | src/stdx/net/tls/native/provider_keymgt.c:14-28 | one reference fewer; released exactly when the count drops to zero or below |
| KeyManagement.Load | src/stdx/net/tls/native/provider_keymgt.c:245-254 | a reference of pointer size yields the key with one more reference; any other size yields NULL and no change; the key's other fields stay |
| KeyManagement.KeyGetType | src/stdx/net/tls/native/provider_keymgt.c:50-54 | the key's type tag, 0 for NULL |
| KeyManagement.KeyGetGroup | src/stdx/net/tls/native/provider_keymgt.c:55-59 | the group name of an EC key, and none for any other key |
| KeyManagement.KeyGetId | src/stdx/net/tls/native/provider_keymgt.c:60-64 | the key id, none for NULL |
| KeyManagement.Strndup | src/stdx/net/tls/native/provider_keymgt.c:151-168 | the copy is the longest NUL-free prefix of at most n bytes; it exists only when allocation succeeds, and always then for a nonempty first byte; copying a whole buffer gives CopiedString of it |
| KeyManagement.CStrLen | src/stdx/net/tls/native/provider_keymgt.c:152-155 | the length of the C string in the first n bytes: those bytes are nonzero and it stops at n or at a NUL |
| KeyManagement.CStrLenUnique | src/stdx/net/tls/native/provider_keymgt.c:152-155 | any length with those two properties is that length |
| KeyManagement.CopiedStringWhole | src/stdx/net/tls/native/provider_keymgt.c:151-168 | a NUL-free nonempty buffer is copied whole when allocation succeeds; one starting with NUL gives the empty string only when an empty copy is allowed |
| KeyManagement.ImportRsa | src/stdx/net/tls/native/provider_keymgt.c:91-149 | returns 1 exactly when n and e are both present, both bignums or both octet strings, and both copies allocate; then the key is RSA with their big-endian bytes; a missing or mixed pair leaves the key untouched; once the pair is accepted the key is RSA even if a copy fails, with no buffers; the bignum path sets both lengths to the byte counts of N and E also on failure, the octet path keeps the old lengths on failure |
| KeyManagement.StoreBignums | src/stdx/net/tls/native/provider_keymgt.c:104-124 | the key becomes RSA and its lengths become the byte counts of N and E whether or not the copies allocate; with both allocations it holds the minimal big-endian bytes of N and E, without them no buffers; nothing else changes |
| KeyManagement.StoreOctets | src/stdx/net/tls/native/provider_keymgt.c:126-148 | the key becomes RSA; with both allocations it holds the N and E octets verbatim with their lengths, without them no buffers and the old lengths; nothing else changes |
| KeyManagement.ImportEc | src/stdx/net/tls/native/provider_keymgt.c:170-188 | returns 1 exactly when a public point is present and its copy allocates; once a point is present the key is EC with the point's length, and holds the point only if it allocated; on success a given group name is stored as the C-string copy of its bytes (none if that copy fails, which does not fail the import), and the group name is kept otherwise |
| KeyManagement.ImportKeyId | src/stdx/net/tls/native/provider_keymgt.c:190-198 | without a key-id parameter the id is kept and the result is 1; with one, the id becomes the C-string copy of its bytes and the result is 1 exactly when that copy exists |
| KeyManagement.Import | src/stdx/net/tls/native/provider_keymgt.c:201-225 | without the public bit nothing changes and it succeeds; with it, 1 exactly when the RSA import (N given) or the EC import (no N) succeeds and the key id is absent or copied; on success the key holds the imported N and E, or the point and the copied group name, and the C-string copy of the id, and has its public part; in every case the reference count and diagnostic record stay, each path leaves the other key type's fields and an absent id alone, and a failed sub-import leaves the partial classification that sub-import makes (PublicImportFrame) |
| KeyManagement.ImportPublic | src/stdx/net/tls/native/provider_keymgt.c:207-222 | with neither N nor a point nothing changes and it fails; otherwise 1 exactly when the RSA import (N given) or EC import succeeds and the id is absent or copied; on success the key has its public part, the imported N and E or point, the copied group name and the copied id; whatever the result, the frame PublicImportFrame: reference count and diagnostic record kept, the other path's fields and an absent id kept, a refused pair or missing point changes nothing, a failed RSA or EC import leaves the id and its partial classification |
| KeyManagement.Has | src/stdx/net/tls/native/provider_keymgt.c:263-280 | 1 exactly for a key that, when the public part is asked for, has its public material |
| KeyManagement.HasIgnoresPrivate | src/stdx/net/tls/native/provider_keymgt.c:263-280 | asking for the private part never changes the answer, since the private half is never held |
| KeyManagement.Match | src/stdx/net/tls/native/provider_keymgt.c:299-342 | 1 exactly for two keys that, when the public part is asked for, have the same type and the same public values (RSA as integers, EC as bytes and group name) |
| KeyManagement.MatchReflexive | src/stdx/net/tls/native/provider_keymgt.c:299-342 | every readable key matches itself |
| KeyManagement.MatchSymmetric | src/stdx/net/tls/native/provider_keymgt.c:299-342 | match does not depend on the order of its arguments |
| KeyManagement.MatchIgnoresLeadingZero | src/stdx/net/tls/native/provider_keymgt.c:310-322 | RSA moduli that differ only by a leading zero byte match |
| KeyManagement.RsaBits | src/stdx/net/tls/native/provider_keymgt.c:391 | the bit count is 8 * nLen truncated to 32 bits |
| KeyManagement.DefaultDigestForKey | src/stdx/net/tls/native/provider_keymgt.c:344-359 | always one of SHA256, SHA384 and SHA512 |
| KeyManagement.RsaSecurityBits | src/stdx/net/tls/native/provider_keymgt.c:395-400 | zero exactly below 2048 bits, per NIST SP 800-57 Part 1 Rev. 5 Table 2 |
| KeyManagement.SecurityBitsMonotone | src/stdx/net/tls/native/provider_keymgt.c:395-400 | a larger modulus never has fewer security bits |
| KeyManagement.DefaultDigestCoversStrength | src/stdx/net/tls/native/provider_keymgt.c:344-359 | for RSA, the default digest's collision strength is at least the key's security bits |
| KeyManagement.DefaultDigestForCurves | src/stdx/net/tls/native/provider_keymgt.c:344-359 | the default digest of an EC key follows its curve: SHA256, SHA384 or SHA512, and SHA256 for an unknown curve |
| KeyManagement.EcMaxSizeCoversSignatures | src/stdx/net/tls/native/provider_keymgt.c:410-421 | the reported maximum size is at least the longest DER ECDSA signature for the curve, and so is the 160-byte fallback |
| KeyManagement.EcMaxSizeValues | src/stdx/net/tls/native/provider_keymgt.c:410-417 | the maximum sizes for P-256, P-384 and P-521 are 74, 106 and 142 bytes |
| KeyManagement.GetRsaParams | src/stdx/net/tls/native/provider_keymgt.c:368-401 | succeeds exactly when the requested bignums convert; then it reports every requested RSA value; on failure at most n was written |
| KeyManagement.GetEcParams | src/stdx/net/tls/native/provider_keymgt.c:402-422 | reports every requested EC value |
| KeyManagement.GetParams | src/stdx/net/tls/native/provider_keymgt.c:361-435 | 1 exactly for a key whose requested bignums convert; then every requested name gets the key's value, and no other name is written |
| KeyManagement.RsaParamsAgree | src/stdx/net/tls/native/provider_keymgt.c:368-401 | an RSA key reports n as its integer, max-size nLen, bits 8 * nLen, and security bits exactly from 2048 bits up |
| KeyManagement.EcMaxSizeReported | src/stdx/net/tls/native/provider_keymgt.c:410-417 | a known curve's reported maximum size covers its DER signatures |
| KeyManagement.RsaQueryOpName | src/stdx/net/tls/native/provider_keymgt.c:474-480 | names RSA for signature and asymmetric cipher, and nothing else |
| KeyManagement.EcQueryOpName | src/stdx/net/tls/native/provider_keymgt.c:487-493 | names ECDSA for signature only |
| KeyManagement.AdvertisedOperationsAreServed | src/stdx/net/tls/native/provider.c:242-256 | every operation a key manager names has an algorithm table in the provider query |
| CallbackRegistry.CopyDynMsg | src/stdx/net/tls/native/provider.c:26-37 | nothing without a destination; the source's record when there is one; otherwise an "all found" record |
| CallbackRegistry.CheckDynMsg | src/stdx/net/tls/native/provider.c:56-65 | passes exactly for a missing record or one with every symbol found |
| CallbackRegistry.CopyPreservesCheck | src/stdx/net/tls/native/provider.c:26-65 | a copied record passes the check exactly when its source does |
| CallbackRegistry.GetThreadDynMsg | src/stdx/net/tls/native/provider.c:51-54 | the thread's record exactly when one was set |
| CallbackRegistry.SetThreadDynMsg | src/stdx/net/tls/native/provider.c:39-49 | reading the slot back gives exactly what was stored, or nothing after a reset |
| CallbackRegistry.RegisterSignLaws | src/stdx/net/tls/native/provider.c:163-181 | after registering, lookup finds the callback; the key's decrypt callback and every other key are untouched |
| CallbackRegistry.RegisterDecryptLaws | src/stdx/net/tls/native/provider.c:183-203 | the same for decrypt callbacks |
| CallbackRegistry.ReRegisterOverwrites | src/stdx/net/tls/native/provider.c:163-181 | registering twice for one key keeps the second callback |
| CallbackRegistry.FindEntryLocked | src/stdx/net/tls/native/provider.c:67-78 | the entry with the key id, NULL exactly when the id is absent or there is no context or key id |
| CallbackRegistry.EnsureEntryLocked | src/stdx/net/tls/native/provider.c:80-100 | the existing entry, or a new empty one at the head; NULL with nothing changed when allocation fails; key ids stay unique |
| CallbackRegistry.ClearCallbacks | src/stdx/net/tls/native/provider.c:102-118 | the registry becomes empty, and one release per former entry |
| CallbackRegistry.LookupSignCb | src/stdx/net/tls/native/provider.c:120-140 | the sign callback registered for the key id, none for no id or no context |
| CallbackRegistry.LookupDecryptCb | src/stdx/net/tls/native/provider.c:142-161 | the decrypt callback registered for the key id, none for no id or no context |
| CallbackRegistry.RegisterSignCallback | src/stdx/net/tls/native/provider.c:163-181 | the error message for a missing id or callback, or a missing context, with no change; otherwise the registry is the old one with the sign callback registered, unless allocation fails |
| CallbackRegistry.RegisterDecryptCallback | src/stdx/net/tls/native/provider.c:183-203 | the same for decrypt callbacks |
| CallbackRegistry.ProviderNewctx | src/stdx/net/tls/native/provider.c:205-221 | NULL exactly on allocation or lock failure, with the global unchanged; otherwise a fresh empty registry published as the global |
| CallbackRegistry.ProviderFreectx | src/stdx/net/tls/native/provider.c:223-235 | empties the registry and withdraws the global only when it is this context |
| CallbackRegistry.Query | src/stdx/net/tls/native/provider.c:242-256 | a table exactly for key management, signature and asymmetric cipher, each its own |
| CallbackRegistry.ProviderInit | src/stdx/net/tls/native/provider.c:266-274 | 1 exactly when the context is made, which is then the global |
| CallbackRegistry.InitEmbeddedKeylessProvider | src/stdx/net/tls/native/provider.c:276-290 | true exactly when the provider is added and loads |
| CallbackRegistry.DefaultProviderIgnored | src/stdx/net/tls/native/provider.c:286-289 | whether the default provider loads never changes the result |
| ProviderHelper.EqualsIgnoreCaseIsFolding | src/stdx/net/tls/native/provider_helper.c:11-30 | ASCII case-insensitive equality is equality after lower-casing both names |
| ProviderHelper.GetEcOrderBitsFromGroup | src/stdx/net/tls/native/provider_helper.c:11-30 | the order bits are 0, 256, 384 or 521, and 0 without a name |
| ProviderHelper.OrderBitsIsTableLookup | src/stdx/net/tls/native/provider_helper.c:11-30 | the order bits are a lookup of the lower-cased name in the curve table |
| ProviderHelper.KeyGetSize | src/stdx/net/tls/native/provider_helper.c:41-58 | nLen for RSA, 80 for EC, and 0 otherwise or for NULL |
| ProviderHelper.KeyGetN | src/stdx/net/tls/native/provider_helper.c:59-63 | the modulus buffer of an RSA key; none for NULL or any other key type |
| ProviderHelper.KeyGetNLen | src/stdx/net/tls/native/provider_helper.c:65-69 | the modulus length of an RSA key; 0 for NULL or any other key type |
| ProviderHelper.KeyGetE | src/stdx/net/tls/native/provider_helper.c:71-75 | the exponent buffer of an RSA key; none for NULL or any other key type |
| ProviderHelper.KeyGetELen | src/stdx/net/tls/native/provider_helper.c:77-81 | the exponent length of an RSA key; 0 for NULL or any other key type |
| ProviderHelper.GettersAgree | src/stdx/net/tls/native/provider_helper.c:59-81 | the getters' buffers have the getters' lengths, and an RSA key's size is its modulus length |
| ProviderHelper.HexRoundTrip | src/stdx/net/tls/native/provider_helper.c:130-136 | decoding the hex form gives back the bytes |
| ProviderHelper.HexRoundTripBack | src/stdx/net/tls/native/provider_helper.c:130-136 | encoding the decoded bytes gives back any lower-case hex string |
| ProviderHelper.WriteHex | src/stdx/net/tls/native/provider_helper.c:130-137 | the 65-byte buffer holds the 64-digit hex of the digest and a NUL |
| ProviderHelper.CertIssuerSerialSha256Hex | src/stdx/net/tls/native/provider_helper.c:92-142 | 1 exactly when the certificate, buffer, both encodings, allocation and digest all succeed; then the hex SHA-256 of issuer and serial; on failure the buffer is unchanged |
| ProviderHelper.GetCertSha256Hex | src/stdx/net/tls/native/provider_helper.c:157-172 | a copy of that hex string with its NUL, exactly when every step succeeds |
| ProviderHelper.CertIdDecodes | src/stdx/net/tls/native/provider_helper.c:157-172 | the certificate id is 64 lower-case hex digits that decode to the SHA-256 digest |
| ProviderHelper.LevelOf | src/stdx/net/tls/native/provider_helper.c:31-39 | on exactly when the variable is set, nonempty and does not start with '0' |
| ProviderHelper.LogLevelCache.Get | src/stdx/net/tls/native/provider_helper.c:31-39 | the first call reads the environment; later calls return the cached level |
| ProviderHelper.ProviderLog | src/stdx/net/tls/native/provider.h:95-101 | a message is emitted exactly when the cached level is on |
| KeylessTypes.TableOfKeys | src/stdx/net/tls/native/provider.h:110-125 | the registry's key ids are exactly the ids of its entries |

## Left out

- The registry's read-write lock and the atomic reference counts. The model is sequential, with one thread. The per-thread diagnostic slot is that one thread's slot.
- `DynMsg`, `HandleError` and the `api.h` interface. `api.h` is not part of this model. The diagnostic record is kept only as far as the provider copies and checks it.
- OpenSSL itself: `OSSL_PARAM` storage, `BIGNUM`, `RAND_bytes`, the secure heap, SHA-256, X.509 and DER encoding. Each appears as a parameter or a plain value.
- `CJ_TLS_GetCertId` (`provider_helper.c:174-184`). It parses DER with OpenSSL, which is foreign.
- The dispatch tables, the gettable-parameter and import-type arrays, the context-parameter stubs, the signature operation and the error-library initialisation.
- The log output itself. Only whether a message is emitted is modelled.
- Use after free. A released key or context is not made unusable in the model.
- KeyManagement.KeyFree: does not model overflow of the C `int` reference count.
- KeyManagement.Match: does not model the `(int)` casts of `nLen` and `eLen` passed to `BN_bin2bn` (`provider_keymgt.c:311-314`). The C cast wraps at 2^31; the model converts the whole buffer, so for a length between 2^31 and 2^63 it compares values the C code does not read.
- KeyManagement.GetParams: does not model the `(int)` casts of `nLen` and `eLen` passed to `BN_bin2bn` (`provider_keymgt.c:371` and `:379`). As for Match, the reported N and E are the whole buffers, also for lengths of 2^31 bytes or more.
- KeyManagement.GetParams: covers only the nine parameter names the provider knows. The results of the `OSSL_PARAM_set_*` calls for other names are ignored, as in the source. A type-mismatch failure of those calls is not modelled.
- KeyManagement.Import: octet-pointer parameters (`OSSL_PARAM_OCTET_PTR`) are not modelled. Bignums are read as unsigned integers, as OpenSSL 3.0 does.
- KeyManagement.Strndup and AsymCipher.DecryptBlock: whether `memcpy_s` accepts a zero-length copy is the parameter `emptyCopyOk`, left open.
- The EC size bound of 80 bytes (`provider_helper.c:41-58`) is below the maximum signature size reported for P-384 and P-521. The model keeps the constant as written.
- AsymCipher.DecryptInit: a second initialisation of the same context does not release the first key's reference. OpenSSL frees an operation context before reusing it, so this is recorded and not claimed as a defect.
- AsymCipher.Decrypt: the context's type tag is never checked, so an EC key decrypts with the 80-byte block size. The model does the same.
- AsymCipher.Decrypt: a failed `RAND_bytes` (`provider_asymcipher.c:357-361`) is taken to write nothing, so that exit is stated with the output unchanged. OpenSSL does not promise this: a generator that fails part-way may leave some of the first 48 bytes written. The model promises nothing more about such a generator.
- AsymCipher.Decrypt: the doc comment says no plaintext is written on error. The code writes the random bytes first, and a later allocation failure returns 0 with them in place. The model follows the code.
- CtMask: the doc comments describe the masks as "1" on success. The code and the model yield a full all-ones word.
- ProviderHelper.CertIssuerSerialSha256Hex: the doc comment states the return values the other way round. The model follows the code: 1 on success.
- ProviderHelper.GetCertSha256Hex: the doc comment (`provider_helper.c:144-156`) calls the result the certificate's SHA-256 fingerprint and says to free it with `free()`. The code hashes the DER issuer followed by the DER serial, and allocates from the secure heap. The model follows the code.
- The decrypt callback is documented as returning 1 or 0, but its type returns a buffer. The model follows the type.
- CallbackRegistry.InitEmbeddedKeylessProvider: the result of loading the "default" provider is ignored, as in the source.
