# KeyServerLocal — a Dafny model of the local key-server-half store

The local key server of the encrypted filesystem keeps the *server halves*
of split keys in one embedded leveldb instance. There are two families of
entries:

- **block shares** (`BlockCryptKeyServerHalf`) are stored under the raw bytes
  of the `BlockID`;
- **TLF shares** (`TLFCryptKeyServerHalf`) are stored under the codec
  encoding of the tuple `serverHalfID{DirID, KeyGen, CryptPublicKey}`.

Each read hands back the stored bytes only if their length equals the
share width. Otherwise it fails. It never truncates or pads.

The model is functional:

- `Types`: byte strings, identifiers, the two fixed-width share types
  (subset types of `seq<bv8>`), the error kinds (`NotFound`,
  `LengthMismatch`, `EncodingError`) and `Result`/`Outcome`.
- `LevelDB`: the store as `map<seq<bv8>, seq<bv8>>` with point
  `Get`/`Put`/`Delete`. A freshly opened in-memory instance is the empty map.
- `KeyServerLocal`: the six operations of the component. Each maps a store
  and arguments to a result. A mutating call returns an `Effect`, which holds
  the new store and the error it returned. The codec is a parameter of type
  `ServerHalfID -> EncodeResult`, so it is deterministic but may fail.
  Injectivity is the ghost predicate `Injective`, assumed only by the lemmas
  that need it.
- `KeyServerProperties`: lemmas relating several calls. They cover
  overwrite, idempotence, TLF tuple distinctness, and the aliasing between
  block IDs and encoded tuples.
- `Session`: a sequence of calls on one server, applied in order to the
  store (`Run`). Its lemmas cover last-write-wins and frame conditions over
  whole sessions, commutation of calls on different keys, and the store
  invariant that every value has share width.

The server's two fields (codec and db) are passed as separate arguments.
The block operations never touch the codec, so their contracts and lemmas
mention only the store.

Both share widths are taken to be 32 bytes. This is an assumption: the
share types are defined outside libkbfs/key_server_local.go, and that file
only compares against `len(serverHalf.ServerHalf)`.

The identifiers (`BlockID`, `DirID`, `CryptPublicKey`) are fixed-width in
the source. Here they are arbitrary byte strings, so every
statement also holds for the fixed-width case.

Nothing in the code keeps encoded tuples apart from raw block IDs. Both
families share one namespace with no prefix (libkbfs/key_server_local.go:72
and :117). `BlockPutAliasesTLF`, `TLFPutAliasesBlock` and
`BlockDeleteErasesAliasedTLF` prove the consequences of such a collision
instead of assuming there is none.

## Model

| member | source | states |
|---|---|---|
| KeyServerLocal.GetBlockCryptKeyServerHalf | libkbfs/key_server_local.go:56-66 | succeeds exactly when the block ID's bytes are stored with share width, and then returns those bytes unchanged; a miss is NotFound; a stored value of any other length is LengthMismatch carrying the expected and actual widths |
| KeyServerLocal.PutBlockCryptKeyServerHalf | libkbfs/key_server_local.go:71-73 | never fails; a following block get on the same ID returns exactly the share put; every other key keeps its entry |
| KeyServerLocal.DeleteBlockCryptKeyServerHalf | libkbfs/key_server_local.go:77-79 | never fails; a following block get on the ID is NotFound; deleting an absent ID leaves the store as it was; every other key keeps its entry |
| KeyServerLocal.GetTLFCryptKeyServerHalf | libkbfs/key_server_local.go:81-106 | an encoding failure is returned as EncodingError; otherwise it succeeds exactly when the encoded tuple is stored with share width, returning those bytes unchanged, with NotFound on a miss and LengthMismatch on a wrong width |
| KeyServerLocal.PutTLFCryptKeyServerHalf | libkbfs/key_server_local.go:110-118 | an encoding failure is returned and the store is untouched; otherwise it succeeds, a following TLF get on the same tuple returns the share put, and every key other than the encoding keeps its entry |
| KeyServerLocal.TLFKeyInjective | libkbfs/key_server_local.go:81-91 | with an injective codec, two (folder, generation, device key) tuples that both encode get the same storage key only if all three fields are equal |
| KeyServerLocal.GetMacPublicKey | libkbfs/key_server_local.go:120-123 | always succeeds with the all-zero MAC key whatever the user, and takes no store so it cannot change one |
| KeyServerProperties.PutBlockIdempotent | libkbfs/key_server_local.go:71-73 | repeating a block put gives the same store and outcome as doing it once |
| KeyServerProperties.PutBlockLastWins | libkbfs/key_server_local.go:71-73 | of two block puts at one ID the second determines the store completely |
| KeyServerProperties.DeleteUndoesPut | libkbfs/key_server_local.go:71-79 | a delete after a put at the same ID leaves the store the delete alone would leave |
| KeyServerProperties.DeleteBlockIdempotent | libkbfs/key_server_local.go:77-79 | a second delete of the same ID succeeds and changes nothing |
| KeyServerProperties.PutTLFIdempotent | libkbfs/key_server_local.go:110-118 | repeating a TLF put gives the same store and outcome, on both the success and the encoding-failure path |
| KeyServerProperties.PutTLFLastWins | libkbfs/key_server_local.go:110-118 | of two TLF puts at one tuple the second determines store and outcome |
| KeyServerProperties.TLFTuplesDistinct | libkbfs/key_server_local.go:81-118 | with an injective codec a TLF put on one tuple leaves the get on every tuple differing in any component unchanged |
| KeyServerProperties.TLFCollisionWithoutInjectivity | libkbfs/key_server_local.go:91-117 | with a non-injective codec a put on generation 1 is read back under generation 2, so the injectivity hypothesis cannot be dropped |
| KeyServerProperties.BlockPutAliasesTLF | libkbfs/key_server_local.go:72-117 | a block put whose ID bytes equal a tuple's encoding overwrites that TLF entry, and the block share is then read back as the TLF share |
| KeyServerProperties.TLFPutAliasesBlock | libkbfs/key_server_local.go:72-117 | a TLF put is read back by the block getter of an ID whose bytes equal the tuple's encoding |
| KeyServerProperties.BlockDeleteErasesAliasedTLF | libkbfs/key_server_local.go:78-96 | a block delete on an aliasing ID makes the TLF get miss |
| KeyServerProperties.BlockOpsPreserveUnaliasedTLF | libkbfs/key_server_local.go:72-96 | block puts and deletes leave the TLF get of every tuple whose encoding differs from the ID's bytes unchanged |
| KeyServerProperties.FreshServerIsEmpty | libkbfs/key_server_local.go:48-52 | on a fresh in-memory server every block get and every encodable TLF get is NotFound |
| KeyServerProperties.Scenario | libkbfs/key_server_local.go:56-118 | a sample session: block "b1" with 32 zero bytes and tuple ("d1", 1, "k1") with 32 bytes 0xFF both read back; ("d1", 2, "k1") misses when its encoding collides with neither stored key |
| Session.Apply | libkbfs/key_server_local.go:56-123 | a get or the MAC lookup leaves the store unchanged; a call keeps every key it does not write |
| Session.Run | libkbfs/key_server_local.go:18-21 | a session yields one reply per call, and a session of reads only leaves the store unchanged |
| Session.RunAppend | libkbfs/key_server_local.go:18-21 | running two sessions back to back is running their concatenation |
| Session.ReplyAt | libkbfs/key_server_local.go:18-21 | the reply to the i-th call is what that call returns on the store its predecessors left; there is no cache |
| Session.RunFrame | libkbfs/key_server_local.go:72-117 | a key written by no call of a session keeps its entry through it |
| Session.LastBlockPutWins | libkbfs/key_server_local.go:56-72 | after a block put and any later calls that do not write that key, a block get returns the share put |
| Session.DeleteStaysDeleted | libkbfs/key_server_local.go:56-78 | after a block delete and any later calls that do not write that key, a block get is NotFound |
| Session.LastTLFPutWins | libkbfs/key_server_local.go:89-117 | after a TLF put that encodes and any later calls that do not write its key, a TLF get on the tuple returns the share put |
| Session.Commute | libkbfs/key_server_local.go:56-123 | two calls that address different keys return the same replies and leave the same store in either order |
| Session.MacLookupInvisible | libkbfs/key_server_local.go:120-123 | a MAC key lookup inserted anywhere in a session answers with the zero key and leaves the final store and every other reply as in the session without it |
| Session.ApplyWellFormed | libkbfs/key_server_local.go:56-117 | on a store whose values all have share width, a call keeps that so and never reports LengthMismatch |
| Session.RunPreservesWellFormed | libkbfs/key_server_local.go:71-117 | a session keeps every stored value at share width |
| Session.FreshSessionNeverMismatches | libkbfs/key_server_local.go:61-103 | no call of a session started on a fresh store reports LengthMismatch, so that error can only come from bytes written by something other than this server |

## Left out

- Construction (`newKeyServerLocalWithStorage`, `NewKeyServerLocal`, `NewKeyServerMemory`, libkbfs/key_server_local.go:25-52): opening leveldb on a file or in memory is I/O. A fresh in-memory server is modelled as the empty store `LevelDB.Empty`. Open failures are not modelled.
- leveldb internals: compression options, durability and I/O failures. Gets report only NotFound, and puts and deletes always succeed. A storage I/O error is not modelled.
- Deleting an absent key succeeds and changes nothing. This is goleveldb's behaviour, not this file's, and the model assumes it in `LevelDB.Delete`.
- The concrete codec: its encoding is not part of this model. It is an arbitrary total function that may fail, and injectivity is an explicit hypothesis.
- Error text: the formatted messages are not modelled. `LengthMismatch` keeps the expected and actual lengths that the message reports.
- Concurrency: the model is sequential. Atomicity of single-key operations is leveldb's concern.
- The definitions of `BlockID`, `DirID`, `CryptPublicKey`, the share types and `MacPublicKey` are not part of this model. Identifier widths are unconstrained. Both share widths and the MAC key width are assumed to be 32 bytes, and the zero MAC key is the all-zero key of that width.
- The `KeyOps` interface and any remote implementation of it are not modelled. Only the local implementation is.
