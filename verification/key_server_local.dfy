/** The local key server: maps block IDs and (folder, generation, device key)
    tuples onto one flat byte-keyed store, and checks the width of every share
    it reads back. The codec that serialises tuples is a parameter. */
module KeyServerLocal {
  import opened Types
  import LevelDB

  /** The composite identifier of a TLF key server half. */
  datatype ServerHalfID = ServerHalfID(id: DirID, keyGen: KeyGen, cryptPublicKey: CryptPublicKey)

  datatype EncodeResult = Encoded(bytes: Bytes) | EncodeFailed(err: CodecError)

  /** Serialisation of composite identifiers into storage keys. Deterministic
      by construction; it may fail. */
  type Codec = ServerHalfID -> EncodeResult

  /** Distinct identifiers that both encode get distinct storage keys. */
  ghost predicate Injective(codec: Codec) {
    forall a, b :: codec(a).Encoded? && codec(b).Encoded? && codec(a).bytes == codec(b).bytes ==> a == b
  }

  /** What a mutating operation leaves behind: the store after the call and
      the error it returned. */
  datatype Effect = Effect(db: LevelDB.Store, outcome: Outcome)

  /** The storage key of the TLF share for (id, keyGen, cryptPublicKey). */
  function TLFKey(codec: Codec, id: DirID, keyGen: KeyGen, cryptPublicKey: CryptPublicKey): EncodeResult {
    codec(ServerHalfID(id, keyGen, cryptPublicKey))
  }

  /** With an injective codec, two tuples that both encode share a storage key
      only if they agree in folder, generation and device key. */
  lemma TLFKeyInjective(codec: Codec, d1: DirID, g1: KeyGen, k1: CryptPublicKey,
                        d2: DirID, g2: KeyGen, k2: CryptPublicKey)
    requires Injective(codec)
    requires TLFKey(codec, d1, g1, k1).Encoded? && TLFKey(codec, d2, g2, k2).Encoded?
    requires TLFKey(codec, d1, g1, k1).bytes == TLFKey(codec, d2, g2, k2).bytes
    ensures d1 == d2 && g1 == g2 && k1 == k2
  {
  }

  /** Reads the block share stored under the raw bytes of `id`. */
  function GetBlockCryptKeyServerHalf(db: LevelDB.Store, id: BlockID): (r: Result<BlockCryptKeyServerHalf>)
    ensures r.Ok? <==> id.bytes in db && |db[id.bytes]| == BlockServerHalfWidth
    ensures r.Ok? ==> r.value.serverHalf == db[id.bytes]
    ensures id.bytes !in db ==> r == Err(NotFound)
    ensures id.bytes in db && |db[id.bytes]| != BlockServerHalfWidth ==>
              r == Err(LengthMismatch(BlockServerHalfWidth, |db[id.bytes]|))
  {
    match LevelDB.Get(db, id.bytes)
    case Err(e) => Err(e)
    case Ok(data) =>
      if |data| != BlockServerHalfWidth then Err(LengthMismatch(BlockServerHalfWidth, |data|))
      else Ok(BlockCryptKeyServerHalf(data))
  }

  /** Stores the share's bytes under the raw bytes of `id`, replacing any previous entry. */
  function PutBlockCryptKeyServerHalf(db: LevelDB.Store, id: BlockID, serverHalf: BlockCryptKeyServerHalf): (r: Effect)
    ensures r.outcome == Pass
    ensures GetBlockCryptKeyServerHalf(r.db, id) == Ok(serverHalf)
    ensures forall k :: k != id.bytes ==> LevelDB.SameAt(db, r.db, k)
  {
    Effect(LevelDB.Put(db, id.bytes, serverHalf.serverHalf), Pass)
  }

  /** Removes the entry stored under the raw bytes of `id`, if any. */
  function DeleteBlockCryptKeyServerHalf(db: LevelDB.Store, id: BlockID): (r: Effect)
    ensures r.outcome == Pass
    ensures GetBlockCryptKeyServerHalf(r.db, id) == Err(NotFound)
    ensures id.bytes !in db ==> r.db == db
    ensures forall k :: k != id.bytes ==> LevelDB.SameAt(db, r.db, k)
  {
    Effect(LevelDB.Delete(db, id.bytes), Pass)
  }

  /** Reads the TLF share stored under the encoding of (id, keyGen, cryptPublicKey). */
  function GetTLFCryptKeyServerHalf(codec: Codec, db: LevelDB.Store, id: DirID, keyGen: KeyGen,
                                    cryptPublicKey: CryptPublicKey): (r: Result<TLFCryptKeyServerHalf>)
    ensures var key := TLFKey(codec, id, keyGen, cryptPublicKey);
            key.EncodeFailed? ==> r == Err(EncodingError(key.err))
    ensures var key := TLFKey(codec, id, keyGen, cryptPublicKey);
            r.Ok? <==> key.Encoded? && key.bytes in db && |db[key.bytes]| == TLFServerHalfWidth
    ensures var key := TLFKey(codec, id, keyGen, cryptPublicKey);
            r.Ok? ==> key.Encoded? && r.value.serverHalf == db[key.bytes]
    ensures var key := TLFKey(codec, id, keyGen, cryptPublicKey);
            key.Encoded? && key.bytes !in db ==> r == Err(NotFound)
    ensures var key := TLFKey(codec, id, keyGen, cryptPublicKey);
            key.Encoded? && key.bytes in db && |db[key.bytes]| != TLFServerHalfWidth ==>
              r == Err(LengthMismatch(TLFServerHalfWidth, |db[key.bytes]|))
  {
    match TLFKey(codec, id, keyGen, cryptPublicKey)
    case EncodeFailed(e) => Err(EncodingError(e))
    case Encoded(idData) =>
      match LevelDB.Get(db, idData)
      case Err(e) => Err(e)
      case Ok(data) =>
        if |data| != TLFServerHalfWidth then Err(LengthMismatch(TLFServerHalfWidth, |data|))
        else Ok(TLFCryptKeyServerHalf(data))
  }

  /** Stores the share's bytes under the encoding of (id, keyGen, cryptPublicKey),
      replacing any previous entry; an encoding failure leaves the store alone. */
  function PutTLFCryptKeyServerHalf(codec: Codec, db: LevelDB.Store, id: DirID, keyGen: KeyGen,
                                    cryptPublicKey: CryptPublicKey, serverHalf: TLFCryptKeyServerHalf): (r: Effect)
    ensures var key := TLFKey(codec, id, keyGen, cryptPublicKey);
            key.EncodeFailed? ==> r == Effect(db, Fail(EncodingError(key.err)))
    ensures var key := TLFKey(codec, id, keyGen, cryptPublicKey);
            key.Encoded? ==> r.outcome == Pass && GetTLFCryptKeyServerHalf(codec, r.db, id, keyGen, cryptPublicKey) == Ok(serverHalf)
    ensures var key := TLFKey(codec, id, keyGen, cryptPublicKey);
            key.Encoded? ==> forall k :: k != key.bytes ==> LevelDB.SameAt(db, r.db, k)
  {
    match TLFKey(codec, id, keyGen, cryptPublicKey)
    case EncodeFailed(e) => Effect(db, Fail(EncodingError(e)))
    case Encoded(idData) => Effect(LevelDB.Put(db, idData, serverHalf.serverHalf), Pass)
  }

  /** The local server has no MAC keys: every lookup succeeds with the zero key. */
  function GetMacPublicKey(uid: UID): (r: Result<MacPublicKey>)
    ensures r.Ok? && r.value == ZeroMacPublicKey()
  {
    Ok(ZeroMacPublicKey())
  }
}
