/** Properties that relate several key server calls: round trips, overwrite,
    idempotence, distinctness of TLF tuples, and the aliasing between the two
    key families that share one flat namespace. */
module KeyServerProperties {
  import opened Types
  import LevelDB
  import opened KeyServerLocal

  /** Repeating a block put leaves the same store as doing it once. */
  lemma PutBlockIdempotent(db: LevelDB.Store, id: BlockID, h: BlockCryptKeyServerHalf)
    ensures var once := PutBlockCryptKeyServerHalf(db, id, h);
            PutBlockCryptKeyServerHalf(once.db, id, h) == once
  {
  }

  /** Of two block puts at the same ID, the second wins outright. */
  lemma PutBlockLastWins(db: LevelDB.Store, id: BlockID, h1: BlockCryptKeyServerHalf, h2: BlockCryptKeyServerHalf)
    ensures PutBlockCryptKeyServerHalf(PutBlockCryptKeyServerHalf(db, id, h1).db, id, h2)
              == PutBlockCryptKeyServerHalf(db, id, h2)
  {
  }

  /** A delete after a put at the same ID erases every trace of the put. */
  lemma DeleteUndoesPut(db: LevelDB.Store, id: BlockID, h: BlockCryptKeyServerHalf)
    ensures DeleteBlockCryptKeyServerHalf(PutBlockCryptKeyServerHalf(db, id, h).db, id)
              == DeleteBlockCryptKeyServerHalf(db, id)
  {
  }

  /** Deleting twice is the same as deleting once, and neither fails. */
  lemma DeleteBlockIdempotent(db: LevelDB.Store, id: BlockID)
    ensures var once := DeleteBlockCryptKeyServerHalf(db, id);
            DeleteBlockCryptKeyServerHalf(once.db, id) == once
  {
  }

  /** Repeating a TLF put leaves the same store and the same outcome. */
  lemma PutTLFIdempotent(codec: Codec, db: LevelDB.Store, t: ServerHalfID, h: TLFCryptKeyServerHalf)
    ensures var once := PutTLFCryptKeyServerHalf(codec, db, t.id, t.keyGen, t.cryptPublicKey, h);
            PutTLFCryptKeyServerHalf(codec, once.db, t.id, t.keyGen, t.cryptPublicKey, h) == once
  {
  }

  /** Of two TLF puts at the same tuple, the second wins outright. */
  lemma PutTLFLastWins(codec: Codec, db: LevelDB.Store, t: ServerHalfID, h1: TLFCryptKeyServerHalf, h2: TLFCryptKeyServerHalf)
    ensures var first := PutTLFCryptKeyServerHalf(codec, db, t.id, t.keyGen, t.cryptPublicKey, h1);
            PutTLFCryptKeyServerHalf(codec, first.db, t.id, t.keyGen, t.cryptPublicKey, h2)
              == PutTLFCryptKeyServerHalf(codec, db, t.id, t.keyGen, t.cryptPublicKey, h2)
  {
  }

  /** With an injective codec, a put on one tuple is invisible to a get on any
      tuple that differs from it in some component. */
  lemma TLFTuplesDistinct(codec: Codec, db: LevelDB.Store, t1: ServerHalfID, t2: ServerHalfID, h: TLFCryptKeyServerHalf)
    requires Injective(codec)
    requires t1 != t2
    ensures var after := PutTLFCryptKeyServerHalf(codec, db, t1.id, t1.keyGen, t1.cryptPublicKey, h).db;
            GetTLFCryptKeyServerHalf(codec, after, t2.id, t2.keyGen, t2.cryptPublicKey)
              == GetTLFCryptKeyServerHalf(codec, db, t2.id, t2.keyGen, t2.cryptPublicKey)
  {
  }

  /** Without injectivity the distinctness fails: a codec that sends every
      tuple to the same key lets a put on one generation be read back under
      another. */
  lemma TLFCollisionWithoutInjectivity(h: TLFCryptKeyServerHalf)
    ensures var codec: Codec := _ => Encoded([1]);
            var d := DirID([0x64, 0x31]);
            var k := CryptPublicKey([0x6b, 0x31]);
            var after := PutTLFCryptKeyServerHalf(codec, LevelDB.Empty, d, 1, k, h).db;
            GetTLFCryptKeyServerHalf(codec, after, d, 2, k) == Ok(h)
  {
  }

  /** Block IDs and encoded tuples share one namespace with no prefix: a block
      put whose ID bytes equal a tuple's encoding overwrites that TLF entry, and
      the block share is read back as the TLF share. */
  lemma BlockPutAliasesTLF(codec: Codec, db: LevelDB.Store, id: BlockID, h: BlockCryptKeyServerHalf, t: ServerHalfID)
    requires codec(t) == Encoded(id.bytes)
    ensures var after := PutBlockCryptKeyServerHalf(db, id, h).db;
            GetTLFCryptKeyServerHalf(codec, after, t.id, t.keyGen, t.cryptPublicKey) == Ok(TLFCryptKeyServerHalf(h.serverHalf))
  {
  }

  /** Conversely a TLF put is visible to the block getter of an aliasing ID. */
  lemma TLFPutAliasesBlock(codec: Codec, db: LevelDB.Store, id: BlockID, t: ServerHalfID, h: TLFCryptKeyServerHalf)
    requires codec(t) == Encoded(id.bytes)
    ensures var after := PutTLFCryptKeyServerHalf(codec, db, t.id, t.keyGen, t.cryptPublicKey, h).db;
            GetBlockCryptKeyServerHalf(after, id) == Ok(BlockCryptKeyServerHalf(h.serverHalf))
  {
  }

  /** A block delete on an aliasing ID erases the TLF share. */
  lemma BlockDeleteErasesAliasedTLF(codec: Codec, db: LevelDB.Store, id: BlockID, t: ServerHalfID)
    requires codec(t) == Encoded(id.bytes)
    ensures var after := DeleteBlockCryptKeyServerHalf(db, id).db;
            GetTLFCryptKeyServerHalf(codec, after, t.id, t.keyGen, t.cryptPublicKey) == Err(NotFound)
  {
  }

  /** When a tuple's encoding differs from a block ID's bytes, block puts and
      deletes on that ID leave the tuple's get unchanged. */
  lemma BlockOpsPreserveUnaliasedTLF(codec: Codec, db: LevelDB.Store, id: BlockID, h: BlockCryptKeyServerHalf, t: ServerHalfID)
    requires codec(t) != Encoded(id.bytes)
    ensures var put := PutBlockCryptKeyServerHalf(db, id, h).db;
            GetTLFCryptKeyServerHalf(codec, put, t.id, t.keyGen, t.cryptPublicKey)
              == GetTLFCryptKeyServerHalf(codec, db, t.id, t.keyGen, t.cryptPublicKey)
    ensures var deleted := DeleteBlockCryptKeyServerHalf(db, id).db;
            GetTLFCryptKeyServerHalf(codec, deleted, t.id, t.keyGen, t.cryptPublicKey)
              == GetTLFCryptKeyServerHalf(codec, db, t.id, t.keyGen, t.cryptPublicKey)
  {
  }

  /** A fresh in-memory server holds nothing: every get misses, or fails to encode. */
  lemma FreshServerIsEmpty(codec: Codec, id: BlockID, t: ServerHalfID)
    ensures GetBlockCryptKeyServerHalf(LevelDB.Empty, id) == Err(NotFound)
    ensures codec(t).Encoded? ==>
              GetTLFCryptKeyServerHalf(codec, LevelDB.Empty, t.id, t.keyGen, t.cryptPublicKey) == Err(NotFound)
  {
  }

  /** A sample session: block "b1" with 32 zero bytes, then ("d1", 1, "k1")
      with 32 bytes 0xFF; both read back, and ("d1", 2, "k1") misses provided
      its encoding collides with neither stored key. */
  lemma Scenario(codec: Codec)
    requires Injective(codec)
    requires TLFKey(codec, DirID([0x64, 0x31]), 1, CryptPublicKey([0x6b, 0x31])).Encoded?
    requires TLFKey(codec, DirID([0x64, 0x31]), 2, CryptPublicKey([0x6b, 0x31])).Encoded?
    requires TLFKey(codec, DirID([0x64, 0x31]), 1, CryptPublicKey([0x6b, 0x31])).bytes != [0x62, 0x31]
    requires TLFKey(codec, DirID([0x64, 0x31]), 2, CryptPublicKey([0x6b, 0x31])).bytes != [0x62, 0x31]
    ensures var b1 := BlockID([0x62, 0x31]);
            var d1 := DirID([0x64, 0x31]);
            var k1 := CryptPublicKey([0x6b, 0x31]);
            var zeros := BlockCryptKeyServerHalf(seq(BlockServerHalfWidth, _ => 0));
            var ones := TLFCryptKeyServerHalf(seq(TLFServerHalfWidth, _ => 0xFF));
            var s1 := PutBlockCryptKeyServerHalf(LevelDB.Empty, b1, zeros).db;
            var s2 := PutTLFCryptKeyServerHalf(codec, s1, d1, 1, k1, ones).db;
            && GetBlockCryptKeyServerHalf(s1, b1) == Ok(zeros)
            && GetTLFCryptKeyServerHalf(codec, s2, d1, 1, k1) == Ok(ones)
            && GetBlockCryptKeyServerHalf(s2, b1) == Ok(zeros)
            && GetTLFCryptKeyServerHalf(codec, s2, d1, 2, k1) == Err(NotFound)
  {
  }
}
