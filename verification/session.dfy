/** A sequential session against one key server: a list of calls applied in
    order to the store, each seeing the store its predecessors left. */
module Session {
  import opened Types
  import LevelDB
  import opened KeyServerLocal

  /** One call on the key server. */
  datatype Op =
    | GetBlock(id: BlockID)
    | PutBlock(id: BlockID, blockHalf: BlockCryptKeyServerHalf)
    | DeleteBlock(id: BlockID)
    | GetTLF(tuple: ServerHalfID)
    | PutTLF(tuple: ServerHalfID, tlfHalf: TLFCryptKeyServerHalf)
    | GetMac(uid: UID)

  /** What one call returns to its caller. */
  datatype Reply =
    | BlockReply(block: Result<BlockCryptKeyServerHalf>)
    | TLFReply(tlf: Result<TLFCryptKeyServerHalf>)
    | Done(outcome: Outcome)
    | MacReply(mac: Result<MacPublicKey>)

  datatype Transition = Transition(db: LevelDB.Store, reply: Reply)

  datatype Trace = Trace(db: LevelDB.Store, replies: seq<Reply>)

  /** The one storage key a call reaches, if it reaches the store at all. */
  function Address(codec: Codec, op: Op): Option<Bytes> {
    match op
    case GetBlock(id) => Some(id.bytes)
    case PutBlock(id, _) => Some(id.bytes)
    case DeleteBlock(id) => Some(id.bytes)
    case GetTLF(t) => if codec(t).Encoded? then Some(codec(t).bytes) else None
    case PutTLF(t, _) => if codec(t).Encoded? then Some(codec(t).bytes) else None
    case GetMac(_) => None
  }

  predicate IsWrite(op: Op) {
    op.PutBlock? || op.DeleteBlock? || op.PutTLF?
  }

  /** The storage key a call may change. */
  function WrittenKey(codec: Codec, op: Op): Option<Bytes> {
    if IsWrite(op) then Address(codec, op) else None
  }

  /** No call of `ops` writes key `k`. */
  predicate NoWriteTo(codec: Codec, ops: seq<Op>, k: Bytes) {
    forall i :: 0 <= i < |ops| ==> WrittenKey(codec, ops[i]) != Some(k)
  }

  /** Performs one call. */
  function Apply(codec: Codec, db: LevelDB.Store, op: Op): (t: Transition)
    ensures !IsWrite(op) ==> t.db == db
    ensures forall k :: WrittenKey(codec, op) != Some(k) ==> LevelDB.SameAt(db, t.db, k)
  {
    match op
    case GetBlock(id) => Transition(db, BlockReply(GetBlockCryptKeyServerHalf(db, id)))
    case PutBlock(id, h) =>
      var e := PutBlockCryptKeyServerHalf(db, id, h);
      Transition(e.db, Done(e.outcome))
    case DeleteBlock(id) =>
      var e := DeleteBlockCryptKeyServerHalf(db, id);
      Transition(e.db, Done(e.outcome))
    case GetTLF(t) =>
      Transition(db, TLFReply(GetTLFCryptKeyServerHalf(codec, db, t.id, t.keyGen, t.cryptPublicKey)))
    case PutTLF(t, h) =>
      var e := PutTLFCryptKeyServerHalf(codec, db, t.id, t.keyGen, t.cryptPublicKey, h);
      Transition(e.db, Done(e.outcome))
    case GetMac(uid) => Transition(db, MacReply(GetMacPublicKey(uid)))
  }

  /** Performs the calls in order, collecting one reply per call. */
  function Run(codec: Codec, db: LevelDB.Store, ops: seq<Op>): (r: Trace)
    ensures |r.replies| == |ops|
    ensures (forall i :: 0 <= i < |ops| ==> !IsWrite(ops[i])) ==> r.db == db
    decreases |ops|
  {
    if ops == [] then Trace(db, [])
    else
      var t := Apply(codec, db, ops[0]);
      var rest := Run(codec, t.db, ops[1..]);
      Trace(rest.db, [t.reply] + rest.replies)
  }

  /** Running `a ++ b` is running `a` and then running `b` from where `a` left off. */
  lemma {:induction false} RunAppend(codec: Codec, db: LevelDB.Store, a: seq<Op>, b: seq<Op>)
    ensures var first := Run(codec, db, a);
            var second := Run(codec, first.db, b);
            Run(codec, db, a + b) == Trace(second.db, first.replies + second.replies)
    decreases |a|
  {
    if a == [] {
      assert a + b == b;
    } else {
      assert (a + b)[0] == a[0];
      assert (a + b)[1..] == a[1..] + b;
      var t := Apply(codec, db, a[0]);
      RunAppend(codec, t.db, a[1..], b);
      var first := Run(codec, t.db, a[1..]);
      var second := Run(codec, first.db, b);
      assert [t.reply] + (first.replies + second.replies) == ([t.reply] + first.replies) + second.replies;
    }
  }

  /** The i-th reply is what call i returns against the store its predecessors left. */
  lemma ReplyAt(codec: Codec, db: LevelDB.Store, ops: seq<Op>, i: nat)
    requires i < |ops|
    ensures Run(codec, db, ops).replies[i] == Apply(codec, Run(codec, db, ops[..i]).db, ops[i]).reply
  {
    assert ops == ops[..i] + ops[i..];
    RunAppend(codec, db, ops[..i], ops[i..]);
    var before := Run(codec, db, ops[..i]);
    assert ops[i..][0] == ops[i];
  }

  /** A key no call writes keeps its entry through the whole session. */
  lemma {:induction false} RunFrame(codec: Codec, db: LevelDB.Store, ops: seq<Op>, k: Bytes)
    requires NoWriteTo(codec, ops, k)
    ensures LevelDB.SameAt(db, Run(codec, db, ops).db, k)
    decreases |ops|
  {
    if ops != [] {
      assert WrittenKey(codec, ops[0]) != Some(k);
      var t := Apply(codec, db, ops[0]);
      assert NoWriteTo(codec, ops[1..], k) by {
        forall i | 0 <= i < |ops[1..]|
          ensures WrittenKey(codec, ops[1..][i]) != Some(k)
        {
          assert ops[1..][i] == ops[i + 1];
        }
      }
      RunFrame(codec, t.db, ops[1..], k);
    }
  }

  /** Last write wins: after a block put followed by calls none of which
      writes that ID's key, a block get returns the share that was put. */
  lemma LastBlockPutWins(codec: Codec, db: LevelDB.Store, pre: seq<Op>, id: BlockID,
                         h: BlockCryptKeyServerHalf, post: seq<Op>)
    requires NoWriteTo(codec, post, id.bytes)
    ensures var final := Run(codec, db, pre + [PutBlock(id, h)] + post).db;
            GetBlockCryptKeyServerHalf(final, id) == Ok(h)
  {
    var mid := Run(codec, db, pre + [PutBlock(id, h)]);
    RunAppend(codec, db, pre + [PutBlock(id, h)], post);
    RunAppend(codec, db, pre, [PutBlock(id, h)]);
    RunFrame(codec, mid.db, post, id.bytes);
  }

  /** After a block delete followed by calls none of which writes that ID's
      key, a block get misses. */
  lemma DeleteStaysDeleted(codec: Codec, db: LevelDB.Store, pre: seq<Op>, id: BlockID, post: seq<Op>)
    requires NoWriteTo(codec, post, id.bytes)
    ensures var final := Run(codec, db, pre + [DeleteBlock(id)] + post).db;
            GetBlockCryptKeyServerHalf(final, id) == Err(NotFound)
  {
    var mid := Run(codec, db, pre + [DeleteBlock(id)]);
    RunAppend(codec, db, pre + [DeleteBlock(id)], post);
    RunAppend(codec, db, pre, [DeleteBlock(id)]);
    RunFrame(codec, mid.db, post, id.bytes);
  }

  /** Last write wins for TLF shares: after a TLF put that encodes, followed
      by calls none of which writes its key, a get on the same tuple returns
      the share that was put. */
  lemma LastTLFPutWins(codec: Codec, db: LevelDB.Store, pre: seq<Op>, t: ServerHalfID,
                       h: TLFCryptKeyServerHalf, post: seq<Op>)
    requires codec(t).Encoded?
    requires NoWriteTo(codec, post, codec(t).bytes)
    ensures var final := Run(codec, db, pre + [PutTLF(t, h)] + post).db;
            GetTLFCryptKeyServerHalf(codec, final, t.id, t.keyGen, t.cryptPublicKey) == Ok(h)
  {
    var mid := Run(codec, db, pre + [PutTLF(t, h)]);
    RunAppend(codec, db, pre + [PutTLF(t, h)], post);
    RunAppend(codec, db, pre, [PutTLF(t, h)]);
    RunFrame(codec, mid.db, post, codec(t).bytes);
  }

  /** A MAC key lookup anywhere in a session is invisible to the rest of it:
      it answers with the zero key, and the final store and every other reply
      are those of the session without it. */
  lemma MacLookupInvisible(codec: Codec, db: LevelDB.Store, pre: seq<Op>, uid: UID, post: seq<Op>)
    ensures var with := Run(codec, db, pre + [GetMac(uid)] + post);
            var without := Run(codec, db, pre + post);
            && with.db == without.db
            && with.replies == without.replies[..|pre|] + [MacReply(Ok(ZeroMacPublicKey()))] + without.replies[|pre|..]
  {
    var first := Run(codec, db, pre);
    RunAppend(codec, db, pre + [GetMac(uid)], post);
    RunAppend(codec, db, pre, [GetMac(uid)]);
    RunAppend(codec, db, pre, post);
    var mid := Run(codec, db, pre + [GetMac(uid)]);
    assert mid.db == first.db;
    var rest := Run(codec, first.db, post);
    var without := Run(codec, db, pre + post);
    assert without.replies[..|pre|] == first.replies;
    assert without.replies[|pre|..] == rest.replies;
  }

  /** Every stored value is exactly as wide as a share. Both share kinds have
      the same width, so one predicate covers the whole flat namespace. */
  predicate WellFormed(db: LevelDB.Store) {
    forall k :: k in db ==> |db[k]| == BlockServerHalfWidth && |db[k]| == TLFServerHalfWidth
  }

  /** The reply reports that a stored value had the wrong width. */
  predicate IsLengthMismatch(reply: Reply) {
    || (reply.BlockReply? && reply.block.Err? && reply.block.error.LengthMismatch?)
    || (reply.TLFReply? && reply.tlf.Err? && reply.tlf.error.LengthMismatch?)
  }

  /** One call keeps a well-formed store well-formed and, on it, never
      reports a length mismatch. */
  lemma ApplyWellFormed(codec: Codec, db: LevelDB.Store, op: Op)
    requires WellFormed(db)
    ensures WellFormed(Apply(codec, db, op).db)
    ensures !IsLengthMismatch(Apply(codec, db, op).reply)
  {
  }

  /** A session keeps a well-formed store well-formed. */
  lemma {:induction false} RunPreservesWellFormed(codec: Codec, db: LevelDB.Store, ops: seq<Op>)
    requires WellFormed(db)
    ensures WellFormed(Run(codec, db, ops).db)
    decreases |ops|
  {
    if ops != [] {
      ApplyWellFormed(codec, db, ops[0]);
      RunPreservesWellFormed(codec, Apply(codec, db, ops[0]).db, ops[1..]);
    }
  }

  /** Only shares are ever written, so a session that starts from a fresh
      store never sees a length mismatch: that error can only come from
      bytes placed in the store by something other than this server. */
  lemma FreshSessionNeverMismatches(codec: Codec, ops: seq<Op>, i: nat)
    requires i < |ops|
    ensures !IsLengthMismatch(Run(codec, LevelDB.Empty, ops).replies[i])
  {
    ReplyAt(codec, LevelDB.Empty, ops, i);
    RunPreservesWellFormed(codec, LevelDB.Empty, ops[..i]);
    ApplyWellFormed(codec, Run(codec, LevelDB.Empty, ops[..i]).db, ops[i]);
  }

  /** Calls on different keys are independent: performed in either order they
      return the same replies and leave the same store. */
  lemma Commute(codec: Codec, db: LevelDB.Store, op1: Op, op2: Op)
    requires Address(codec, op1).None? || Address(codec, op2).None? || Address(codec, op1) != Address(codec, op2)
    ensures var a1 := Apply(codec, db, op1);
            var a2 := Apply(codec, a1.db, op2);
            var b2 := Apply(codec, db, op2);
            var b1 := Apply(codec, b2.db, op1);
            a2.db == b1.db && a1.reply == b1.reply && a2.reply == b2.reply
  {
  }
}
