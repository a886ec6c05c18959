/**
 * apps/signer/src/signer.ts: the rules the signer applies before it puts its key
 * behind anything.
 */
module Signer {
  import opened Prelude
  import opened Merkle
  import opened Frontier
  import opened Receipts
  import opened Journal
  import opened StateDirectory

  datatype RefusalCode = Invalid | Sequence | Clock | UnknownSystem

  /** Whether every string of a receipt is well-formed Unicode. */
  const WELL_FORMED: Body -> bool

  predicate WellFormed(b: Body) { WELL_FORMED(b) }

  function Lookup(systems: map<SystemId, SystemState>, id: SystemId): Option<SystemState> {
    if id in systems then Some(systems[id]) else None
  }

  function Abs(x: int): nat { if x < 0 then -x else x }

  /** The checks of signReceipt, in its order; None when the receipt may be signed. */
  function Decide(known: Option<SystemState>, keyId: KeyId, b: Body, clock: int,
      toleranceMs: int): Option<RefusalCode> {
    if b.keyId != keyId then Some(Invalid)
    else if !WellFormed(b) then Some(Invalid)
    else if (b.seq_ == 0) != (b.kind == Genesis) then Some(Invalid)
    else if known.Some? && known.value.RetiredSystem? then Some(Sequence)
    else if b.seq_ != (if known.None? then 0 else known.value.seq_ + 1) then Some(Sequence)
    else if b.prevHash != (if known.None? then GENESIS_PREV_HASH else known.value.hash) then Some(Sequence)
    else if Abs(b.tsReceived - clock) > toleranceMs then Some(Clock)
    else if known.Some? && b.tsReceived < known.value.head.body.tsReceived then Some(Clock)
    else None
  }

  function SignedReceipt(key: SignerKey, b: Body): Receipt { Receipt(b, Sign(key.privateKey, ReceiptHash(b))) }

  /** What the signer signs verifies under its public key, as the receipt it is of. */
  lemma {:induction false} WhatIsSignedVerifies(key: SignerKey, b: Body)
    requires IsKeyPair(key) && b.keyId == key.keyId
    ensures SignedUnder(key, SignedReceipt(key, b)) && SignedReceipt(key, b).body == b
  {
    assert Verifies(key.publicKey, ReceiptHash(b), Sign(key.privateKey, ReceiptHash(b)));
  }

  function KnownFrontier(known: Option<SystemState>): MerkleFrontier {
    if known.Some? && known.value.ChainState? then known.value.frontier else EMPTY_FRONTIER
  }

  /** The state after a receipt; None where frontierAppend would throw. */
  function NextState(known: Option<SystemState>, r: Receipt): Option<SystemState> {
    var frontier := Append(KnownFrontier(known), ReceiptHash(r.body));
    if frontier.Err? then None
    else Some(ChainState(r.body.systemId, r.body.seq_, ReceiptHash(r.body), r, frontier.value))
  }

  /** What the signer knows of a system: nothing, that it is retired, or its chain. */
  ghost function Knows(id: SystemId, chain: seq<Receipt>, retired: map<SystemId, Digest>): Option<SystemState> {
    if |chain| > 0 then Some(StateOf(id, chain))
    else if id in retired then Some(RetiredSystem(id, retired[id]))
    else None
  }

  /** The next receipt of a chain, of this key, received when the clock says and not
      before the last, of a system not retired. */
  ghost predicate IsNext(chain: seq<Receipt>, isRetired: bool, key: SignerKey, b: Body, clock: int, toleranceMs: int) {
    && b.keyId == key.keyId && WellFormed(b)
    && (b.seq_ == 0 <==> b.kind == Genesis)
    && (|chain| == 0 ==> !isRetired)
    && b.seq_ == |chain| && b.prevHash == ExpectedPrev(chain, |chain|)
    && -toleranceMs <= b.tsReceived - clock <= toleranceMs
    && (|chain| > 0 ==> chain[|chain| - 1].body.tsReceived <= b.tsReceived)
  }

  /** The rules accept exactly the next receipt of the chain. */
  lemma {:induction false} AcceptsExactlyTheNext(
      id: SystemId, chain: seq<Receipt>, retired: map<SystemId, Digest>, key: SignerKey, b: Body,
                              clock: int, toleranceMs: int)
    ensures Decide(Knows(id, chain, retired), key.keyId, b, clock, toleranceMs).None?
            <==> IsNext(chain, id in retired, key, b, clock, toleranceMs)
  {
  }

  /** It is no well-formed receipt of this key, whatever chain it is for. */
  ghost predicate IsInvalid(key: SignerKey, b: Body) {
    b.keyId != key.keyId || !WellFormed(b) || !(b.seq_ == 0 <==> b.kind == Genesis)
  }

  /** It does not go on where the chain ends, or the system has been retired. */
  ghost predicate IsOutOfSequence(chain: seq<Receipt>, isRetired: bool, b: Body) {
    (|chain| == 0 && isRetired) || b.seq_ != |chain| || b.prevHash != ExpectedPrev(chain, |chain|)
  }

  /** Which refusal it is: what is wrong with the receipt itself comes before its
      place in the chain, and that before its time. */
  lemma {:induction false} RefusalsAreExact(
      id: SystemId, chain: seq<Receipt>, retired: map<SystemId, Digest>, key: SignerKey, b: Body,
      clock: int, toleranceMs: int)
    ensures var answer := Decide(Knows(id, chain, retired), key.keyId, b, clock, toleranceMs);
            && (answer == Some(Invalid) <==> IsInvalid(key, b))
            && (answer == Some(Sequence) <==> !IsInvalid(key, b) && IsOutOfSequence(chain, id in retired, b))
            && (answer == Some(Clock) <==>
                  && !IsInvalid(key, b) && !IsOutOfSequence(chain, id in retired, b)
                  && (!(clock - toleranceMs <= b.tsReceived <= clock + toleranceMs)
                      || (|chain| > 0 && b.tsReceived < chain[|chain| - 1].body.tsReceived)))
            && answer != Some(UnknownSystem)
  {
    assert |chain| == 0 ==> ExpectedPrev(chain, |chain|) == GENESIS_PREV_HASH;
  }

  /** What is remembered of an accepted receipt is the state of the chain one
      longer, and appending to the frontier cannot fail. */
  lemma {:induction false} NextIsStateOfLonger(
      id: SystemId, chain: seq<Receipt>, retired: map<SystemId, Digest>, r: Receipt)
    requires IsChain(id, chain)
    requires r.body.systemId == id && r.body.seq_ == |chain| && r.body.prevHash == ExpectedPrev(chain, |chain|)
    ensures IsChain(id, chain + [r])
    ensures NextState(Knows(id, chain, retired), r) == Some(StateOf(id, chain + [r]))
  {
    var longer := chain + [r];
    ChainSnoc(id, chain, r);
    assert KnownFrontier(Knows(id, chain, retired)) == FrontierOf(Hashes(chain));
    assert Append(FrontierOf(Hashes(chain)), ReceiptHash(r.body)) == Ok(FrontierOf(Hashes(longer))) by {
      HashesSnoc(chain, r);
      AppendIsFrontier(Hashes(chain), ReceiptHash(r.body));
    }
    assert longer[|longer| - 1] == r;
  }

  /** An accepted receipt keeps the order of ts_received. */
  lemma {:induction false} ClockOrderKept(chain: seq<Receipt>, begun: nat, r: Receipt)
    requires ClockOrdered(chain, begun)
    requires |chain| > 0 ==> chain[|chain| - 1].body.tsReceived <= r.body.tsReceived
    ensures ClockOrdered(chain + [r], begun)
  {
    var c := chain + [r];
    forall i | 1 <= i < |c| && begun <= i
      ensures c[i - 1].body.tsReceived <= c[i].body.tsReceived
    {
      if i < |chain| {
        assert chain[i - 1].body.tsReceived <= chain[i].body.tsReceived;
      }
    }
  }

  /** A checkpoint over everything signed for the system asked for. */
  function CheckpointOver(key: SignerKey, id: SystemId, known: SystemState, ts: int): Checkpoint
    requires known.ChainState?
  {
    var b := CheckpointBody(id, known.frontier.size, RootOfFrontier(known.frontier), ts, key.keyId);
    Checkpoint(b, Sign(key.privateKey, CheckpointHash(b)))
  }

  lemma {:induction false} CheckpointVerifies(key: SignerKey, id: SystemId, known: SystemState, ts: int)
    requires IsKeyPair(key) && known.ChainState?
    ensures CheckpointSignedUnder(key, CheckpointOver(key, id, known, ts))
    ensures CheckpointOver(key, id, known, ts).body.ts == ts
  {
    var b := CheckpointOver(key, id, known, ts).body;
    assert Verifies(key.publicKey, CheckpointHash(b), Sign(key.privateKey, CheckpointHash(b)));
  }

  /** Every checkpoint covers the whole chain: tree_size is seq + 1 and the root is
      the Merkle root of all its receipt hashes. */
  lemma {:induction false} CheckpointCoversChain(key: SignerKey, id: SystemId, chain: seq<Receipt>, ts: int)
    requires |chain| > 0
    ensures var c := CheckpointOver(key, id, StateOf(id, chain), ts);
            c.body.systemId == id && c.body.treeSize == |chain| == StateOf(id, chain).seq_ + 1
            && c.body.rootHash == Root(Hashes(chain))
  {
    FoldIsRoot(Hashes(chain));
  }

  datatype SignReply = Signed(sig: Signature, hash: Digest) | Refused(code: RefusalCode) | Failed

  class Signer {
    const key: SignerKey
    const state: StateDirectory
    const toleranceMs: nat

    constructor (key: SignerKey, state: StateDirectory, toleranceMs: nat)
      ensures this.key == key && this.state == state && this.toleranceMs == toleranceMs
    {
      this.key := key;
      this.state := state;
      this.toleranceMs := toleranceMs;
    }

    /** A refusal changes nothing; an answer comes only after the journal and the
        state hold the receipt. */
    method SignReceipt(b: Body, clock: int) returns (reply: SignReply)
      modifies state
      ensures var known := Lookup(old(state.systems), b.systemId);
              var refusal := Decide(known, key.keyId, b, clock, toleranceMs);
              var r := SignedReceipt(key, b);
              var next := NextState(known, r);
              if refusal.Some? then
                reply == Refused(refusal.value) && state.dir == old(state.dir) && state.systems == old(state.systems)
              else if next.None? then
                reply == Failed && state.dir == RecordEffect(old(state.dir), r) && state.systems == old(state.systems)
              else
                reply == Signed(r.sig, ReceiptHash(b))
                && state.dir == PutEffect(RecordEffect(old(state.dir), r), next.value)
                && state.systems == old(state.systems)[b.systemId := next.value]
      ensures reply.Signed? && IsKeyPair(key) ==>
                reply.hash == ReceiptHash(b) && SignedUnder(key, Receipt(b, reply.sig))
    {
      hide RecordEffect, PutEffect, FlushDirectory;
      if IsKeyPair(key) && b.keyId == key.keyId {
        WhatIsSignedVerifies(key, b);
      }
      var known := Lookup(state.systems, b.systemId);
      if b.keyId != key.keyId {
        return Refused(Invalid);
      }
      if !WellFormed(b) {
        return Refused(Invalid);
      }
      if (b.seq_ == 0) != (b.kind == Genesis) {
        return Refused(Invalid);
      }
      if known.Some? && known.value.RetiredSystem? {
        return Refused(Sequence);
      }
      var expectedSeq := if known.None? then 0 else known.value.seq_ + 1;
      var expectedPrev := if known.None? then GENESIS_PREV_HASH else known.value.hash;
      if b.seq_ != expectedSeq {
        return Refused(Sequence);
      }
      if b.prevHash != expectedPrev {
        return Refused(Sequence);
      }
      if Abs(b.tsReceived - clock) > toleranceMs {
        return Refused(Clock);
      }
      if known.Some? && b.tsReceived < known.value.head.body.tsReceived {
        return Refused(Clock);
      }
      var digest := ReceiptHash(b);
      var sig := Sign(key.privateKey, digest);
      var head := Receipt(b, sig);
      state.Record(head);
      var frontier := FrontierAppend(KnownFrontier(known), digest);
      if frontier.Err? {
        return Failed;
      }
      state.Put(ChainState(b.systemId, b.seq_, digest, head, frontier.value));
      return Signed(sig, digest);
    }

    method Checkpoint(id: SystemId, ts: int) returns (r: Result<Receipts.Checkpoint, RefusalCode>)
      ensures var known := Lookup(state.systems, id);
              if known.Some? && known.value.ChainState? then r == Ok(CheckpointOver(key, id, known.value, ts))
              else r == Err(UnknownSystem)
      ensures r.Ok? && IsKeyPair(key) ==> CheckpointSignedUnder(key, r.value)
    {
      var known := Lookup(state.systems, id);
      if known.None? || known.value.RetiredSystem? {
        return Err(UnknownSystem);
      }
      if IsKeyPair(key) {
        CheckpointVerifies(key, id, known.value, ts);
      }
      var root := FrontierRoot(known.value.frontier);
      var b := CheckpointBody(id, known.value.frontier.size, root, ts, key.keyId);
      return Ok(Receipts.Checkpoint(b, Sign(key.privateKey, CheckpointHash(b))));
    }

    method GetReceipts(id: SystemId, fromSeq: nat, limit: nat) returns (r: Result<seq<Receipt>, RefusalCode>)
      ensures var known := Lookup(state.systems, id);
              if known.Some? && known.value.ChainState?
              then r == Ok(ReceiptsOf(Entries(id, FilesOf(state.dir, id).journal), known.value, fromSeq, limit))
              else r == Err(UnknownSystem)
    {
      var known := Lookup(state.systems, id);
      if known.None? || known.value.RetiredSystem? {
        return Err(UnknownSystem);
      }
      var found := state.Receipts(id, fromSeq, limit);
      return Ok(found);
    }

    method Head(id: SystemId) returns (head: Option<Receipt>)
      ensures var known := Lookup(state.systems, id);
              head == if known.Some? && known.value.ChainState? then Some(known.value.head) else None
    {
      var known := Lookup(state.systems, id);
      if known.Some? && known.value.ChainState? {
        return Some(known.value.head);
      }
      return None;
    }
  }
}
