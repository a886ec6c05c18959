/**
 * What the signer signs verifies: over every run, its chain and its checkpoints are
 * ones an honest archive is made of, and the archive is accepted
 * (apps/signer/src/signer.ts with apps/server/src/export/archive.ts and
 * packages/verifier/src/verify.ts).
 */
module SignersArchive {
  import opened Receipts
  import opened Journal
  import opened StateDirectory
  import opened Signer
  import opened SignerRuns
  import opened SignerSafety
  import opened SignerTheorems
  import opened Verifier
  import opened VerifyBundle
  import opened PreviousExport
  import opened Archive
  import opened ArchiveVerifies

  // ----- every signature verifies -----

  /** All that was signed since the migration verifies under the signer's key. */
  ghost predicate ChainSigned(su: Setup, id: SystemId, chain: seq<Receipt>) {
    forall i :: |Migrated(su, id)| <= i < |chain| ==> SignedUnder(su.key, chain[i])
  }

  ghost predicate SignedInv(su: Setup, w: World) {
    && (forall id :: ChainSigned(su, id, ChainIn(w, id)))
    && (w.process.Signing? ==> SignedUnder(su.key, w.process.receipt))
    && (forall c :: c in w.issued ==> CheckpointSignedUnder(su.key, c))
  }

  lemma {:induction false} SnocSigned(su: Setup, id: SystemId, chain: seq<Receipt>, r: Receipt)
    requires ChainSigned(su, id, chain) && SignedUnder(su.key, r)
    ensures ChainSigned(su, id, chain + [r])
  {
    hide SignedUnder;
  }

  lemma {:induction false} PrefixSigned(su: Setup, id: SystemId, chain: seq<Receipt>, n: nat)
    requires ChainSigned(su, id, chain) && n <= |chain|
    ensures ChainSigned(su, id, chain[..n])
  {
    hide SignedUnder;
  }

  lemma {:induction false} AdvanceKeepsSigned(su: Setup, w: World)
    requires SignedInv(su, w) && w.process.Signing?
    ensures SignedInv(su, AdvanceFrom(w))
  {
    hide ChainSigned, SignedUnder, CheckpointSignedUnder, AppendText, FlushJournal, FlushDirectory, WriteTemporary,
      FlushTemporary, RenameTemporary, Serialize;
    var v := AdvanceFrom(w);
    var r := w.process.receipt;
    SnocSigned(su, r.body.systemId, ChainIn(w, r.body.systemId), r);
    forall id
      ensures ChainSigned(su, id, ChainIn(v, id))
    {
      assert ChainSigned(su, id, ChainIn(w, id));
    }
  }

  lemma {:induction false} CutKeepsSigned(su: Setup, w: World, left: map<SystemId, Left>)
    requires Inv(su, w) && SignedInv(su, w) && Enabled(su, w, PowerCut(left))
    ensures SignedInv(su, Apply(su, w, PowerCut(left)))
  {
    hide Inv, ChainSigned, SignedUnder, CheckpointSignedUnder, Cut, CutChain, CutBegun, LeftOk, LeftOf;
    var v := Apply(su, w, PowerCut(left));
    forall id
      ensures ChainSigned(su, id, ChainIn(v, id))
    {
      DurableCut(su, w, left, id);
      assert ChainIn(v, id) == ChainIn(w, id)[..|ChainIn(v, id)|];
      assert ChainSigned(su, id, ChainIn(w, id));
      PrefixSigned(su, id, ChainIn(w, id), |ChainIn(v, id)|);
    }
  }

  lemma {:induction false} CheckpointKeepsSigned(su: Setup, w: World, id: SystemId, ts: int)
    requires IsKeyPair(su.key) && SignedInv(su, w) && Enabled(su, w, GetCheckpoint(id, ts))
    ensures SignedInv(su, Apply(su, w, GetCheckpoint(id, ts)))
  {
    hide IsKeyPair, ChainSigned, SignedUnder, CheckpointSignedUnder, CheckpointOver;
    var v := Apply(su, w, GetCheckpoint(id, ts));
    var known := Lookup(w.process.systems, id);
    if known.Some? && known.value.ChainState? {
      CheckpointVerifies(su.key, id, known.value, ts);
    }
    SameChainsSigned(su, w, v);
  }

  lemma {:induction false} SameChainsSigned(su: Setup, w: World, v: World)
    requires SignedInv(su, w) && v.chains == w.chains
    ensures forall id :: ChainSigned(su, id, ChainIn(v, id))
  {
    hide ChainSigned;
    forall id
      ensures ChainSigned(su, id, ChainIn(v, id))
    {
      assert ChainSigned(su, id, ChainIn(w, id));
    }
  }

  lemma {:induction false} BeginKeepsSigned(su: Setup, w: World, b: Body, clock: int)
    requires IsKeyPair(su.key) && SignedInv(su, w) && Enabled(su, w, BeginSign(b, clock))
    ensures SignedInv(su, Apply(su, w, BeginSign(b, clock)))
  {
    hide IsKeyPair, ChainSigned, SignedUnder, CheckpointSignedUnder, NextState;
    WhatIsSignedVerifies(su.key, b);
    SameChainsSigned(su, w, Apply(su, w, BeginSign(b, clock)));
  }

  lemma {:induction false} StepKeepsSigned(su: Setup, w: World, e: Event)
    requires IsKeyPair(su.key) && Inv(su, w) && SignedInv(su, w) && Enabled(su, w, e)
    ensures SignedInv(su, Apply(su, w, e))
  {
    hide IsKeyPair, Inv, ChainSigned, SignedUnder, CheckpointSignedUnder, AdvanceFrom, Decide, NextState,
        CheckpointOver,
      ReceiptsOf, Entries, Cut, CutChain, CutBegun, LeftOk, LeftOf, Loadable, Loaded;
    if e.Advance? {
      AdvanceKeepsSigned(su, w);
    } else if e.PowerCut? {
      CutKeepsSigned(su, w, e.left);
    } else if e.GetCheckpoint? {
      CheckpointKeepsSigned(su, w, e.id, e.ts);
    } else if e.BeginSign? {
      BeginKeepsSigned(su, w, e.body, e.clock);
    } else {
      SameChainsSigned(su, w, Apply(su, w, e));
    }
  }

  lemma {:induction false} RunKeepsSigned(su: Setup, w: World, es: seq<Event>)
    requires IsKeyPair(su.key) && JsonLines() && Inv(su, w) && SignedInv(su, w) && Admissible(su, w, es)
    ensures SignedInv(su, Run(su, w, es))
    decreases |es|
  {
    hide IsKeyPair, Inv, SignedInv, Enabled, Apply;
    if es != [] {
      StepKeeps(su, w, es[0]);
      StepKeepsSigned(su, w, es[0]);
      RunKeepsSigned(su, Apply(su, w, es[0]), es[1..]);
    }
  }

  lemma {:induction false} InitialSigned(su: Setup, w: World)
    requires Initial(su, w)
    ensures SignedInv(su, w)
  {
    hide SignedUnder, CheckpointSignedUnder;
  }

  /**
   * Over every run, wherever it is cut: every receipt of the signer's chain since the
   * migration carries a signature over its own hash that verifies under the signer's
   * key, and so does every checkpoint it ever issued.
   */
  lemma {:induction false} EverySignatureVerifies(su: Setup, w: World, es: seq<Event>)
    requires IsKeyPair(su.key) && JsonLines() && Initial(su, w) && Admissible(su, w, es)
    ensures forall id, i :: |Migrated(su, id)| <= i < |Durable(Run(su, w, es), id)| ==>
              SignedUnder(su.key, Durable(Run(su, w, es), id)[i])
    ensures forall c :: c in Run(su, w, es).issued ==> CheckpointSignedUnder(su.key, c)
  {
    hide IsKeyPair, Inv, Initial, Durable, SignedUnder, CheckpointSignedUnder;
    InitialInv(su, w);
    InitialSigned(su, w);
    RunKeeps(su, w, es);
    RunKeepsSigned(su, w, es);
    var v := Run(su, w, es);
    forall id, i | |Migrated(su, id)| <= i < |Durable(v, id)|
      ensures SignedUnder(su.key, Durable(v, id)[i])
    {
      DurableIsChain(su, v, id);
      assert ChainSigned(su, id, ChainIn(v, id));
      assert Durable(v, id)[i] == ChainIn(v, id)[i];
    }
  }

  /** So does every receipt it ever replied. */
  lemma {:induction false} EveryReplyVerifies(su: Setup, w: World, es: seq<Event>, r: Receipt)
    requires IsKeyPair(su.key) && JsonLines() && Initial(su, w) && Admissible(su, w, es) && RepliesSettled(su, w, es)
    requires r in Run(su, w, es).exposed && r.body.seq_ >= |Migrated(su, r.body.systemId)|
    ensures SignedUnder(su.key, r)
  {
    hide IsKeyPair, Inv, Initial, Durable, SignedUnder, CheckpointSignedUnder;
    InitialInv(su, w);
    RunKeeps(su, w, es);
    EverySignatureVerifies(su, w, es);
    assert Remembered(Run(su, w, es), r);
  }

  // ----- an archive of it is accepted -----

  /** The signer's key is published, the verifier trusts it, and so are those that
      signed what was migrated. */
  ghost predicate Published(su: Setup, id: SystemId, keys: seq<ManifestKey>, trusted: Trusted) {
    && KeysOk(keys)
    && su.key.keyId in KeyMap(keys) && KeyMap(keys)[su.key.keyId] == su.key.publicKey
        && IsTrusted(trusted, su.key.keyId)
    && forall i :: 0 <= i < |Migrated(su, id)| ==> SignedCheck(Migrated(su, id)[i], KeyMap(keys), trusted).None?
  }

  /** An archive of a window of the signer's chain, with checkpoints it issued. */
  ghost predicate OfTheSigner(v: World, input: ArchiveInput) {
    var chain := Durable(v, input.systemId);
    && HonestReceipts(input, chain)
    && (forall i :: 0 <= i < |input.checkpoints| ==>
          var c := input.checkpoints[i].checkpoint; c in v.issued && c.body.systemId == input.systemId)
    && HonestDisclosures(input)
    && (input.chainLeaves.Some? ==> input.chainLeaves.value <= Hashes(chain))
  }

  lemma {:induction false} SignedPasses(key: SignerKey, r: Receipt, keys: map<KeyId, PublicKey>, trusted: Trusted)
    requires SignedUnder(key, r) && key.keyId in keys && keys[key.keyId] == key.publicKey
              && IsTrusted(trusted, key.keyId)
    ensures SignedCheck(r, keys, trusted).None?
  {
  }

  lemma {:induction false} SignersReceiptsPass(su: Setup, w: World, es: seq<Event>, input: ArchiveInput,
      trusted: Trusted)
    requires IsKeyPair(su.key) && JsonLines() && Initial(su, w) && Admissible(su, w, es)
    requires Published(su, input.systemId, input.keys, trusted) && OfTheSigner(Run(su, w, es), input)
    ensures forall i :: 0 <= i < |input.receipts| ==> SignedCheck(input.receipts[i], KeyMap(input.keys), trusted).None?
  {
    hide IsKeyPair, Initial, Inv, Durable, KeyMap, KeysOk, SignedCheck, SignedUnder, CheckpointSignedUnder, IsChain,
      HonestDisclosures, IsTrusted;
    var rs, id := input.receipts, input.systemId;
    var chain := Durable(Run(su, w, es), id);
    InitialInv(su, w);
    RunKeeps(su, w, es);
    DurableIsChain(su, Run(su, w, es), id);
    EverySignatureVerifies(su, w, es);
    forall i | 0 <= i < |rs|
      ensures SignedCheck(rs[i], KeyMap(input.keys), trusted).None?
    {
      var k := First(rs) + i;
      assert rs[i] == chain[k];
      if k < |Migrated(su, id)| {
        MigratedAreFirst(su, id, chain, k);
      } else {
        SignedPasses(su.key, chain[k], KeyMap(input.keys), trusted);
      }
    }
  }

  lemma {:induction false} MigratedAreFirst(su: Setup, id: SystemId, chain: seq<Receipt>, k: nat)
    requires ChainInv(su, id, chain) && k < |Migrated(su, id)|
    ensures k < |chain| && chain[k] == Migrated(su, id)[k]
  {
    hide IsChain, ClockOrdered;
  }

  lemma {:induction false} SignersCheckpointPasses(
      su: Setup, w: World, es: seq<Event>, input: ArchiveInput, trusted: Trusted, i: nat)
    requires IsKeyPair(su.key) && JsonLines() && Initial(su, w) && Admissible(su, w, es) && RepliesSettled(su, w, es)
    requires Published(su, input.systemId, input.keys, trusted) && OfTheSigner(Run(su, w, es), input)
    requires i < |input.checkpoints|
    ensures HonestCheckpoint(input, Durable(Run(su, w, es), input.systemId), trusted, input.checkpoints[i].checkpoint)
  {
    hide IsKeyPair, Initial, Inv, ExposedInv, Durable, KeyMap, KeysOk, SignedCheck, SignedUnder, IsTrusted,
      HonestReceipts, HonestDisclosures;
    InitialInv(su, w);
    RunKeeps(su, w, es);
    EverySignatureVerifies(su, w, es);
    assert Covered(su, Run(su, w, es), input.checkpoints[i].checkpoint);
  }

  /**
   * What the signer signs is accepted. Over every run with settled replies: an archive
   * built of any window of the chain it keeps and of checkpoints it issued, its key
   * published and trusted, verifies, if the chain's genesis names its system.
   */
  lemma {:induction false} SignersArchiveVerifies(
      su: Setup, w: World, es: seq<Event>, input: ArchiveInput, trusted: Trusted)
    requires IsKeyPair(su.key) && JsonLines() && Initial(su, w) && Admissible(su, w, es) && RepliesSettled(su, w, es)
    requires Published(su, input.systemId, input.keys, trusted) && OfTheSigner(Run(su, w, es), input)
    ensures |input.receipts| > 0 && FirstFailure(ArchiveOf(input), trusted).None?
  {
    hide IsKeyPair, Initial, Durable, KeyMap, KeysOk, SignedCheck, HonestDisclosures, HonestCheckpoint, IsTrusted,
      FirstFailure, ArchiveOf, Hashes, IsChain;
    var chain := Durable(Run(su, w, es), input.systemId);
    SignersReceiptsPass(su, w, es, input, trusted);
    forall i | 0 <= i < |input.checkpoints|
      ensures HonestCheckpoint(input, chain, trusted, input.checkpoints[i].checkpoint)
    {
      SignersCheckpointPasses(su, w, es, input, trusted, i);
    }
    HonestArchiveVerifies(input, chain, trusted);
  }
}
