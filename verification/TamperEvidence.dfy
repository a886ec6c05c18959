/**
 * The end to end claim: what an accepted export says about the one chain the
 * signer keeps (packages/verifier/src/verify.ts over apps/signer/src/signer.ts,
 * state.ts). Nothing is assumed of the hash function and nothing of the manifest:
 * where the claim fails, two messages with one digest, or two public keys with
 * one identifier, are exhibited.
 */
module TamperEvidence {
  import opened Prelude
  import opened Merkle
  import opened MerkleBinding
  import opened Receipts
  import opened Journal
  import opened StateDirectory
  import opened SignerRuns
  import opened SignerTheorems
  import opened Verifier
  import opened VerifyBundle
  import opened PreviousExport

  /** Two public keys under one 8-byte identifier. */
  datatype KeyClash = KeyClash(a: PublicKey, b: PublicKey) {
    predicate IsReal() { a != b && KeyIdOf(a) == KeyIdOf(b) }
  }

  /** What is at hand where an accepted export is not the signer's. */
  datatype Finding = Finding(collision: Collision, clash: KeyClash) {
    predicate IsReal() { collision.IsReal() || clash.IsReal() }
  }

  const NOTHING := Finding(Collision([], []), KeyClash([], []))

  /** The digest is one the signer has signed and replied. */
  ghost predicate Replied(w: World, d: Digest) {
    || (exists r :: r in w.exposed && ReceiptHash(r.body) == d)
    || (exists c :: c in w.issued && CheckpointHash(c.body) == d)
  }

  /** No signature of the export is forged: what verifies under the signer's own
      key was signed by the signer. */
  ghost predicate NoneForged(su: Setup, w: World, b: Bundle) {
    && (forall i :: 0 <= i < |b.receipts| && b.receipts[i].Parsed? ==>
          var r := b.receipts[i].value;
          Verifies(su.key.publicKey, ReceiptHash(r.body), r.sig) ==> Replied(w, ReceiptHash(r.body)))
    && (forall i :: 0 <= i < |b.checkpoints| && b.checkpoints[i].Parsed? ==>
          var c := b.checkpoints[i].value.checkpoint;
          Verifies(su.key.publicKey, CheckpointHash(c.body), c.sig) ==> Replied(w, CheckpointHash(c.body)))
  }

  /**
   * The export is the signer's. Every receipt of it is one the signer replied, and
   * is, in every signed field, the receipt of the signer's chain at its position;
   * every checkpoint of it is one the signer issued, over a beginning of that chain.
   */
  ghost predicate Genuine(w: World, b: Bundle)
    requires b.manifest.Parsed?
  {
    var m, rs, es := b.manifest.value, Values(b.receipts), Values(b.checkpoints);
    var chain := Durable(w, m.systemId);
    && IsChain(m.systemId, chain)
    && m.fromSeq + |rs| <= |chain|
    && (forall i :: 0 <= i < |rs| ==> rs[i].body == chain[m.fromSeq + i].body && WasReplied(w, rs[i].body))
    && (forall i :: 0 <= i < |es| ==>
          OverPrefix(chain, es[i].checkpoint.body) && WasIssued(w, es[i].checkpoint.body))
  }

  ghost predicate WasReplied(w: World, b: Body) { exists r :: r in w.exposed && r.body == b }

  ghost predicate WasIssued(w: World, b: CheckpointBody) { exists c :: c in w.issued && c.body == b }

  ghost predicate OverPrefix(chain: seq<Receipt>, c: CheckpointBody) {
    1 <= c.treeSize <= |chain| && c.rootHash == Root(Hashes(chain[..c.treeSize]))
  }

  // ----- one signature -----

  /** The key an identifier stands for in the manifest is the signer's, or clashes with it. */
  lemma {:induction false} OnlyTheSignersKey(su: Setup, keys: seq<ManifestKey>, id: KeyId) returns (f: Finding)
    requires su.key.keyId == KeyIdOf(su.key.publicKey) && KeysOk(keys)
    requires id in KeyMap(keys) && id == su.key.keyId
    ensures f.IsReal() || KeyMap(keys)[id] == su.key.publicKey
  {
    KeyMapIsDerived(keys, id);
    f := NOTHING.(clash := KeyClash(KeyMap(keys)[id], su.key.publicKey));
  }

  /** A receipt whose hash was replied is a receipt that was replied. */
  lemma {:induction false} RepliedReceipt(w: World, b: Body) returns (f: Finding)
    requires CanonicalForms() && Replied(w, ReceiptHash(b))
    ensures f.IsReal() || WasReplied(w, b)
  {
    if r :| r in w.exposed && ReceiptHash(r.body) == ReceiptHash(b) {
      f := NOTHING.(collision := Collision(CanonicalReceipt(r.body), CanonicalReceipt(b)));
    } else {
      var c :| c in w.issued && CheckpointHash(c.body) == ReceiptHash(b);
      f := NOTHING.(collision := Collision(CanonicalCheckpoint(c.body), CanonicalReceipt(b)));
    }
  }

  lemma {:induction false} RepliedCheckpoint(w: World, b: CheckpointBody) returns (f: Finding)
    requires CanonicalForms() && Replied(w, CheckpointHash(b))
    ensures f.IsReal() || WasIssued(w, b)
  {
    if r :| r in w.exposed && ReceiptHash(r.body) == CheckpointHash(b) {
      f := NOTHING.(collision := Collision(CanonicalReceipt(r.body), CanonicalCheckpoint(b)));
    } else {
      var c :| c in w.issued && CheckpointHash(c.body) == CheckpointHash(b);
      f := NOTHING.(collision := Collision(CanonicalCheckpoint(c.body), CanonicalCheckpoint(b)));
    }
  }

  // ----- one line of an accepted export -----

  ghost predicate Trusts(su: Setup, w: World, b: Bundle) {
    && CanonicalForms() && su.key.keyId == KeyIdOf(su.key.publicKey)
    && Acceptable(b, Some({su.key.keyId})) && NoneForged(su, w, b)
    && ExposedInv(w) && IssuedInv(su, w)
  }

  ghost predicate ReceiptIsGenuine(w: World, id: SystemId, r: Receipt) {
    var chain := Durable(w, id);
    r.body.seq_ < |chain| && chain[r.body.seq_].body == r.body && WasReplied(w, r.body)
  }

  ghost predicate CheckpointIsGenuine(w: World, id: SystemId, e: CheckpointEntry) {
    OverPrefix(Durable(w, id), e.checkpoint.body) && WasIssued(w, e.checkpoint.body)
  }

  lemma {:induction false} AcceptedReceipt(su: Setup, w: World, b: Bundle, i: nat) returns (f: Finding)
    requires Trusts(su, w, b) && i < |Values(b.receipts)|
    ensures f.IsReal() || ReceiptIsGenuine(w, b.manifest.value.systemId, Values(b.receipts)[i])
  {
    hide CanonicalForms, Durable, IssuedInv, KeysOk, KeyMap, DisclosedOk, IndexFailure, EntryCheck, Describes,
        SequenceOk,
      GenesisOk, LinksOk;
    var m, r := b.manifest.value, b.receipts[i].value;
    assert r == Values(b.receipts)[i];
    assert SignedCheck(r, KeyMap(m.keys), Some({su.key.keyId})).None?;
    f := OnlyTheSignersKey(su, m.keys, r.body.keyId);
    if !f.IsReal() {
      f := RepliedReceipt(w, r.body);
      if !f.IsReal() {
        var x :| x in w.exposed && x.body == r.body;
        assert Remembered(w, x);
      }
    }
  }

  lemma {:induction false} AcceptedCheckpoint(su: Setup, w: World, b: Bundle, i: nat) returns (f: Finding)
    requires Trusts(su, w, b) && i < |Values(b.checkpoints)|
    ensures f.IsReal() || CheckpointIsGenuine(w, b.manifest.value.systemId, Values(b.checkpoints)[i])
  {
    hide CanonicalForms, Durable, ExposedInv, KeysOk, KeyMap, DisclosedOk, IndexFailure, Describes, ReceiptsAccepted,
      RootOk, ProofsOk, Root, Hashes;
    var m, c := b.manifest.value, b.checkpoints[i].value.checkpoint;
    assert EntryCheck(m, Values(b.receipts), KeyMap(m.keys), Some({su.key.keyId}), b.checkpoints[i].value).None?;
    f := OnlyTheSignersKey(su, m.keys, c.body.keyId);
    if !f.IsReal() {
      f := RepliedCheckpoint(w, c.body);
      if !f.IsReal() {
        var x :| x in w.issued && x.body == c.body;
        assert Covered(su, w, x);
      }
    }
  }

  // ----- all of them -----

  ghost predicate ReceiptsGenuine(w: World, id: SystemId, rs: seq<Receipt>) {
    forall i :: 0 <= i < |rs| ==> ReceiptIsGenuine(w, id, rs[i])
  }

  ghost predicate CheckpointsGenuine(w: World, id: SystemId, es: seq<CheckpointEntry>) {
    forall i :: 0 <= i < |es| ==> CheckpointIsGenuine(w, id, es[i])
  }

  lemma {:induction false} AcceptedReceipts(su: Setup, w: World, b: Bundle) returns (f: Finding)
    requires Trusts(su, w, b)
    ensures f.IsReal() || ReceiptsGenuine(w, b.manifest.value.systemId, Values(b.receipts))
  {
    hide CanonicalForms, Durable, ReceiptIsGenuine, Values, KeysOk, DisclosedOk, IndexFailure, EntryCheck, Describes,
      ReceiptsAccepted, NoneForged, ExposedInv, IssuedInv, AllParsed;
    f := FirstReceipts(su, w, b, |Values(b.receipts)|);
    assert Values(b.receipts)[..|Values(b.receipts)|] == Values(b.receipts);
  }

  lemma {:induction false} FirstReceipts(su: Setup, w: World, b: Bundle, n: nat) returns (f: Finding)
    requires Trusts(su, w, b) && b.manifest.Parsed? && n <= |Values(b.receipts)|
    ensures f.IsReal() || ReceiptsGenuine(w, b.manifest.value.systemId, Values(b.receipts)[..n])
  {
    hide *;
    if n == 0 {
      f := NOTHING;
      NoReceipts(w, b.manifest.value.systemId);
    } else {
      f := FirstReceipts(su, w, b, n - 1);
      if !f.IsReal() {
        f := AcceptedReceipt(su, w, b, n - 1);
        TakeStep(Values(b.receipts), n - 1);
        if !f.IsReal() {
          OneMoreReceipt(w, b.manifest.value.systemId, Values(b.receipts)[..n - 1], Values(b.receipts)[n - 1]);
        }
      }
    }
  }

  lemma {:induction false} NoReceipts(w: World, id: SystemId)
    ensures ReceiptsGenuine(w, id, [])
  {
  }

  lemma {:induction false} OneMoreReceipt(w: World, id: SystemId, rs: seq<Receipt>, r: Receipt)
    requires ReceiptsGenuine(w, id, rs) && ReceiptIsGenuine(w, id, r)
    ensures ReceiptsGenuine(w, id, rs + [r])
  {
    hide ReceiptIsGenuine;
  }

  lemma {:induction false} AcceptedCheckpoints(su: Setup, w: World, b: Bundle) returns (f: Finding)
    requires Trusts(su, w, b)
    ensures f.IsReal() || CheckpointsGenuine(w, b.manifest.value.systemId, Values(b.checkpoints))
  {
    hide CanonicalForms, Durable, CheckpointIsGenuine, Values, KeysOk, DisclosedOk, IndexFailure, EntryCheck, Describes,
      ReceiptsAccepted, NoneForged, ExposedInv, IssuedInv, AllParsed;
    f := FirstCheckpoints(su, w, b, |Values(b.checkpoints)|);
    assert Values(b.checkpoints)[..|Values(b.checkpoints)|] == Values(b.checkpoints);
  }

  lemma {:induction false} FirstCheckpoints(su: Setup, w: World, b: Bundle, n: nat) returns (f: Finding)
    requires Trusts(su, w, b) && b.manifest.Parsed? && n <= |Values(b.checkpoints)|
    ensures f.IsReal() || CheckpointsGenuine(w, b.manifest.value.systemId, Values(b.checkpoints)[..n])
  {
    hide *;
    if n == 0 {
      f := NOTHING;
      NoCheckpoints(w, b.manifest.value.systemId);
    } else {
      f := FirstCheckpoints(su, w, b, n - 1);
      if !f.IsReal() {
        f := AcceptedCheckpoint(su, w, b, n - 1);
        TakeStep(Values(b.checkpoints), n - 1);
        if !f.IsReal() {
          OneMoreCheckpoint(w, b.manifest.value.systemId, Values(b.checkpoints)[..n - 1], Values(b.checkpoints)[n - 1]);
        }
      }
    }
  }

  lemma {:induction false} NoCheckpoints(w: World, id: SystemId)
    ensures CheckpointsGenuine(w, id, [])
  {
  }

  lemma {:induction false} OneMoreCheckpoint(w: World, id: SystemId, es: seq<CheckpointEntry>, e: CheckpointEntry)
    requires CheckpointsGenuine(w, id, es) && CheckpointIsGenuine(w, id, e)
    ensures CheckpointsGenuine(w, id, es + [e])
  {
    hide CheckpointIsGenuine;
  }

  /** Consecutive receipts that are each in the chain are a window of it. */
  lemma {:induction false} GenuineWindow(w: World, m: Manifest, rs: seq<Receipt>, trusted: Trusted)
    requires ReceiptsAccepted(m, rs, trusted) && ReceiptsGenuine(w, m.systemId, rs)
    ensures var chain := Durable(w, m.systemId);
            m.fromSeq + |rs| <= |chain|
            && forall i :: 0 <= i < |rs| ==> rs[i].body == chain[m.fromSeq + i].body && WasReplied(w, rs[i].body)
  {
    hide LinksOk, GenesisOk, SignedCheck, Durable, WasReplied;
    assert ReceiptIsGenuine(w, m.systemId, rs[|rs| - 1]);
    forall i | 0 <= i < |rs|
      ensures rs[i].body == Durable(w, m.systemId)[m.fromSeq + i].body && WasReplied(w, rs[i].body)
    {
      assert ReceiptIsGenuine(w, m.systemId, rs[i]);
    }
  }

  lemma {:induction false} TrustedExportIsGenuine(su: Setup, w: World, b: Bundle) returns (f: Finding)
    requires Inv(su, w) && Trusts(su, w, b)
    ensures f.IsReal() || Genuine(w, b)
  {
    hide Inv, Durable, NoneForged, ExposedInv, IssuedInv, KeysOk, DisclosedOk, IndexFailure, EntryCheck, Describes,
      ReceiptsAccepted, OverPrefix, ReceiptsGenuine, IsChain, CanonicalForms, WasReplied, WasIssued;
    var m := b.manifest.value;
    DurableIsChain(su, w, m.systemId);
    f := AcceptedReceipts(su, w, b);
    if !f.IsReal() {
      GenuineWindow(w, m, Values(b.receipts), Some({su.key.keyId}));
      f := AcceptedCheckpoints(su, w, b);
    }
  }

  /**
   * Tamper evidence, end to end. Over every run of the signer, killed and cut at
   * whatever steps: an export accepted by a verifier told to expect only the
   * signer's key is a contiguous window of the one chain the signer keeps, made of
   * receipts it replied and of checkpoints it issued over beginnings of that
   * chain; or a collision, or a key with the same identifier, is at hand. The
   * chain is the one that no power cut can take away, and holds all that was replied.
   */
  lemma {:induction false} AcceptedExportIsTheSignersChain(
      su: Setup, w: World, es: seq<Event>, b: Bundle) returns (f: Finding)
    requires CanonicalForms() && JsonLines()
    requires Initial(su, w) && Admissible(su, w, es) && RepliesSettled(su, w, es)
    requires su.key.keyId == KeyIdOf(su.key.publicKey)
    requires FirstFailure(b, Some({su.key.keyId})).None?
    requires NoneForged(su, Run(su, w, es), b)
    ensures b.manifest.Parsed?
    ensures HoldsReplied(Run(su, w, es), b.manifest.value.systemId)
    ensures f.IsReal() || Genuine(Run(su, w, es), b)
  {
    hide CanonicalForms, JsonLines, Inv, NoneForged, ExposedInv, IssuedInv, HoldsReplied, Genuine, Acceptable,
        FirstFailure;
    InitialInv(su, w);
    RunKeeps(su, w, es);
    VerifiesIffAcceptable(b, Some({su.key.keyId}));
    ManifestParsed(b, Some({su.key.keyId}));
    var v := Run(su, w, es);
    ExposedInChain(v, b.manifest.value.systemId);
    f := TrustedExportIsGenuine(su, v, b);
  }

  /** With no condition on replies, over runs in which the process is never killed by itself. */
  lemma {:induction false} AcceptedExportUnderPowerCuts(
      su: Setup, w: World, es: seq<Event>, b: Bundle) returns (f: Finding)
    requires CanonicalForms() && JsonLines()
    requires Initial(su, w) && Admissible(su, w, es) && forall i :: 0 <= i < |es| ==> NoKill(es[i])
    requires su.key.keyId == KeyIdOf(su.key.publicKey)
    requires FirstFailure(b, Some({su.key.keyId})).None?
    requires NoneForged(su, Run(su, w, es), b)
    ensures b.manifest.Parsed?
    ensures HoldsReplied(Run(su, w, es), b.manifest.value.systemId)
    ensures f.IsReal() || Genuine(Run(su, w, es), b)
  {
    hide *;
    InitialInv(su, w);
    InitialIsQuiet(su, w);
    PowerCutsAloneAreSettled(su, w, es);
    f := AcceptedExportIsTheSignersChain(su, w, es, b);
  }

  lemma {:induction false} InitialIsQuiet(su: Setup, w: World)
    requires Initial(su, w)
    ensures QuietInv(w)
  {
    hide ContentFor;
    forall id
      ensures Settled(w, id)
    {
      assert FilesOf(w.dir, id) == InitialFiles(su, id);
    }
  }

  lemma {:induction false} ManifestParsed(b: Bundle, trusted: Trusted)
    requires Acceptable(b, trusted)
    ensures b.manifest.Parsed?
  {
  }

  /** Every receipt of the system ever replied is in the chain that is sure to last. */
  ghost predicate HoldsReplied(w: World, id: SystemId) {
    forall r :: r in w.exposed && r.body.systemId == id ==> r in Durable(w, id)
  }

  lemma {:induction false} ExposedInChain(w: World, id: SystemId)
    requires ExposedInv(w)
    ensures HoldsReplied(w, id)
  {
    hide Durable;
    forall r | r in w.exposed && r.body.systemId == id
      ensures r in Durable(w, id)
    {
      assert Remembered(w, r);
    }
  }

  // ----- what one genuine checkpoint pins by itself -----

  /**
   * Even where the receipts were signed afresh by whoever holds the key: a
   * checkpoint over a chain, tied to an export by a rebuilt root or by a proof,
   * pins every receipt of the export up to the one it is tied at.
   */
  lemma {:induction false} CheckpointPinsReceipts(
      id: SystemId, chain: seq<Receipt>, rs: seq<Receipt>, e: CheckpointEntry, t: nat) returns (c: Collision)
    requires CanonicalForms() && IsChain(id, chain) && Segment(id, rs)
    requires OverPrefix(chain, e.checkpoint.body) && RootOk(rs, e.checkpoint.body) && ProofsOk(rs, e)
    requires Has(rs, t) && TiedAtOrAfter(rs, e, t)
    ensures c.IsReal() || (t < |chain| && At(rs, t).body == chain[t].body)
  {
    hide CanonicalForms, RootOk, ProofsOk, Segment, IsChain;
    if Rebuildable(rs, e.checkpoint.body.treeSize) && t < e.checkpoint.body.treeSize {
      c := RebuiltRootPins(chain, rs, e.checkpoint.body, t);
    } else {
      var k :| 0 <= k < |e.proofs| && t <= e.proofs[k].seq_;
      c := ProofPins(id, chain, rs, e, k);
      if !c.IsReal() {
        WindowIsSegment(id, chain, 0, |chain|);
        assert chain[0..|chain|] == chain;
        FirstOfChain(id, chain);
        c := AgreeBackwards(id, rs, chain, e.proofs[k].seq_, t);
      }
    }
  }

  ghost predicate TiedAtOrAfter(rs: seq<Receipt>, e: CheckpointEntry, t: nat) {
    || (Rebuildable(rs, e.checkpoint.body.treeSize) && t < e.checkpoint.body.treeSize)
    || exists k :: 0 <= k < |e.proofs| && t <= e.proofs[k].seq_
  }

  lemma {:induction false} FirstOfChain(id: SystemId, chain: seq<Receipt>)
    requires IsChain(id, chain) && |chain| > 0
    ensures First(chain) == 0
  {
  }

  lemma {:induction false} RebuiltRootPins(
      chain: seq<Receipt>, rs: seq<Receipt>, b: CheckpointBody, t: nat) returns (c: Collision)
    requires CanonicalForms() && OverPrefix(chain, b) && RootOk(rs, b)
    requires Rebuildable(rs, b.treeSize) && t < b.treeSize
    ensures c.IsReal() || rs[t].body == chain[t].body
  {
    hide CanonicalForms, Root, Hashes;
    var xs, ys := Hashes(rs[..b.treeSize]), Hashes(chain[..b.treeSize]);
    if xs != ys {
      c := TreeCollision(xs, ys);
    } else {
      assert xs[t] == ReceiptHash(rs[t].body) && ys[t] == ReceiptHash(chain[t].body);
      c := SameHashSameBody(rs[t].body, chain[t].body);
    }
  }

  lemma {:induction false} ProofPins(
      id: SystemId, chain: seq<Receipt>, rs: seq<Receipt>, e: CheckpointEntry, k: nat) returns (c: Collision)
    requires OverPrefix(chain, e.checkpoint.body) && ProofsOk(rs, e) && Segment(id, rs) && k < |e.proofs|
    ensures c.IsReal() ||
            (var s := e.proofs[k].seq_;
             Has(rs, s) && s < |chain| && ReceiptHash(At(rs, s).body) == ReceiptHash(chain[s].body))
  {
    hide Root, LinksOk, RootFromProof, Path, Hashes;
    var b, p := e.checkpoint.body, e.proofs[k];
    assert ProofOk(rs, b, p);
    FindInSequence(rs, p.seq_);
    var es := Hashes(chain[..b.treeSize]);
    ProofIndexInTree(p.receiptHash, p.seq_, b.treeSize, p.path);
    c := AcceptedProofIsHonest(es, p.receiptHash, p.seq_, p.path);
    assert es[p.seq_] == ReceiptHash(chain[p.seq_].body);
  }

  lemma {:induction false} ProofIndexInTree(entry: Entry, index: nat, size: nat, proof: seq<Bytes>)
    requires RootFromProof(entry, index, size, proof).Ok?
    ensures index < size
  {
  }
}
