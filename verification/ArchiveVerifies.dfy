/**
 * Honest archives verify: apps/server/src/export/archive.ts against
 * packages/verifier/src/verify.ts.
 */
module ArchiveVerifies {
  import opened Prelude
  import opened Merkle
  import opened Receipts
  import opened StableSort
  import opened Verifier
  import opened VerifyBundle
  import opened PreviousExport
  import opened TamperEvidence
  import opened Archive

  // ----- what an honest store hands over -----

  /** A window of a chain whose genesis names its system (which the signer itself
      does not check). */
  ghost predicate HonestReceipts(input: ArchiveInput, chain: seq<Receipt>) {
    var rs := input.receipts;
    && IsChain(input.systemId, chain) && |rs| > 0 && First(rs) + |rs| <= |chain|
    && rs == chain[First(rs)..First(rs) + |rs|]
    && chain[0].body.kind == Genesis && chain[0].body.name == input.systemId
  }

  ghost predicate HonestCheckpoint(input: ArchiveInput, chain: seq<Receipt>, trusted: Trusted, c: Checkpoint) {
    && c.body.systemId == input.systemId && OverPrefix(chain, c.body)
    && c.body.keyId in KeyMap(input.keys) && IsTrusted(trusted, c.body.keyId)
    && Verifies(KeyMap(input.keys)[c.body.keyId], CheckpointHash(c.body), c.sig)
  }

  /** Every signing key is published, and everything is signed. */
  ghost predicate HonestSignatures(input: ArchiveInput, chain: seq<Receipt>, trusted: Trusted) {
    && KeysOk(input.keys)
    && (forall i :: 0 <= i < |input.receipts| ==> SignedCheck(input.receipts[i], KeyMap(input.keys), trusted).None?)
    && (forall i :: 0 <= i < |input.checkpoints| ==>
        HonestCheckpoint(input, chain, trusted, input.checkpoints[i].checkpoint))
  }

  /** Of what is disclosed, the nonces of exported receipts are of salted digests,
      and nothing is disclosed twice. */
  ghost predicate HonestDisclosures(input: ArchiveInput) {
    && (forall i :: 0 <= i < |input.openings| && IsExported(input.receipts, input.openings[i].seq_) ==>
          OpeningOk(input.receipts, input.openings[i]))
    && (forall i, j :: 0 <= i < j < |input.openings| ==>
          (input.openings[i].seq_, input.openings[i].role) != (input.openings[j].seq_, input.openings[j].role))
    && (forall i, j :: 0 <= i < j < |input.subjects| ==> input.subjects[i].token != input.subjects[j].token)
  }

  ghost predicate Honest(input: ArchiveInput, chain: seq<Receipt>, trusted: Trusted) {
    && HonestReceipts(input, chain)
    && HonestSignatures(input, chain, trusted)
    && HonestDisclosures(input)
    && (input.chainLeaves.Some? ==> input.chainLeaves.value <= Hashes(chain))
  }

  // ----- the receipts -----

  lemma {:induction false} ReceiptsPass(
      input: ArchiveInput, chain: seq<Receipt>, trusted: Trusted, es: seq<CheckpointEntry>)
    requires Honest(input, chain, trusted)
    ensures ReceiptsAccepted(ManifestFor(input, es), input.receipts, trusted)
  {
    hide HonestDisclosures, HonestCheckpoint, SignedCheck, KeysOk, Hashes;
    var rs := input.receipts;
    WindowIsSegment(input.systemId, chain, First(rs), First(rs) + |rs|);
    if First(rs) == 0 {
      assert chain[0].body.prevHash == ExpectedPrev(chain, 0);
    }
  }

  lemma {:induction false} LeavesAreOfChain(input: ArchiveInput, chain: seq<Receipt>, size: nat)
    requires HonestReceipts(input, chain) && (input.chainLeaves.Some? ==> input.chainLeaves.value <= Hashes(chain))
    requires size <= |LeavesFor(input)|
    ensures size <= |chain| && LeavesFor(input)[..size] == Hashes(chain[..size])
  {
    hide IsChain, ReceiptHash, Hashes;
    assert LeavesFor(input) <= Hashes(chain) by {
      var rs := input.receipts;
      if input.chainLeaves.None? && First(rs) == 0 {
        assert rs == chain[..|rs|];
        HashesPrefix(chain, |rs|);
      }
    }
    HashesPrefix(chain, size);
    assert LeavesFor(input)[..size] == Hashes(chain)[..size];
  }

  // ----- one checkpoint -----

  /** The proofs of a checkpoint reaching past the window's first receipt are of the
      window's first receipt and of its last under the tree. */
  lemma {:induction false} PositionsOfWindow(rs: seq<Receipt>, size: nat)
    requires |rs| > 0 && SequenceOk(rs) && size > First(rs)
    ensures ProofPositions(rs, size) ==
            if |rs| == 1 || size == First(rs) + 1 then [First(rs)] else [First(rs), Min(First(rs) + |rs|, size) - 1]
  {
    hide InTree;
    InTreeOfWindow(rs, size);
    var n := Min(|rs|, size - First(rs));
    assert InTree(rs, size) == rs[..n];
    assert rs[n - 1].body.seq_ == First(rs) + n - 1;
  }

  lemma {:induction false} HonestProofPasses(input: ArchiveInput, chain: seq<Receipt>, c: CheckpointBody, s: nat)
    requires HonestReceipts(input, chain) && (input.chainLeaves.Some? ==> input.chainLeaves.value <= Hashes(chain))
    requires OverPrefix(chain, c) && s < c.treeSize <= |LeavesFor(input)|
    requires exists r :: r in input.receipts && r.body.seq_ == s
    ensures ProofOk(input.receipts, c, ProofAt(input.receipts, LeavesFor(input), c.treeSize, s))
  {
    hide Hashes, Root, LeavesFor, RootFromProof;
    var rs := input.receipts;
    WindowIsSegment(input.systemId, chain, First(rs), First(rs) + |rs|);
    LeavesAreOfChain(input, chain, c.treeSize);
    var tree := Hashes(chain[..c.treeSize]);
    FindInSequence(rs, s);
    assert tree[s] == ReceiptHash(chain[s].body);
    HonestProofRebuildsRoot(tree, s);
  }

  lemma {:induction false} EntryPasses(
      input: ArchiveInput, chain: seq<Receipt>, trusted: Trusted, es: seq<CheckpointEntry>, c: StoredCheckpoint)
    requires Honest(input, chain, trusted) && HonestCheckpoint(input, chain, trusted, c.checkpoint)
    ensures EntryCheck(ManifestFor(input, es), input.receipts, KeyMap(input.keys), trusted,
                       EntryFor(input.receipts, LeavesFor(input), c)).None?
  {
    hide HonestDisclosures, HonestSignatures, Hashes, Root, LeavesFor, KeyMap, ProofPositions, ProofAt, ProofOk,
        HighestVersion,
      TotalTimestamps, Anchors;
    var rs, leaves, b := input.receipts, LeavesFor(input), c.checkpoint.body;
    var e := EntryFor(rs, leaves, c);
    assert ProofsOk(rs, e) by {
      forall i | 0 <= i < |e.proofs|
        ensures ProofOk(rs, b, e.proofs[i])
      {
        HonestProofPasses(input, chain, b, ProofPositions(rs, b.treeSize)[i]);
      }
    }
    if Rebuildable(rs, b.treeSize) {
      assert rs[..b.treeSize] == chain[..b.treeSize];
    }
  }

  // ----- beside the receipts -----

  lemma {:induction false} IndexPasses(rs: seq<Receipt>)
    ensures IndexFailure(rs, AsLines(IndexOf(rs))).None?
  {
    IndexIsDeclared(rs);
    ReadBack(IndexOf(rs));
  }

  lemma {:induction false} KeptOpeningsPass(rs: seq<Receipt>, es: seq<OpeningEntry>)
    requires forall i :: 0 <= i < |es| && IsExported(rs, es[i].seq_) ==> OpeningOk(rs, es[i])
    requires forall i, j :: 0 <= i < j < |es| ==> (es[i].seq_, es[i].role) != (es[j].seq_, es[j].role)
    ensures OpeningsOk(rs, OpeningsKept(rs, es))
    ensures forall e :: e in OpeningsKept(rs, es) ==> e in es
    decreases |es|
  {
    hide OpeningOk, IsExported;
    if es != [] {
      var front := es[..|es| - 1];
      KeptOpeningsPass(rs, front);
      var kept := OpeningsKept(rs, front);
      forall i | 0 <= i < |kept|
        ensures (kept[i].seq_, kept[i].role) != (es[|es| - 1].seq_, es[|es| - 1].role)
      {
        assert kept[i] in front;
      }
    }
  }

  lemma {:induction false} KeptSubjectsPass(rs: seq<Receipt>, es: seq<SubjectEntry>)
    requires forall i, j :: 0 <= i < j < |es| ==> es[i].token != es[j].token
    ensures SubjectsOk(rs, SubjectsKept(rs, es))
    ensures forall e :: e in SubjectsKept(rs, es) ==> e in es
    decreases |es|
  {
    hide TokenUsed;
    if es != [] {
      var front := es[..|es| - 1];
      KeptSubjectsPass(rs, front);
      var kept := SubjectsKept(rs, front);
      forall i | 0 <= i < |kept|
        ensures kept[i].token != es[|es| - 1].token
      {
        assert kept[i] in front;
      }
    }
  }

  // ----- all of it -----

  lemma {:induction false} RelevantAreStored(input: ArchiveInput, i: nat)
    requires |input.receipts| > 0 && i < |RelevantFor(input)|
    ensures RelevantFor(input)[i].item in input.checkpoints
    ensures RelevantFor(input)[i].size == RelevantFor(input)[i].item.checkpoint.body.treeSize
  {
    hide Relevant, Sort;
    var sorted := Sort(BySize(input.checkpoints));
    SortIsInOrder(BySize(input.checkpoints));
    var a, b := RelevantIsSelection(sorted, First(input.receipts), Last(input.receipts));
    assert RelevantFor(input)[i] == sorted[a + i];
    assert sorted[a + i] in BySize(input.checkpoints);
  }

  /**
   * An archive built of a window of a valid chain, every signing key published and
   * every checkpoint over a beginning of the chain, is accepted, whoever the
   * verifier trusts among those keys, with or without the chain's leaves.
   */
  lemma {:induction false} HonestArchiveVerifies(input: ArchiveInput, chain: seq<Receipt>, trusted: Trusted)
    requires Honest(input, chain, trusted)
    ensures FirstFailure(ArchiveOf(input), trusted).None?
  {
    var es := EntriesFor(input.receipts, LeavesFor(input), RelevantFor(input));
    hide *;
    ReceiptsPass(input, chain, trusted, es);
    IndexPasses(input.receipts);
    DisclosuresPass(input, chain, trusted);
    EntriesPass(input, chain, trusted);
    PartsMakeTheWhole(input, trusted, es);
    BundleIsArchive(input);
    VerifiesIffAcceptable(ArchiveOf(input), trusted);
  }

  lemma {:induction false} BundleIsArchive(input: ArchiveInput)
    requires |input.receipts| > 0
    ensures ArchiveOf(input) == BundleFor(input, EntriesFor(input.receipts, LeavesFor(input), RelevantFor(input)))
  {
  }

  ghost predicate EntriesOk(input: ArchiveInput, trusted: Trusted, es: seq<CheckpointEntry>)
    requires |input.receipts| > 0
  {
    forall i :: 0 <= i < |es| ==>
      EntryCheck(ManifestFor(input, es), input.receipts, KeyMap(input.keys), trusted, es[i]).None?
  }

  lemma {:induction false} EntriesPass(input: ArchiveInput, chain: seq<Receipt>, trusted: Trusted)
    requires Honest(input, chain, trusted)
    ensures |input.receipts| > 0 && KeysOk(input.keys)
    ensures EntriesOk(input, trusted, EntriesFor(input.receipts, LeavesFor(input), RelevantFor(input)))
  {
    hide EntryCheck, EntryFor, RelevantFor, KeyMap, LeavesFor, HonestCheckpoint, HonestDisclosures, SignedCheck,
        ManifestFor, KeysOk;
    var es := EntriesFor(input.receipts, LeavesFor(input), RelevantFor(input));
    forall i | 0 <= i < |es|
      ensures EntryCheck(ManifestFor(input, es), input.receipts, KeyMap(input.keys), trusted, es[i]).None?
    {
      RelevantAreStored(input, i);
      EntryPasses(input, chain, trusted, es, RelevantFor(input)[i].item);
    }
  }

  lemma {:induction false} DisclosuresPass(input: ArchiveInput, chain: seq<Receipt>, trusted: Trusted)
    requires Honest(input, chain, trusted)
    ensures OpeningsOk(input.receipts, OpeningsKept(input.receipts, input.openings))
    ensures SubjectsOk(input.receipts, SubjectsKept(input.receipts, input.subjects))
  {
    hide OpeningsOk, SubjectsOk, OpeningOk, IsExported, HonestReceipts, HonestSignatures;
    KeptOpeningsPass(input.receipts, input.openings);
    KeptSubjectsPass(input.receipts, input.subjects);
  }

  lemma {:induction false} PartsMakeTheWhole(input: ArchiveInput, trusted: Trusted, es: seq<CheckpointEntry>)
    requires |input.receipts| > 0 && KeysOk(input.keys)
    requires ReceiptsAccepted(ManifestFor(input, es), input.receipts, trusted)
    requires IndexFailure(input.receipts, AsLines(IndexOf(input.receipts))).None?
    requires OpeningsOk(input.receipts, OpeningsKept(input.receipts, input.openings))
    requires SubjectsOk(input.receipts, SubjectsKept(input.receipts, input.subjects))
    requires EntriesOk(input, trusted, es)
    ensures Acceptable(BundleFor(input, es), trusted)
  {
    var rs := input.receipts;
    hide ReceiptsAccepted, IndexFailure, OpeningsOk, SubjectsOk, EntryCheck, KeysOk, KeyMap, IndexOf, OpeningsKept,
        SubjectsKept,
      HighestVersion, TotalTimestamps;
    ReadBack(rs);
    ReadBack(es);
    ReadBack(OpeningsKept(rs, input.openings));
    ReadBack(SubjectsKept(rs, input.subjects));
    hide AllParsed, Values, AsLines;
    var b := BundleFor(input, es);
    assert b.receipts == AsLines(rs) && b.checkpoints == AsLines(es);
  }

  // ----- the counters of the summary -----

  function SizeOf(e: CheckpointEntry): nat { e.checkpoint.body.treeSize }

  /** Reaching past the window's first receipt, with every proof it can have. */
  ghost predicate Proven(rs: seq<Receipt>, e: CheckpointEntry)
    requires |rs| > 0
  {
    SizeOf(e) > First(rs) && |e.proofs| == if |rs| == 1 || SizeOf(e) == First(rs) + 1 then 1 else 2
  }

  /** By size, and only the final one past the end of the window. */
  ghost predicate UpToTheFirstCover(rs: seq<Receipt>, es: seq<CheckpointEntry>)
    requires |rs| > 0
  {
    && (forall i, j :: 0 <= i < j < |es| ==> SizeOf(es[i]) <= SizeOf(es[j]))
    && (forall i :: 0 <= i < |es| - 1 ==> SizeOf(es[i]) <= Last(rs))
    && (forall i :: 0 <= i < |es| ==> Proven(rs, es[i]))
  }

  function CountOfSize(es: seq<CheckpointEntry>, n: nat): nat {
    if es == [] then 0 else CountOfSize(es[..|es| - 1], n) + (if SizeOf(es[|es| - 1]) == n then 1 else 0)
  }

  /** The counters, in closed form. */
  ghost predicate Tallied(rs: seq<Receipt>, es: seq<CheckpointEntry>, t: Tally)
    requires |rs| > 0
  {
    && t.unlinked == 0 && |t.linked| == |es|
    && t.proofs == (if |rs| == 1 then |es| else 2 * |es| - CountOfSize(es, First(rs) + 1))
    && t.roots == (if First(rs) > 0 then 0 else if |es| > 0 && SizeOf(es[|es| - 1]) > |rs| then |es| - 1 else |es|)
    && t.anchored == (if es == [] then None else Some(SizeOf(es[|es| - 1])))
  }

  lemma {:induction false} TallyInClosedForm(rs: seq<Receipt>, es: seq<CheckpointEntry>)
    requires |rs| > 0 && SequenceOk(rs) && UpToTheFirstCover(rs, es)
    ensures Tallied(rs, es, TallyOf(rs, es))
    decreases |es|
  {
    if es != [] {
      var front, last := es[..|es| - 1], es[|es| - 1];
      assert forall i :: 0 <= i < |front| ==> front[i] == es[i];
      TallyInClosedForm(rs, front);
      assert Proven(rs, last);
      assert Last(rs) == First(rs) + |rs| - 1;
      if front != [] {
        assert SizeOf(front[|front| - 1]) <= SizeOf(last) && SizeOf(front[|front| - 1]) <= Last(rs);
      }
    }
  }

  lemma {:induction false} RelevantInOrder(input: ArchiveInput)
    requires |input.receipts| > 0
    ensures var r, rs := RelevantFor(input), input.receipts;
            && InOrder(r)
            && (forall i :: 0 <= i < |r| ==> r[i].size > First(rs))
            && (forall i :: 0 <= i < |r| - 1 ==> r[i].size <= Last(rs))
  {
    hide Relevant, Sort, BySize;
    SortIsInOrder(BySize(input.checkpoints));
    var sorted := Sort(BySize(input.checkpoints));
    var a, b := RelevantIsSelection(sorted, First(input.receipts), Last(input.receipts));
  }

  lemma {:induction false} EntryIsProven(input: ArchiveInput, chain: seq<Receipt>, c: StoredCheckpoint)
    requires |input.receipts| > 0 && SequenceOk(input.receipts) && input.chainLeaves == Some(Hashes(chain))
    requires OverPrefix(chain, c.checkpoint.body) && c.checkpoint.body.treeSize > First(input.receipts)
    ensures Proven(input.receipts, EntryFor(input.receipts, LeavesFor(input), c))
  {
    hide Root, ProofPositions, ProofAt, Anchors;
    PositionsOfWindow(input.receipts, c.checkpoint.body.treeSize);
  }

  lemma {:induction false} RelevantAreProven(input: ArchiveInput, chain: seq<Receipt>)
    requires |input.receipts| > 0 && SequenceOk(input.receipts) && input.chainLeaves == Some(Hashes(chain))
    requires forall c :: c in input.checkpoints ==> OverPrefix(chain, c.checkpoint.body)
    ensures UpToTheFirstCover(input.receipts, CarriedEntries(input))
  {
    var rs, leaves, r := input.receipts, LeavesFor(input), RelevantFor(input);
    var es := EntriesFor(rs, leaves, r);
    hide RelevantFor, OverPrefix, ProofsFor, Anchors, EntriesFor, SequenceOk, LeavesFor, First, Last;
    RelevantInOrder(input);
    forall i | 0 <= i < |es|
      ensures SizeOf(es[i]) == r[i].size && Proven(rs, es[i])
    {
      RelevantAreStored(input, i);
      EntryIsProven(input, chain, r[i].item);
    }
  }

  lemma {:induction false} HonestStore(input: ArchiveInput, chain: seq<Receipt>, trusted: Trusted)
    requires Honest(input, chain, trusted)
    ensures HonestReceipts(input, chain) && |input.receipts| > 0
    ensures forall c :: c in input.checkpoints ==> OverPrefix(chain, c.checkpoint.body)
  {
    hide HonestDisclosures, OverPrefix, SignedCheck, KeysOk, KeyMap, IsChain;
    forall c | c in input.checkpoints
      ensures OverPrefix(chain, c.checkpoint.body)
    {
      var i :| 0 <= i < |input.checkpoints| && input.checkpoints[i] == c;
      assert HonestCheckpoint(input, chain, trusted, input.checkpoints[i].checkpoint);
    }
  }

  lemma {:induction false} HonestWindow(input: ArchiveInput, chain: seq<Receipt>)
    requires HonestReceipts(input, chain)
    ensures SequenceOk(input.receipts)
  {
    WindowIsSegment(input.systemId, chain, First(input.receipts), First(input.receipts) + |input.receipts|);
  }

  /** The counters of a summary, in closed form. */
  ghost predicate Counted(rs: seq<Receipt>, es: seq<CheckpointEntry>, s: Summary)
    requires |rs| > 0
  {
    var n := |es|;
    && s.receipts == |rs| && s.firstSeq == First(rs) && s.lastSeq == Last(rs) && s.checkpoints == n
    && s.unlinkedCheckpoints == 0
    && s.inclusionProofs == (if |rs| == 1 then n else 2 * n - CountOfSize(es, First(rs) + 1))
    && s.rootsRecomputed == (if First(rs) > 0 then 0 else if n > 0 && SizeOf(es[n - 1]) > |rs| then n - 1 else n)
    && s.unanchoredReceipts == (if n == 0 then 0 else Max(0, First(rs) + |rs| - SizeOf(es[n - 1])))
  }

  ghost predicate Reports(rs: seq<Receipt>, es: seq<CheckpointEntry>, t: Tally, s: Summary)
    requires |rs| > 0
  {
    && s.receipts == |rs| && s.firstSeq == First(rs) && s.lastSeq == Last(rs) && s.checkpoints == |es|
    && s.inclusionProofs == t.proofs && s.rootsRecomputed == t.roots && s.unlinkedCheckpoints == t.unlinked
    && s.unanchoredReceipts == Unanchored(rs, t)
  }

  ghost function CarriedEntries(input: ArchiveInput): seq<CheckpointEntry>
    requires |input.receipts| > 0
  {
    EntriesFor(input.receipts, LeavesFor(input), RelevantFor(input))
  }

  /** Entry e carries stored checkpoint c as it is, and every token of it, in order. */
  ghost predicate Carries(e: CheckpointEntry, c: StoredCheckpoint) {
    && e.checkpoint == c.checkpoint && |e.timestamps| == |c.timestamps|
    && forall k :: 0 <= k < |c.timestamps| ==>
         e.timestamps[k]
         == Timestamp(c.timestamps[k].tsaUrl, c.timestamps[k].obtainedAt, TokenPath(c.checkpoint.body.treeSize, k))
  }

  /**
   * No anchor is lost: of the checkpoints stored, by size, the archive carries the
   * slice from the first that reaches past its first receipt to the first that
   * reaches past its last, each with every one of its tokens; and it holds the
   * receipts and the keys it was given.
   */
  lemma {:induction false} ArchiveCarriesWhatIsStored(input: ArchiveInput) returns (a: nat, b: nat)
    requires |input.receipts| > 0
    ensures var sorted, es := Sort(BySize(input.checkpoints)), CarriedEntries(input);
            && IsSelection(sorted, First(input.receipts), Last(input.receipts), a, b)
            && |es| == b - a
            && (forall i :: 0 <= i < |es| ==> Carries(es[i], sorted[a + i].item))
    ensures var bundle, es := ArchiveOf(input), CarriedEntries(input);
            && Values(bundle.receipts) == input.receipts && Values(bundle.checkpoints) == es
            && bundle.manifest.Parsed? && bundle.manifest.value.keys == input.keys
            && bundle.manifest.value.systemId == input.systemId
            && ManifestIsTrue(bundle.manifest.value, input.receipts, es)
  {
    hide Sort, IsSelection, Relevant, ProofsFor, Anchors, HighestVersion, TotalTimestamps, AllTimestamps, LeavesFor;
    var sorted := Sort(BySize(input.checkpoints));
    SortIsInOrder(BySize(input.checkpoints));
    a, b := RelevantIsSelection(sorted, First(input.receipts), Last(input.receipts));
    SelectionIsWithin(sorted, First(input.receipts), Last(input.receipts), a, b);
    var es := CarriedEntries(input);
    forall i | 0 <= i < |es|
      ensures Carries(es[i], sorted[a + i].item)
    {
      var c := sorted[a + i].item;
      assert RelevantFor(input)[i] == sorted[a + i];
      AnchorsAreTheTokens(c.checkpoint.body.treeSize, c.timestamps);
    }
    ReadBack(input.receipts);
    ReadBack(es);
    HighestIsTheMaximum(input.receipts);
    TotalIsOfAll(es);
  }

  /** The leaves of a tree of this size are at hand: supplied, or the window's own where it starts at 0. */
  ghost predicate HasLeaves(input: ArchiveInput, size: nat)
    requires |input.receipts| > 0
  {
    if input.chainLeaves.Some? then size <= |input.chainLeaves.value|
    else First(input.receipts) == 0 && size <= |input.receipts|
  }

  /** One proof of the first receipt under the tree and one of the last, or one where they are the same. */
  ghost predicate OfTheEnds(rs: seq<Receipt>, size: nat, proofs: seq<InclusionProofEntry>)
    requires |rs| > 0 && size > First(rs)
  {
    var from, last := First(rs), Min(First(rs) + |rs|, size) - 1;
    && 1 <= |proofs| <= 2 && (|proofs| == 1 <==> last == from)
    && IsOf(proofs[0], from, rs[0]) && IsOf(proofs[|proofs| - 1], last, rs[last - from])
  }

  ghost predicate IsOf(p: InclusionProofEntry, s: nat, r: Receipt) {
    p.seq_ == s && p.receiptHash == ReceiptHash(r.body)
  }

  lemma {:induction false} ProofAtIsOf(rs: seq<Receipt>, leaves: seq<Entry>, size: nat, s: nat)
    requires |rs| > 0 && SequenceOk(rs) && First(rs) <= s < First(rs) + |rs| && s < size <= |leaves|
    ensures exists r :: r in rs && r.body.seq_ == s
    ensures IsOf(ProofAt(rs, leaves, size, s), s, rs[s - First(rs)])
  {
    FindInSequence(rs, s);
    assert rs[s - First(rs)] in rs;
  }

  lemma {:induction false} ProofsAreOfTheEnds(rs: seq<Receipt>, leaves: seq<Entry>, size: nat)
    requires |rs| > 0 && SequenceOk(rs)
    ensures var proofs := ProofsFor(rs, leaves, size);
            if |leaves| < size || size <= First(rs) then proofs == [] else OfTheEnds(rs, size, proofs)
  {
    hide SequenceOk, ProofPositions, ProofAt, IsOf;
    PositionsUnderTree(rs, size);
    if size <= |leaves| && First(rs) < size {
      ProofAtIsOf(rs, leaves, size, First(rs));
      ProofAtIsOf(rs, leaves, size, Min(First(rs) + |rs|, size) - 1);
    }
  }

  /** Every checkpoint carried is tied to the window, at both ends of what is under its tree,
      wherever there is something under it and its leaves are at hand. */
  lemma {:induction false} CarriedAreProven(input: ArchiveInput, i: nat)
    requires |input.receipts| > 0 && SequenceOk(input.receipts) && i < |CarriedEntries(input)|
    ensures var e := CarriedEntries(input)[i];
            var size := e.checkpoint.body.treeSize;
            if !HasLeaves(input, size) || size <= First(input.receipts) then e.proofs == []
            else OfTheEnds(input.receipts, size, e.proofs)
  {
    hide RelevantFor, Anchors, SequenceOk, ProofsFor, OfTheEnds;
    var c := RelevantFor(input)[i].item;
    assert CarriedEntries(input)[i] == EntryFor(input.receipts, LeavesFor(input), c);
    ProofsAreOfTheEnds(input.receipts, LeavesFor(input), c.checkpoint.body.treeSize);
  }

  lemma {:induction false} PositionsUnderTree(rs: seq<Receipt>, size: nat)
    requires |rs| > 0 && SequenceOk(rs)
    ensures ProofPositions(rs, size) ==
            if size <= First(rs) then [] else
            if |rs| == 1 || size == First(rs) + 1 then [First(rs)] else [First(rs), Min(First(rs) + |rs|, size) - 1]
  {
    hide InTree;
    InTreeOfWindow(rs, size);
    if size > First(rs) {
      PositionsOfWindow(rs, size);
    }
  }

  /** What an archive discloses and indexes: of the nonces and identifiers supplied exactly those of what is
      exported, and the artifacts its receipts declare. */
  lemma {:induction false} ArchiveDiscloses(input: ArchiveInput)
    requires |input.receipts| > 0
    ensures var b, rs := ArchiveOf(input), input.receipts;
            && AllParsed(b.openings) && AllParsed(b.subjects) && AllParsed(b.artifactsIndex)
            && (forall e :: e in Values(b.openings) <==>
                e in input.openings && exists r :: r in rs && r.body.seq_ == e.seq_)
            && (forall e :: e in Values(b.subjects) <==>
                  e in input.subjects && exists r :: r in rs && r.body.onBehalfOf == Some(e.token))
            && Values(b.artifactsIndex) == IndexOf(rs)
  {
    hide EntriesFor, LeavesFor, RelevantFor, IndexOf, OpeningsKept, SubjectsKept, HighestVersion, TotalTimestamps;
    var rs := input.receipts;
    ReadBack(OpeningsKept(rs, input.openings));
    ReadBack(SubjectsKept(rs, input.subjects));
    ReadBack(IndexOf(rs));
    forall e
      ensures e in OpeningsKept(rs, input.openings) <==>
                e in input.openings && exists r :: r in rs && r.body.seq_ == e.seq_
    {
      OpeningsKeptIff(rs, input.openings, e);
    }
    forall e
      ensures e in SubjectsKept(rs, input.subjects) <==>
              e in input.subjects && exists r :: r in rs && r.body.onBehalfOf == Some(e.token)
    {
      SubjectsKeptIff(rs, input.subjects, e);
    }
  }

  lemma {:induction false} SelectionIsWithin(
      sorted: seq<Sized<StoredCheckpoint>>, first: nat, last: nat, a: nat, b: nat)
    requires IsSelection(sorted, first, last, a, b)
    ensures a <= b <= |sorted|
  {
  }

  lemma {:induction false} SummaryOfArchive(input: ArchiveInput)
    requires |input.receipts| > 0
    ensures var b := ArchiveOf(input); b.manifest.Parsed? && Values(b.receipts) == input.receipts
    ensures var rs, es := input.receipts, CarriedEntries(input);
            Reports(rs, es, TallyOf(rs, es), SummaryOf(ArchiveOf(input)))
  {
    var rs, es := input.receipts, CarriedEntries(input);
    hide EntriesFor, LeavesFor, RelevantFor, TallyOf, Unanchored, IndexOf, OpeningsKept, SubjectsKept, HighestVersion,
        TotalTimestamps;
    ReadBack(rs);
    ReadBack(es);
  }

  lemma {:induction false} ReportsCounts(rs: seq<Receipt>, es: seq<CheckpointEntry>, t: Tally, s: Summary)
    requires |rs| > 0 && SequenceOk(rs) && UpToTheFirstCover(rs, es) && Tallied(rs, es, t) && Reports(rs, es, t, s)
    ensures Counted(rs, es, s)
  {
    UnanchoredInClosedForm(rs, es, t);
    hide Unanchored, UpToTheFirstCover, SequenceOk;
  }

  lemma {:induction false} UnanchoredInClosedForm(rs: seq<Receipt>, es: seq<CheckpointEntry>, t: Tally)
    requires |rs| > 0 && SequenceOk(rs) && UpToTheFirstCover(rs, es) && Tallied(rs, es, t)
    ensures Unanchored(rs, t) == if es == [] then 0 else Max(0, First(rs) + |rs| - SizeOf(es[|es| - 1]))
  {
    if es != [] {
      assert Proven(rs, es[|es| - 1]);
      CountFromInSequence(rs, SizeOf(es[|es| - 1]));
    }
  }

  /**
   * With all the chain's leaves supplied, no checkpoint of the archive is unlinked,
   * and the other counters are what the window and the checkpoints' sizes make
   * them: two proofs each (one where the tree holds one receipt of the window),
   * a root rebuilt for every tree the window holds from the start, and unanchored
   * what lies past the largest tree.
   */
  lemma {:induction false} HonestArchiveCounts(input: ArchiveInput, chain: seq<Receipt>, trusted: Trusted)
    requires Honest(input, chain, trusted) && input.chainLeaves == Some(Hashes(chain))
    ensures |input.receipts| > 0 && ArchiveOf(input).manifest.Parsed?
              && Values(ArchiveOf(input).receipts) == input.receipts
    ensures Counted(input.receipts, CarriedEntries(input), SummaryOf(ArchiveOf(input)))
  {
    HonestStore(input, chain, trusted);
    HonestWindow(input, chain);
    RelevantAreProven(input, chain);
    var rs, es := input.receipts, CarriedEntries(input);
    hide *;
    TallyInClosedForm(rs, es);
    SummaryOfArchive(input);
    ReportsCounts(rs, es, TallyOf(rs, es), SummaryOf(ArchiveOf(input)));
  }
}
