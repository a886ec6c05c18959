/**
 * apps/server/src/export/archive.ts, buildArchive: which checkpoints an export
 * carries, with which proofs, under which manifest; and that what it writes of an
 * honest chain is what the verifier accepts. The JSON written is read back as the
 * values it was written from.
 */
module Archive {
  import opened Prelude
  import opened Merkle
  import opened Receipts
  import opened StableSort
  import opened Verifier
  import opened VerifyBundle
  import opened PreviousExport

  datatype StoredTimestamp = StoredTimestamp(tsaUrl: string, obtainedAt: int, token: Bytes)

  datatype StoredCheckpoint = StoredCheckpoint(checkpoint: Checkpoint, timestamps: seq<StoredTimestamp>)

  datatype ArchiveInput = ArchiveInput(
    systemId: SystemId, receipts: seq<Receipt>, checkpoints: seq<StoredCheckpoint>, keys: seq<ManifestKey>,
    chainLeaves: Option<seq<Entry>>, openings: seq<OpeningEntry>, subjects: seq<SubjectEntry>)

  /** timestamps/checkpoint-<size>-<index + 1>.tsr */
  const TOKEN_PATH: (nat, nat) -> string

  function TokenPath(size: nat, index: nat): string { TOKEN_PATH(size, index) }

  function AsLines<T>(vs: seq<T>): (lines: seq<Line<T>>)
    ensures |lines| == |vs| && forall i :: 0 <= i < |vs| ==> lines[i] == Parsed(vs[i])
  {
    if vs == [] then [] else AsLines(vs[..|vs| - 1]) + [Parsed(vs[|vs| - 1])]
  }

  lemma {:induction false} ReadBack<T>(vs: seq<T>)
    ensures AllParsed(AsLines(vs)) && Values(AsLines(vs)) == vs
  {
  }

  // ----- which checkpoints -----

  function BySize(stored: seq<StoredCheckpoint>): (r: seq<Sized<StoredCheckpoint>>)
    ensures |r| == |stored|
    ensures forall i :: 0 <= i < |stored| ==> r[i] == Sized(stored[i].checkpoint.body.treeSize, stored[i])
  {
    if stored == [] then []
    else
      var last := stored[|stored| - 1];
      BySize(stored[..|stored| - 1]) + [Sized(last.checkpoint.body.treeSize, last)]
  }

  /** Of checkpoints by size: those whose tree reaches past `first`, up to the first
      whose tree reaches past `last`. */
  function Relevant(sorted: seq<Sized<StoredCheckpoint>>, first: nat, last: nat): seq<Sized<StoredCheckpoint>> {
    if sorted == [] then []
    else if sorted[0].size <= first then Relevant(sorted[1..], first, last)
    else if sorted[0].size > last then [sorted[0]]
    else [sorted[0]] + Relevant(sorted[1..], first, last)
  }

  method SelectRelevant(stored: seq<StoredCheckpoint>, first: nat, last: nat)
      returns (relevant: seq<Sized<StoredCheckpoint>>)
    ensures relevant == Relevant(Sort(BySize(stored)), first, last)
  {
    var sorted := Sort(BySize(stored));
    relevant := [];
    for i := 0 to |sorted|
      invariant relevant + Relevant(sorted[i..], first, last) == Relevant(sorted, first, last)
    {
      assert sorted[i..][0] == sorted[i] && sorted[i..][1..] == sorted[i + 1..];
      var size := sorted[i].size;
      if size > first {
        relevant := relevant + [sorted[i]];
        if size > last {
          return;
        }
      }
    }
  }

  /** Positions a..b of the checkpoints by size: from the first that reaches past
      `first`, to the first that reaches past `last`, or to the end. */
  ghost predicate IsSelection(sorted: seq<Sized<StoredCheckpoint>>, first: nat, last: nat, a: nat, b: nat) {
    && a <= b <= |sorted|
    && (forall i :: 0 <= i < a ==> sorted[i].size <= first)
    && (forall i :: a <= i < |sorted| ==> sorted[i].size > first)
    && (forall i :: a <= i < b - 1 ==> sorted[i].size <= last)
    && (b < |sorted| ==> a < b && sorted[b - 1].size > last)
  }

  lemma {:induction false} RelevantIsSelection(
      sorted: seq<Sized<StoredCheckpoint>>, first: nat, last: nat) returns (a: nat, b: nat)
    requires InOrder(sorted)
    ensures IsSelection(sorted, first, last, a, b) && Relevant(sorted, first, last) == sorted[a..b]
    decreases |sorted|
  {
    hide IsSelection, InOrder;
    if sorted == [] {
      a, b := 0, 0;
      NoneSelected(first, last);
    } else if sorted[0].size > last && sorted[0].size > first {
      a, b := 0, 1;
      OneSelected(sorted, first, last);
    } else {
      RestInOrder(sorted);
      a, b := RelevantIsSelection(sorted[1..], first, last);
      OneMoreSelected(sorted, first, last, a, b);
      SliceOneMore(sorted, a, b);
      a, b := if sorted[0].size <= first then a + 1 else 0, b + 1;
    }
  }

  lemma {:induction false} RestInOrder(sorted: seq<Sized<StoredCheckpoint>>)
    requires InOrder(sorted) && |sorted| > 0
    ensures InOrder(sorted[1..])
  {
  }

  lemma {:induction false} SliceOneMore(sorted: seq<Sized<StoredCheckpoint>>, a: nat, b: nat)
    requires |sorted| > 0 && a <= b < |sorted|
    ensures sorted[a + 1..b + 1] == sorted[1..][a..b] && sorted[0..b + 1] == [sorted[0]] + sorted[1..][0..b]
  {
  }

  lemma {:induction false} NoneSelected(first: nat, last: nat)
    ensures IsSelection([], first, last, 0, 0)
  {
  }

  lemma {:induction false} OneSelected(sorted: seq<Sized<StoredCheckpoint>>, first: nat, last: nat)
    requires InOrder(sorted) && |sorted| > 0 && sorted[0].size > last && sorted[0].size > first
    ensures IsSelection(sorted, first, last, 0, 1)
  {
    assert forall i :: 0 < i < |sorted| ==> sorted[0].size <= sorted[i].size;
  }

  lemma {:induction false} OneMoreSelected(sorted: seq<Sized<StoredCheckpoint>>, first: nat, last: nat, a: nat, b: nat)
    requires InOrder(sorted) && |sorted| > 0 && IsSelection(sorted[1..], first, last, a, b)
    ensures a <= b < |sorted|
    ensures sorted[0].size <= first ==> IsSelection(sorted, first, last, a + 1, b + 1)
    ensures first < sorted[0].size <= last ==> a == 0 && IsSelection(sorted, first, last, 0, b + 1)
  {
    var rest := sorted[1..];
    assert forall i :: 0 < i < |sorted| ==> sorted[i] == rest[i - 1];
    if a > 0 {
      assert rest[0] == sorted[1] && sorted[0].size <= sorted[1].size;
    }
  }

  // ----- its proofs -----

  function InTree(rs: seq<Receipt>, size: nat): (r: seq<Receipt>)
    ensures forall i :: 0 <= i < |r| ==> r[i] in rs && r[i].body.seq_ < size
  {
    if rs == [] then []
    else InTree(rs[..|rs| - 1], size) + (if rs[|rs| - 1].body.seq_ < size then [rs[|rs| - 1]] else [])
  }

  function ProofPositions(rs: seq<Receipt>, size: nat): (ps: seq<nat>)
    ensures |ps| <= 2 && forall i :: 0 <= i < |ps| ==> ps[i] < size && exists r :: r in rs && r.body.seq_ == ps[i]
  {
    var inTree := InTree(rs, size);
    if inTree == [] then []
    else if inTree[0].body.seq_ == inTree[|inTree| - 1].body.seq_ then [inTree[0].body.seq_]
    else [inTree[0].body.seq_, inTree[|inTree| - 1].body.seq_]
  }

  lemma {:induction false} InTreeOfWindow(rs: seq<Receipt>, size: nat)
    requires |rs| > 0 && SequenceOk(rs)
    ensures InTree(rs, size) == rs[..Min(|rs|, Max(0, size - rs[0].body.seq_))]
    decreases |rs|
  {
    assert rs[|rs| - 1].body.seq_ == rs[0].body.seq_ + |rs| - 1;
    if |rs| > 1 {
      InTreeOfWindow(rs[..|rs| - 1], size);
    }
  }

  lemma {:induction false} FindsMember(rs: seq<Receipt>, s: nat)
    requires exists r :: r in rs && r.body.seq_ == s
    ensures Find(rs, s).Some? && Find(rs, s).value.body.seq_ == s
    decreases |rs|
  {
    if rs[0].body.seq_ != s {
      var r :| r in rs && r.body.seq_ == s;
      assert r in rs[1..];
      FindsMember(rs[1..], s);
    }
  }

  ghost function ProofAt(rs: seq<Receipt>, leaves: seq<Entry>, size: nat, s: nat): InclusionProofEntry
    requires s < size <= |leaves| && exists r :: r in rs && r.body.seq_ == s
  {
    FindsMember(rs, s);
    InclusionProofEntry(s, ReceiptHash(Find(rs, s).value.body), Path(leaves[..size], s))
  }

  ghost function ProofsAt(rs: seq<Receipt>, leaves: seq<Entry>, size: nat, ps: seq<nat>): (r: seq<InclusionProofEntry>)
    requires size <= |leaves|
    requires forall i :: 0 <= i < |ps| ==> ps[i] < size && exists r :: r in rs && r.body.seq_ == ps[i]
    ensures |r| == |ps| && forall i :: 0 <= i < |ps| ==> r[i] == ProofAt(rs, leaves, size, ps[i])
  {
    if ps == [] then [] else ProofsAt(rs, leaves, size, ps[..|ps| - 1]) + [ProofAt(rs, leaves, size, ps[|ps| - 1])]
  }

  ghost function ProofsFor(rs: seq<Receipt>, leaves: seq<Entry>, size: nat): seq<InclusionProofEntry> {
    if |leaves| >= size then ProofsAt(rs, leaves, size, ProofPositions(rs, size)) else []
  }

  method BuildProofs(rs: seq<Receipt>, leaves: seq<Entry>, size: nat) returns (proofs: seq<InclusionProofEntry>)
    ensures proofs == ProofsFor(rs, leaves, size)
  {
    proofs := [];
    if |leaves| >= size {
      var ps := ProofPositions(rs, size);
      for i := 0 to |ps|
        invariant |proofs| == i && forall j :: 0 <= j < i ==> proofs[j] == ProofAt(rs, leaves, size, ps[j])
      {
        FindsMember(rs, ps[i]);
        var path := InclusionProof(leaves[..size], ps[i]);
        proofs := proofs + [InclusionProofEntry(ps[i], ReceiptHash(Find(rs, ps[i]).value.body), path.value)];
      }
      assert proofs == ProofsAt(rs, leaves, size, ps);
    }
  }

  function Anchors(size: nat, timestamps: seq<StoredTimestamp>): seq<Timestamp> {
    if timestamps == [] then []
    else
      var last := timestamps[|timestamps| - 1];
      Anchors(size, timestamps[..|timestamps| - 1])
          + [Timestamp(last.tsaUrl, last.obtainedAt, TokenPath(size, |timestamps| - 1))]
  }

  /** Every token of a stored checkpoint is carried, in order, under a path of its own. */
  lemma {:induction false} AnchorsAreTheTokens(size: nat, timestamps: seq<StoredTimestamp>)
    ensures |Anchors(size, timestamps)| == |timestamps|
    ensures forall i :: 0 <= i < |timestamps| ==>
              Anchors(size, timestamps)[i]
              == Timestamp(timestamps[i].tsaUrl, timestamps[i].obtainedAt, TokenPath(size, i))
    decreases |timestamps|
  {
    if timestamps != [] {
      AnchorsAreTheTokens(size, timestamps[..|timestamps| - 1]);
    }
  }

  method BuildAnchors(size: nat, timestamps: seq<StoredTimestamp>) returns (anchors: seq<Timestamp>)
    ensures anchors == Anchors(size, timestamps)
  {
    anchors := [];
    for i := 0 to |timestamps|
      invariant anchors == Anchors(size, timestamps[..i])
    {
      assert timestamps[..i + 1][..i] == timestamps[..i];
      anchors := anchors + [Timestamp(timestamps[i].tsaUrl, timestamps[i].obtainedAt, TokenPath(size, i))];
    }
    assert timestamps[..|timestamps|] == timestamps;
  }

  ghost function EntryFor(rs: seq<Receipt>, leaves: seq<Entry>, c: StoredCheckpoint): CheckpointEntry {
    var size := c.checkpoint.body.treeSize;
    CheckpointEntry(c.checkpoint, ProofsFor(rs, leaves, size), Anchors(size, c.timestamps))
  }

  ghost function EntriesFor(rs: seq<Receipt>, leaves: seq<Entry>,
      cs: seq<Sized<StoredCheckpoint>>): (es: seq<CheckpointEntry>)
    ensures |es| == |cs| && forall i :: 0 <= i < |cs| ==> es[i] == EntryFor(rs, leaves, cs[i].item)
  {
    if cs == [] then [] else EntriesFor(rs, leaves, cs[..|cs| - 1]) + [EntryFor(rs, leaves, cs[|cs| - 1].item)]
  }

  method BuildEntries(rs: seq<Receipt>, leaves: seq<Entry>, cs: seq<Sized<StoredCheckpoint>>)
      returns (es: seq<CheckpointEntry>)
    ensures es == EntriesFor(rs, leaves, cs)
  {
    hide ProofsFor, Anchors, EntriesFor;
    es := [];
    for i := 0 to |cs|
      invariant |es| == i && forall j :: 0 <= j < i ==> es[j] == EntryFor(rs, leaves, cs[j].item)
    {
      var stored := cs[i].item;
      var size := stored.checkpoint.body.treeSize;
      var proofs := BuildProofs(rs, leaves, size);
      var anchors := BuildAnchors(size, stored.timestamps);
      es := es + [CheckpointEntry(stored.checkpoint, proofs, anchors)];
    }
  }

  // ----- the index and what is disclosed -----

  function IndexLines(s: nat, artifacts: seq<Artifact>): seq<IndexEntry> {
    if artifacts == [] then []
    else IndexLines(s, artifacts[..|artifacts| - 1]) + [IndexEntry(s, artifacts[|artifacts| - 1])]
  }

  function IndexOf(rs: seq<Receipt>): seq<IndexEntry> {
    if rs == [] then []
    else
      var last := rs[|rs| - 1].body;
      IndexOf(rs[..|rs| - 1]) + (if last.v != 1 then IndexLines(last.seq_, last.artifacts) else [])
  }

  lemma {:induction false} IndexedSnoc(xs: seq<IndexEntry>, e: IndexEntry)
    ensures IndexedArtifacts(xs + [e]) == IndexedArtifacts(xs) + [ArtifactKey(e.seq_, e.artifact)]
  {
    assert (xs + [e])[..|xs|] == xs;
  }

  lemma {:induction false} IndexedConcat(xs: seq<IndexEntry>, s: nat, artifacts: seq<Artifact>)
    ensures IndexedArtifacts(xs + IndexLines(s, artifacts)) == IndexedArtifacts(xs) + ArtifactKeys(s, artifacts)
    decreases |artifacts|
  {
    hide IndexedArtifacts;
    if artifacts == [] {
      assert xs + IndexLines(s, artifacts) == xs;
    } else {
      var front, last := artifacts[..|artifacts| - 1], IndexEntry(s, artifacts[|artifacts| - 1]);
      IndexedConcat(xs, s, front);
      IndexedSnoc(xs + IndexLines(s, front), last);
      assert xs + IndexLines(s, artifacts) == (xs + IndexLines(s, front)) + [last];
    }
  }

  /** The index names exactly the artifacts the receipts declare, in their order. */
  lemma {:induction false} IndexIsDeclared(rs: seq<Receipt>)
    ensures IndexedArtifacts(IndexOf(rs)) == DeclaredArtifacts(rs)
    decreases |rs|
  {
    if rs != [] {
      var last := rs[|rs| - 1].body;
      IndexIsDeclared(rs[..|rs| - 1]);
      if last.v != 1 {
        IndexedConcat(IndexOf(rs[..|rs| - 1]), last.seq_, last.artifacts);
      } else {
        assert IndexOf(rs) == IndexOf(rs[..|rs| - 1]);
      }
    }
  }

  predicate IsExported(rs: seq<Receipt>, s: nat) { exists i :: 0 <= i < |rs| && rs[i].body.seq_ == s }

  function OpeningsKept(rs: seq<Receipt>, es: seq<OpeningEntry>): seq<OpeningEntry> {
    if es == [] then []
    else OpeningsKept(rs, es[..|es| - 1]) + (if IsExported(rs, es[|es| - 1].seq_) then [es[|es| - 1]] else [])
  }

  function SubjectsKept(rs: seq<Receipt>, es: seq<SubjectEntry>): seq<SubjectEntry> {
    if es == [] then []
    else SubjectsKept(rs, es[..|es| - 1]) + (if TokenUsed(rs, es[|es| - 1].token) then [es[|es| - 1]] else [])
  }

  /** Of the openings supplied, each whose receipt is exported is kept, and no other, in their order. */
  lemma {:induction false} OpeningsKeptInOrder(
      rs: seq<Receipt>, xs: seq<OpeningEntry>, ys: seq<OpeningEntry>, e: OpeningEntry)
    ensures OpeningsKept(rs, [e]) == if IsExported(rs, e.seq_) then [e] else []
    ensures OpeningsKept(rs, xs + ys) == OpeningsKept(rs, xs) + OpeningsKept(rs, ys)
    decreases |ys|
  {
    assert [e][..0] == [];
    if ys == [] {
      assert xs + ys == xs;
    } else {
      OpeningsKeptInOrder(rs, xs, ys[..|ys| - 1], e);
      assert (xs + ys)[..|xs + ys| - 1] == xs + ys[..|ys| - 1];
    }
  }

  lemma {:induction false} OpeningsKeptIff(rs: seq<Receipt>, es: seq<OpeningEntry>, e: OpeningEntry)
    ensures e in OpeningsKept(rs, es) <==> e in es && exists r :: r in rs && r.body.seq_ == e.seq_
    decreases |es|
  {
    if es != [] {
      var front, last := es[..|es| - 1], es[|es| - 1];
      OpeningsKeptIff(rs, front, e);
      assert es == front + [last];
      assert forall i :: 0 <= i < |rs| ==> rs[i] in rs;
    }
  }

  /** Of the identifiers supplied, each whose token an exported receipt uses is kept, and no other, in their order. */
  lemma {:induction false} SubjectsKeptInOrder(
      rs: seq<Receipt>, xs: seq<SubjectEntry>, ys: seq<SubjectEntry>, e: SubjectEntry)
    ensures SubjectsKept(rs, [e]) == if TokenUsed(rs, e.token) then [e] else []
    ensures SubjectsKept(rs, xs + ys) == SubjectsKept(rs, xs) + SubjectsKept(rs, ys)
    decreases |ys|
  {
    assert [e][..0] == [];
    if ys == [] {
      assert xs + ys == xs;
    } else {
      SubjectsKeptInOrder(rs, xs, ys[..|ys| - 1], e);
      assert (xs + ys)[..|xs + ys| - 1] == xs + ys[..|ys| - 1];
    }
  }

  lemma {:induction false} SubjectsKeptIff(rs: seq<Receipt>, es: seq<SubjectEntry>, e: SubjectEntry)
    ensures e in SubjectsKept(rs, es) <==> e in es && exists r :: r in rs && r.body.onBehalfOf == Some(e.token)
    decreases |es|
  {
    if es != [] {
      var front, last := es[..|es| - 1], es[|es| - 1];
      SubjectsKeptIff(rs, front, e);
      assert es == front + [last];
      assert forall i :: 0 <= i < |rs| ==> rs[i] in rs;
    }
  }

  // ----- the whole -----

  function LeavesFor(input: ArchiveInput): seq<Entry>
    requires |input.receipts| > 0
  {
    if input.chainLeaves.Some? then input.chainLeaves.value
    else if input.receipts[0].body.seq_ == 0 then Hashes(input.receipts) else []
  }

  function RelevantFor(input: ArchiveInput): seq<Sized<StoredCheckpoint>>
    requires |input.receipts| > 0
  {
    Relevant(Sort(BySize(input.checkpoints)), First(input.receipts), Last(input.receipts))
  }

  function ManifestFor(input: ArchiveInput, es: seq<CheckpointEntry>): Manifest
    requires |input.receipts| > 0
  {
    var rs := input.receipts;
    Manifest(HighestVersion(rs), input.systemId, First(rs), Last(rs),
             rs[0].body.tsReceived, rs[|rs| - 1].body.tsReceived,
             |rs|, |es|, TotalTimestamps(es), input.keys)
  }

  function BundleFor(input: ArchiveInput, es: seq<CheckpointEntry>): Bundle
    requires |input.receipts| > 0
  {
    var rs := input.receipts;
    Bundle(Parsed(ManifestFor(input, es)), AsLines(rs), AsLines(es), AsLines(IndexOf(rs)),
           AsLines(OpeningsKept(rs, input.openings)), AsLines(SubjectsKept(rs, input.subjects)))
  }

  ghost function ArchiveOf(input: ArchiveInput): Bundle
    requires |input.receipts| > 0
  {
    BundleFor(input, EntriesFor(input.receipts, LeavesFor(input), RelevantFor(input)))
  }

  /** buildArchive, up to the verification it makes of what it built. */
  method BuildArchive(input: ArchiveInput) returns (r: Option<(Bundle, Verification)>)
    ensures r.None? <==> |input.receipts| == 0
    ensures r.Some? ==> r.value.0 == ArchiveOf(input) && IsVerification(r.value.0, None, r.value.1)
  {
    hide IsVerification, EntriesFor, Relevant, OpeningsKept, SubjectsKept, IndexOf;
    if |input.receipts| == 0 {
      return None;
    }
    var relevant := SelectRelevant(input.checkpoints, First(input.receipts), Last(input.receipts));
    var es := BuildEntries(input.receipts, LeavesFor(input), relevant);
    var bundle := BundleFor(input, es);
    var verification := VerifyBundle.VerifyBundle(bundle, None);
    return Some((bundle, verification));
  }
}
