/**
 * What the checks of packages/verifier/src/verify.ts mean: each rule said of the
 * bundle's own lines, which check is reported when several are broken, and what the
 * summary of an accepted export counts.
 */
module VerifierMeaning {
  import opened Prelude
  import opened Merkle
  import opened Receipts
  import opened Verifier
  import opened VerifyBundle

  // ----- keys -----

  /** The last key published under the identifier. */
  ghost predicate Published(keys: seq<ManifestKey>, id: KeyId, k: nat) {
    && k < |keys| && keys[k].keyId == id
    && forall j :: k < j < |keys| ==> keys[j].keyId != id
  }

  /** It is published and, where the verifier names the keys it expects, among those. */
  ghost predicate Expected(keys: seq<ManifestKey>, trusted: Trusted, id: KeyId) {
    (exists k: nat :: Published(keys, id, k)) && (trusted.Some? ==> id in trusted.value)
  }

  ghost predicate SignedBy(keys: seq<ManifestKey>, trusted: Trusted, id: KeyId, d: Digest, sig: Signature) {
    Expected(keys, trusted, id) && exists k: nat :: Published(keys, id, k) && Verifies(keys[k].raw, d, sig)
  }

  lemma {:induction false} KeyMapIs(keys: seq<ManifestKey>, id: KeyId)
    ensures id in KeyMap(keys) <==> exists k: nat :: Published(keys, id, k)
    ensures forall k: nat :: Published(keys, id, k) ==> KeyMap(keys)[id] == keys[k].raw
    decreases |keys|
  {
    if keys != [] {
      var front, last := keys[..|keys| - 1], |keys| - 1;
      KeyMapIs(front, id);
      if keys[last].keyId == id {
        assert Published(keys, id, last);
      } else {
        assert forall k: nat :: Published(keys, id, k) <==> Published(front, id, k);
      }
    }
  }

  lemma {:induction false} SignedCheckIs(keys: seq<ManifestKey>, trusted: Trusted, r: Receipt)
    ensures SignedCheck(r, KeyMap(keys), trusted) ==
            if !Expected(keys, trusted, r.body.keyId) then Some(Key)
            else if !SignedBy(keys, trusted, r.body.keyId, ReceiptHash(r.body), r.sig) then Some(SignatureCheck)
            else None
  {
    hide KeyMap, ReceiptHash, Published;
    KeyMapIs(keys, r.body.keyId);
  }

  // ----- one checkpoint -----

  /** Where the export holds every receipt under the tree, its root is theirs. */
  ghost predicate TreeHolds(rs: seq<Receipt>, c: CheckpointBody) {
    rs != [] && rs[0].body.seq_ == 0 && c.treeSize <= |rs| ==> Root(Hashes(rs[..c.treeSize])) == c.rootHash
  }

  /** The proof is of a receipt of the export, and leads from its hash to the root. */
  ghost predicate ProofHolds(rs: seq<Receipt>, c: CheckpointBody, p: InclusionProofEntry) {
    && RootFromProof(p.receiptHash, p.seq_, c.treeSize, p.path) == Ok(c.rootHash)
    && exists i :: 0 <= i < |rs| && rs[i].body.seq_ == p.seq_ && ReceiptHash(rs[i].body) == p.receiptHash
  }

  ghost predicate EntryHolds(m: Manifest, rs: seq<Receipt>, trusted: Trusted, e: CheckpointEntry) {
    var c := e.checkpoint.body;
    && c.systemId == m.systemId
    && SignedBy(m.keys, trusted, c.keyId, CheckpointHash(c), e.checkpoint.sig)
    && TreeHolds(rs, c)
    && forall p :: p in e.proofs ==> ProofHolds(rs, c, p)
  }

  ghost predicate EntryAnswers(m: Manifest, rs: seq<Receipt>, trusted: Trusted, e: CheckpointEntry, check: Check) {
    var c := e.checkpoint.body;
    check ==
      if c.systemId != m.systemId then System
      else if !Expected(m.keys, trusted, c.keyId) then Key
      else if !SignedBy(m.keys, trusted, c.keyId, CheckpointHash(c), e.checkpoint.sig) then CheckpointSignature
      else if !TreeHolds(rs, c) then MerkleRootCheck
      else InclusionProofCheck
  }

  lemma {:induction false} ProofsHoldIff(rs: seq<Receipt>, e: CheckpointEntry)
    requires SequenceOk(rs) && |rs| > 0
    ensures ProofsOk(rs, e) <==> forall p :: p in e.proofs ==> ProofHolds(rs, e.checkpoint.body, p)
  {
    hide ReceiptHash, RootFromProof, Find;
    forall p | p in e.proofs
      ensures ProofOk(rs, e.checkpoint.body, p) <==> ProofHolds(rs, e.checkpoint.body, p)
    {
      FindInSequence(rs, p.seq_);
      if i :| 0 <= i < |rs| && rs[i].body.seq_ == p.seq_ && ReceiptHash(rs[i].body) == p.receiptHash {
        assert rs[i].body.seq_ == rs[0].body.seq_ + i;
      }
    }
    assert forall i :: 0 <= i < |e.proofs| ==> e.proofs[i] in e.proofs;
  }

  lemma {:induction false} EntryCheckIs(m: Manifest, rs: seq<Receipt>, trusted: Trusted, e: CheckpointEntry)
    requires SequenceOk(rs) && |rs| > 0
    ensures var check := EntryCheck(m, rs, KeyMap(m.keys), trusted, e);
            && (check.None? <==> EntryHolds(m, rs, trusted, e))
            && (check.Some? ==> EntryAnswers(m, rs, trusted, e, check.value))
  {
    hide KeyMap, CheckpointHash, Published, ProofsOk, ProofHolds, Root, Hashes, SequenceOk;
    KeyMapIs(m.keys, e.checkpoint.body.keyId);
    ProofsHoldIff(rs, e);
  }

  // ----- the rules, in the order they are checked -----

  ghost predicate IsGenesis(r: Receipt) {
    && r.body.kind == Genesis && r.body.name == r.body.systemId
    && forall i :: 0 <= i < 32 ==> r.body.prevHash[i] == 0
  }

  ghost predicate IsSigned(m: Manifest, trusted: Trusted, r: Receipt) {
    SignedBy(m.keys, trusted, r.body.keyId, ReceiptHash(r.body), r.sig)
  }

  ghost predicate AreOfSystem(m: Manifest, rs: seq<Receipt>) { forall r :: r in rs ==> r.body.systemId == m.systemId }

  ghost predicate AreConsecutive(rs: seq<Receipt>) {
    forall i :: 0 <= i < |rs| - 1 ==> rs[i + 1].body.seq_ == rs[i].body.seq_ + 1
  }

  ghost predicate AreLinked(rs: seq<Receipt>) {
    forall i :: 0 <= i < |rs| - 1 ==> rs[i + 1].body.prevHash == ReceiptHash(rs[i].body)
  }

  ghost predicate AreSigned(m: Manifest, trusted: Trusted, rs: seq<Receipt>) {
    forall r :: r in rs ==> IsSigned(m, trusted, r)
  }

  ghost predicate OpeningsHold(rs: seq<Receipt>, es: seq<OpeningEntry>) {
    && (forall e :: e in es ==> exists i :: 0 <= i < |rs| && HasSalted(rs[i], e))
    && (forall i, j :: 0 <= i < j < |es| ==> es[i].seq_ != es[j].seq_ || es[i].role != es[j].role)
  }

  ghost predicate SubjectsHold(rs: seq<Receipt>, es: seq<SubjectEntry>) {
    && (forall e :: e in es ==> exists r :: r in rs && r.body.onBehalfOf == Some(e.token))
    && (forall i, j :: 0 <= i < j < |es| ==> es[i].token != es[j].token)
  }

  const RULES: nat := 15

  ghost predicate Rule(b: Bundle, trusted: Trusted, n: nat)
    requires n > 0 ==> b.manifest.Parsed?
  {
    if n == 0 then b.manifest.Parsed?
    else
      var m, rs := b.manifest.value, Values(b.receipts);
      match n
      case 1 => forall k :: k in m.keys ==> |k.raw| == 32 && KeyIdOf(k.raw) == k.keyId
      case 2 => b.receipts != []
      case 3 => forall line :: line in b.receipts ==> line.Parsed?
      case 4 => AreOfSystem(m, rs)
      case 5 => rs != [] && rs[0].body.seq_ == m.fromSeq
      case 6 => AreConsecutive(rs)
      case 7 => rs != [] && rs[0].body.seq_ == 0 ==> IsGenesis(rs[0])
      case 8 => AreLinked(rs)
      case 9 => AreSigned(m, trusted, rs)
      case 10 => IndexFailure(rs, b.artifactsIndex).None?
      case 11 => (forall line :: line in b.openings ==> line.Parsed?) && OpeningsHold(rs, Values(b.openings))
      case 12 => (forall line :: line in b.subjects ==> line.Parsed?) && SubjectsHold(rs, Values(b.subjects))
      case 13 => forall line :: line in b.checkpoints ==> line.Parsed? && EntryHolds(m, rs, trusted, line.value)
      case 14 => ManifestIsTrue(m, rs, Values(b.checkpoints))
      case _ => true
  }

  ghost predicate FirstUnparsed<T>(lines: seq<Line<T>>, i: nat) {
    i < |lines| && !lines[i].Parsed? && forall j :: 0 <= j < i ==> lines[j].Parsed?
  }

  /** The check that is reported where rule n is the first broken; of a rule about every
      line, it tells what is wrong with the first line that breaks it. */
  ghost predicate Answers(b: Bundle, trusted: Trusted, n: nat, check: Check)
    requires n > 0 ==> b.manifest.Parsed?
  {
    if n == 0 then check == ManifestCheck
    else
      var m, rs := b.manifest.value, Values(b.receipts);
      match n
      case 1 => check == Key
      case 2 => check == Range
      case 3 => exists i: nat :: FirstUnparsed(b.receipts, i)
                  && check == if b.receipts[i].NotJson? then ReceiptJson else ReceiptSchema
      case 4 => check == System
      case 5 => check == Range
      case 6 => check == SequenceCheck
      case 7 => check == GenesisCheck
      case 8 => check == ChainLink
      case 9 => exists i: nat :: FirstUnsigned(m, trusted, rs, i)
                  && check == if Expected(m.keys, trusted, rs[i].body.keyId) then SignatureCheck else Key
      case 10 => check == ArtifactsIndex
      case 11 => check == Openings
      case 12 => check == Subjects
      case 13 => exists i: nat :: FirstBadLine(m, rs, trusted, b.checkpoints, i)
                   && LineAnswers(m, rs, trusted, b.checkpoints[i], check)
      case _ => check == Range
  }

  ghost predicate FirstUnsigned(m: Manifest, trusted: Trusted, rs: seq<Receipt>, i: nat) {
    i < |rs| && !IsSigned(m, trusted, rs[i]) && forall j :: 0 <= j < i ==> IsSigned(m, trusted, rs[j])
  }

  ghost predicate LineHolds(m: Manifest, rs: seq<Receipt>, trusted: Trusted, line: Line<CheckpointEntry>) {
    line.Parsed? && EntryHolds(m, rs, trusted, line.value)
  }

  ghost predicate FirstBadLine(m: Manifest, rs: seq<Receipt>, trusted: Trusted, lines: seq<Line<CheckpointEntry>>,
      i: nat) {
    i < |lines| && !LineHolds(m, rs, trusted, lines[i]) && forall j :: 0 <= j < i ==>
        LineHolds(m, rs, trusted, lines[j])
  }

  ghost predicate LineAnswers(m: Manifest, rs: seq<Receipt>, trusted: Trusted, line: Line<CheckpointEntry>,
      check: Check) {
    match line
    case NotJson => check == CheckpointJson
    case NotOfSchema => check == CheckpointSchema
    case Parsed(e) => EntryAnswers(m, rs, trusted, e, check)
  }

  lemma {:induction false} ParsedIff<T>(lines: seq<Line<T>>)
    ensures AllParsed(lines) <==> forall line :: line in lines ==> line.Parsed?
  {
    assert forall i :: 0 <= i < |lines| ==> lines[i] in lines;
  }

  lemma {:induction false} FailureOfLast<T>(front: seq<Line<T>>, last: Line<T>, notJson: Check, notOfSchema: Check)
    ensures ParseFailure(front + [last], notJson, notOfSchema) ==
            if !AllParsed(front) then ParseFailure(front, notJson, notOfSchema)
            else if last.Parsed? then None else Some(if last.NotJson? then notJson else notOfSchema)
  {
    assert (front + [last])[..|front|] == front;
  }

  lemma {:induction false} FirstUnparsedFails<T>(lines: seq<Line<T>>, notJson: Check, notOfSchema: Check)
    returns (i: nat)
    requires !AllParsed(lines)
    ensures FirstUnparsed(lines, i)
    ensures ParseFailure(lines, notJson, notOfSchema) == Some(if lines[i].NotJson? then notJson else notOfSchema)
    decreases |lines|
  {
    hide ParseFailure;
    var front, last := lines[..|lines| - 1], |lines| - 1;
    assert lines == front + [lines[last]];
    FailureOfLast(front, lines[last], notJson, notOfSchema);
    if AllParsed(front) {
      i := last;
    } else {
      i := FirstUnparsedFails(front, notJson, notOfSchema);
      assert lines[i] == front[i];
    }
  }

  lemma {:induction false} FirstUnsignedFails(m: Manifest, trusted: Trusted, rs: seq<Receipt>) returns (i: nat)
    requires !AreSigned(m, trusted, rs)
    ensures FirstUnsigned(m, trusted, rs, i)
    ensures SignaturesFailure(rs, KeyMap(m.keys), trusted)
            == Some(if Expected(m.keys, trusted, rs[i].body.keyId) then SignatureCheck else Key)
    decreases |rs|
  {
    hide SignedBy, Expected, KeyMap, ReceiptHash;
    var front, last := rs[..|rs| - 1], rs[|rs| - 1];
    SignedCheckIs(m.keys, trusted, last);
    assert rs == front + [last];
    if AreSigned(m, trusted, front) {
      i := |rs| - 1;
      AllSignedIff(m, trusted, front);
      assert forall j :: 0 <= j < i ==> rs[j] in front;
    } else {
      i := FirstUnsignedFails(m, trusted, front);
      assert forall j :: 0 <= j <= i ==> rs[j] == front[j];
    }
  }

  lemma {:induction false} AllSignedIff(m: Manifest, trusted: Trusted, rs: seq<Receipt>)
    ensures SignaturesFailure(rs, KeyMap(m.keys), trusted).None? <==> AreSigned(m, trusted, rs)
  {
    hide SignaturesFailure, SignedBy, KeyMap, SignedCheck, ReceiptHash, Expected;
    AllSigned(rs, KeyMap(m.keys), trusted);
    forall i | 0 <= i < |rs|
      ensures SignedCheck(rs[i], KeyMap(m.keys), trusted).None? <==> IsSigned(m, trusted, rs[i])
      ensures rs[i] in rs
    {
      SignedCheckIs(m.keys, trusted, rs[i]);
      SignedMeansExpected(m.keys, trusted, rs[i]);
    }
  }

  lemma {:induction false} SignedMeansExpected(keys: seq<ManifestKey>, trusted: Trusted, r: Receipt)
    ensures SignedBy(keys, trusted, r.body.keyId, ReceiptHash(r.body), r.sig) ==>
              Expected(keys, trusted, r.body.keyId)
  {
  }

  lemma {:induction false} LineCheckIs(m: Manifest, rs: seq<Receipt>, trusted: Trusted, line: Line<CheckpointEntry>)
    requires SequenceOk(rs) && |rs| > 0
    ensures var check := LineCheck(m, rs, KeyMap(m.keys), trusted, line);
            && (check.None? <==> LineHolds(m, rs, trusted, line))
            && (check.Some? ==> LineAnswers(m, rs, trusted, line, check.value))
  {
    hide EntryCheck, EntryHolds, EntryAnswers, KeyMap;
    if line.Parsed? {
      EntryCheckIs(m, rs, trusted, line.value);
    }
  }

  lemma {:induction false} FirstBadLineFails(m: Manifest, rs: seq<Receipt>, trusted: Trusted,
      lines: seq<Line<CheckpointEntry>>) returns (i: nat)
    requires SequenceOk(rs) && |rs| > 0
    requires !(forall line :: line in lines ==> LineHolds(m, rs, trusted, line))
    ensures FirstBadLine(m, rs, trusted, lines, i)
    ensures var failure := LinesFailure(m, rs, KeyMap(m.keys), trusted, lines);
            failure.Some? && LineAnswers(m, rs, trusted, lines[i], failure.value)
    decreases |lines|
  {
    hide LineHolds, LineAnswers, LineCheck, KeyMap, SequenceOk;
    var front, last := lines[..|lines| - 1], lines[|lines| - 1];
    LineCheckIs(m, rs, trusted, last);
    assert lines == front + [last];
    if forall line :: line in front ==> LineHolds(m, rs, trusted, line) {
      i := |lines| - 1;
      AllLinesHoldIff(m, rs, trusted, front);
      assert forall j :: 0 <= j < i ==> lines[j] in front;
    } else {
      i := FirstBadLineFails(m, rs, trusted, front);
      assert forall j :: 0 <= j <= i ==> lines[j] == front[j];
    }
  }

  lemma {:induction false} AllLinesHoldIff(m: Manifest, rs: seq<Receipt>, trusted: Trusted,
      lines: seq<Line<CheckpointEntry>>)
    requires SequenceOk(rs) && |rs| > 0
    ensures LinesFailure(m, rs, KeyMap(m.keys), trusted, lines).None? <==>
            forall line :: line in lines ==> LineHolds(m, rs, trusted, line)
  {
    hide LinesFailure, LineCheck, LineHolds, LineAnswers, KeyMap, SequenceOk;
    AllLinesPass(m, rs, KeyMap(m.keys), trusted, lines);
    forall i | 0 <= i < |lines|
      ensures LineCheck(m, rs, KeyMap(m.keys), trusted, lines[i]).None? <==> LineHolds(m, rs, trusted, lines[i])
      ensures lines[i] in lines
    {
      LineCheckIs(m, rs, trusted, lines[i]);
    }
  }

  lemma {:induction false} KeysOkIff(keys: seq<ManifestKey>)
    ensures KeysOk(keys) <==> forall k :: k in keys ==> |k.raw| == 32 && KeyIdOf(k.raw) == k.keyId
  {
    assert forall i :: 0 <= i < |keys| ==> keys[i] in keys;
  }

  lemma {:induction false} SystemOkIff(m: Manifest, rs: seq<Receipt>)
    ensures SystemOk(m, rs) <==> AreOfSystem(m, rs)
  {
    assert forall i :: 0 <= i < |rs| ==> rs[i] in rs;
  }

  lemma {:induction false} GenesisOkIff(r: Receipt)
    ensures GenesisOk(r) <==> (r.body.seq_ == 0 ==> IsGenesis(r))
  {
    assert r.body.prevHash == GENESIS_PREV_HASH <==> forall i :: 0 <= i < 32 ==> r.body.prevHash[i] == 0 by {
      if forall i :: 0 <= i < 32 ==> r.body.prevHash[i] == 0 {
        assert forall i :: 0 <= i < 32 ==> r.body.prevHash[i] == GENESIS_PREV_HASH[i];
      }
    }
  }

  lemma {:induction false} Nth(rs: seq<Receipt>, i: nat)
    requires AreConsecutive(rs) && i < |rs|
    ensures rs[i].body.seq_ == rs[0].body.seq_ + i
  {
    if i > 0 {
      Nth(rs, i - 1);
      assert rs[i - 1 + 1].body.seq_ == rs[i - 1].body.seq_ + 1;
    }
  }

  lemma {:induction false} SequenceOkIff(rs: seq<Receipt>)
    ensures SequenceOk(rs) <==> AreConsecutive(rs)
  {
    if AreConsecutive(rs) {
      forall i | 0 <= i < |rs|
        ensures rs[i].body.seq_ == rs[0].body.seq_ + i
      {
        Nth(rs, i);
      }
    }
    if SequenceOk(rs) {
      forall i | 0 <= i < |rs| - 1
        ensures rs[i + 1].body.seq_ == rs[i].body.seq_ + 1
      {
        var j := i + 1;
        assert rs[j].body.seq_ == rs[0].body.seq_ + j;
      }
    }
  }

  lemma {:induction false} LinksOkIff(rs: seq<Receipt>)
    ensures LinksOk(rs) <==> AreLinked(rs)
  {
    hide ReceiptHash;
    if LinksOk(rs) {
      forall i | 0 <= i < |rs| - 1
        ensures rs[i + 1].body.prevHash == ReceiptHash(rs[i].body)
      {
        var j := i + 1;
        assert rs[j].body.prevHash == ReceiptHash(rs[j - 1].body);
      }
    }
    if AreLinked(rs) {
      forall j | 1 <= j < |rs|
        ensures rs[j].body.prevHash == ReceiptHash(rs[j - 1].body)
      {
        var i := j - 1;
        assert rs[i + 1].body.prevHash == ReceiptHash(rs[i].body);
      }
    }
  }

  lemma {:induction false} SubjectsOkIff(rs: seq<Receipt>, es: seq<SubjectEntry>)
    ensures SubjectsOk(rs, es) <==> SubjectsHold(rs, es)
  {
    forall e | e in es
      ensures TokenUsed(rs, e.token) <==> exists r :: r in rs && r.body.onBehalfOf == Some(e.token)
    {
      assert forall i :: 0 <= i < |rs| ==> rs[i] in rs;
    }
    assert forall i :: 0 <= i < |es| ==> es[i] in es;
  }

  lemma {:induction false} DescribesIff(m: Manifest, rs: seq<Receipt>, es: seq<CheckpointEntry>)
    requires |rs| > 0 && rs[0].body.seq_ == m.fromSeq
    ensures Describes(m, rs, es) <==> ManifestIsTrue(m, rs, es)
  {
    hide HighestVersion, TotalTimestamps, AllTimestamps;
    HighestIsTheMaximum(rs);
    TotalIsOfAll(es);
  }

  ghost predicate HeldBefore(b: Bundle, trusted: Trusted, n: nat) {
    n == 0 || (b.manifest.Parsed? && forall k :: 1 <= k < n ==> Rule(b, trusted, k))
  }

  /** Rules 4 to 9 are what is asked of the receipts. */
  lemma {:induction false} ReceiptsAnswer(b: Bundle, trusted: Trusted, n: nat)
    requires 4 <= n < 10 && HeldBefore(b, trusted, n) && !Rule(b, trusted, n)
    ensures |Values(b.receipts)| > 0
    ensures var failure := ReceiptsFailure(b.manifest.value, Values(b.receipts), KeyMap(b.manifest.value.keys),
              trusted);
            failure.Some? && Answers(b, trusted, n, failure.value)
  {
    hide AreSigned, AreOfSystem, AreConsecutive, AreLinked, IsGenesis, SignaturesFailure, SystemOk, SequenceOk,
        GenesisOk,
      LinksOk, KeyMap;
    var m, rs := b.manifest.value, Values(b.receipts);
    ReceiptsAreThere(b, trusted, n);
    assert (n > 4 ==> Rule(b, trusted, 4)) && (n > 5 ==> Rule(b, trusted, 5)) && (n > 6 ==> Rule(b, trusted, 6));
    assert (n > 7 ==> Rule(b, trusted, 7)) && (n > 8 ==> Rule(b, trusted, 8));
    SystemOkIff(m, rs);
    SequenceOkIff(rs);
    GenesisOkIff(rs[0]);
    LinksOkIff(rs);
    if n == 9 {
      var i := FirstUnsignedFails(m, trusted, rs);
    }
  }

  lemma {:induction false} ReceiptsAreThere(b: Bundle, trusted: Trusted, n: nat)
    requires n >= 4 && HeldBefore(b, trusted, n)
    ensures AllParsed(b.receipts) && |Values(b.receipts)| == |b.receipts| > 0
  {
    assert Rule(b, trusted, 2) && Rule(b, trusted, 3);
    ParsedIff(b.receipts);
  }

  lemma {:induction false} ReceiptsHold(b: Bundle, trusted: Trusted)
    requires HeldBefore(b, trusted, 10)
    ensures var rs := Values(b.receipts);
            && |rs| > 0 && SequenceOk(rs) && rs[0].body.seq_ == b.manifest.value.fromSeq
            && ReceiptsFailure(b.manifest.value, rs, KeyMap(b.manifest.value.keys), trusted).None?
  {
    hide AreSigned, AreOfSystem, AreConsecutive, AreLinked, IsGenesis, SignaturesFailure, SystemOk, SequenceOk,
        GenesisOk,
      LinksOk, KeyMap;
    var m, rs := b.manifest.value, Values(b.receipts);
    ReceiptsAreThere(b, trusted, 10);
    assert Rule(b, trusted, 4) && Rule(b, trusted, 5) && Rule(b, trusted, 6);
    assert Rule(b, trusted, 7) && Rule(b, trusted, 8) && Rule(b, trusted, 9);
    SystemOkIff(m, rs);
    SequenceOkIff(rs);
    GenesisOkIff(rs[0]);
    LinksOkIff(rs);
    AllSignedIff(m, trusted, rs);
  }

  lemma {:induction false} KeysHold(b: Bundle, trusted: Trusted)
    requires b.manifest.Parsed?
    ensures KeysOk(b.manifest.value.keys) <==> Rule(b, trusted, 1)
  {
    KeysOkIff(b.manifest.value.keys);
  }

  lemma {:induction false} IndexAnswers(rs: seq<Receipt>, lines: seq<Line<IndexEntry>>)
    ensures IndexFailure(rs, lines).Some? ==> IndexFailure(rs, lines).value == ArtifactsIndex
  {
    hide SortJoin, DeclaredArtifacts, IndexedArtifacts;
    if !AllParsed(lines) {
      var i := FirstUnparsedFails(lines, ArtifactsIndex, ArtifactsIndex);
    }
  }

  /** What is checked once the receipts have passed. */
  ghost function RestFailure(b: Bundle, trusted: Trusted): Option<Check>
    requires b.manifest.Parsed? && |Values(b.receipts)| > 0
  {
    var m, rs := b.manifest.value, Values(b.receipts);
    if IndexFailure(rs, b.artifactsIndex).Some? then Some(ArtifactsIndex)
    else if !Rule(b, trusted, 11) then Some(Openings)
    else if !Rule(b, trusted, 12) then Some(Subjects)
    else
      var lines := LinesFailure(m, rs, KeyMap(m.keys), trusted, b.checkpoints);
      if lines.Some? then lines else if !Rule(b, trusted, 14) then Some(Range) else None
  }

  lemma {:induction false} PastReceipts(b: Bundle, trusted: Trusted)
    requires HeldBefore(b, trusted, 10)
    ensures b.manifest.Parsed? && |Values(b.receipts)| > 0 && FirstFailure(b, trusted) == RestFailure(b, trusted)
  {
    hide AreSigned, AreOfSystem, AreConsecutive, AreLinked, IsGenesis, SystemOk, SequenceOk, GenesisOk, ReceiptsFailure,
      LinksOk, KeyMap, LinesFailure, IndexFailure, KeysOk, OpeningsOk, SubjectsOk, OpeningsHold, SubjectsHold,
          Describes,
      ManifestIsTrue, EntryHolds;
    var m, rs := b.manifest.value, Values(b.receipts);
    assert Rule(b, trusted, 1) && Rule(b, trusted, 2);
    KeysHold(b, trusted);
    ReceiptsAreThere(b, trusted, 10);
    ReceiptsHold(b, trusted);
    IndexAnswers(rs, b.artifactsIndex);
    DisclosedIff(b, trusted);
    DescribesIff(m, rs, Values(b.checkpoints));
  }

  lemma {:induction false} DisclosedIff(b: Bundle, trusted: Trusted)
    requires b.manifest.Parsed? && |Values(b.receipts)| > 0 && SequenceOk(Values(b.receipts))
    ensures AllParsed(b.openings) && OpeningsOk(Values(b.receipts), Values(b.openings)) <==> Rule(b, trusted, 11)
    ensures AllParsed(b.subjects) && SubjectsOk(Values(b.receipts), Values(b.subjects)) <==> Rule(b, trusted, 12)
  {
    hide OpeningsOk, SubjectsOk, SequenceOk, HasSalted, SubjectsHold;
    var rs := Values(b.receipts);
    ParsedIff(b.openings);
    OpeningsOkIff(rs, Values(b.openings));
    ParsedIff(b.subjects);
    SubjectsOkIff(rs, Values(b.subjects));
  }

  /** Rules 10 to 14 are what is asked beside the receipts. */
  lemma {:induction false} RestAnswers(b: Bundle, trusted: Trusted, n: nat)
    requires 10 <= n < RULES && HeldBefore(b, trusted, n) && !Rule(b, trusted, n)
    ensures FirstFailure(b, trusted).Some? && Answers(b, trusted, n, FirstFailure(b, trusted).value)
  {
    hide FirstFailure, AreSigned, AreOfSystem, AreConsecutive, AreLinked, IsGenesis, SequenceOk, LinesFailure,
        IndexFailure,
      OpeningsHold, SubjectsHold, ManifestIsTrue, LineHolds, EntryHolds, KeyMap;
    var m, rs := b.manifest.value, Values(b.receipts);
    EarlierHeld(b, trusted, n, 10);
    ReceiptsHold(b, trusted);
    PastReceipts(b, trusted);
    assert (n > 10 ==> Rule(b, trusted, 10)) && (n > 11 ==> Rule(b, trusted, 11)) && (n > 12 ==> Rule(b, trusted, 12));
    LinesRule(b, trusted);
    if n == 13 {
      var i := FirstBadLineFails(m, rs, trusted, b.checkpoints);
    } else if n == 14 {
      assert Rule(b, trusted, 13);
    }
  }

  lemma {:induction false} LinesRule(b: Bundle, trusted: Trusted)
    requires b.manifest.Parsed? && |Values(b.receipts)| > 0 && SequenceOk(Values(b.receipts))
    ensures var m, rs := b.manifest.value, Values(b.receipts);
            && (Rule(b, trusted, 13) <==> LinesFailure(m, rs, KeyMap(m.keys), trusted, b.checkpoints).None?)
            && (Rule(b, trusted, 13) <==> forall line :: line in b.checkpoints ==> LineHolds(m, rs, trusted, line))
  {
    hide LinesFailure, KeyMap, SequenceOk, EntryHolds;
    AllLinesHoldIff(b.manifest.value, Values(b.receipts), trusted, b.checkpoints);
  }

  lemma {:induction false} EarlierHeld(b: Bundle, trusted: Trusted, n: nat, k: nat)
    requires HeldBefore(b, trusted, n) && k <= n
    ensures HeldBefore(b, trusted, k)
  {
    hide Rule;
  }

  lemma {:induction false} FirstsAnswer(b: Bundle, trusted: Trusted, n: nat)
    requires n < 4 && HeldBefore(b, trusted, n) && !Rule(b, trusted, n)
    ensures FirstFailure(b, trusted).Some? && Answers(b, trusted, n, FirstFailure(b, trusted).value)
  {
    hide ReceiptsFailure, IndexFailure, LinesFailure, Describes, OpeningsOk, SubjectsOk, KeyMap, KeysOk;
    if n > 0 {
      KeysHold(b, trusted);
      assert (n > 1 ==> Rule(b, trusted, 1)) && (n > 2 ==> Rule(b, trusted, 2));
      if n == 3 {
        ParsedIff(b.receipts);
        var i := FirstUnparsedFails(b.receipts, ReceiptJson, ReceiptSchema);
      }
    }
  }

  /** verifyBundle reports the first rule an export breaks and, of a rule about every line,
      what is wrong with the first line that breaks it. */
  lemma {:induction false} TheFirstRuleBroken(b: Bundle, trusted: Trusted, n: nat)
    requires n < RULES && HeldBefore(b, trusted, n) && !Rule(b, trusted, n)
    ensures FirstFailure(b, trusted).Some? && Answers(b, trusted, n, FirstFailure(b, trusted).value)
  {
    hide Rule, Answers, HeldBefore;
    if n < 4 {
      FirstsAnswer(b, trusted, n);
    } else if n < 10 {
      ReceiptsRefused(b, trusted, n);
    } else {
      RestAnswers(b, trusted, n);
    }
  }

  lemma {:induction false} ReceiptsRefused(b: Bundle, trusted: Trusted, n: nat)
    requires 4 <= n < 10 && HeldBefore(b, trusted, n) && !Rule(b, trusted, n)
    ensures FirstFailure(b, trusted).Some? && Answers(b, trusted, n, FirstFailure(b, trusted).value)
  {
    hide Answers, ReceiptsFailure, IndexFailure, LinesFailure, Describes, OpeningsOk, SubjectsOk, KeyMap, KeysOk,
        AreSigned,
      AreOfSystem, AreConsecutive, AreLinked, IsGenesis, OpeningsHold, SubjectsHold, ManifestIsTrue, EntryHolds;
    assert Rule(b, trusted, 1);
    KeysHold(b, trusted);
    ReceiptsAreThere(b, trusted, n);
    ReceiptsAnswer(b, trusted, n);
  }

  /** And it accepts exactly the exports that break none. */
  lemma {:induction false} AcceptsWhereNoneIsBroken(b: Bundle, trusted: Trusted)
    ensures FirstFailure(b, trusted).None? <==>
            Rule(b, trusted, 0) && forall n :: 1 <= n < RULES ==> Rule(b, trusted, n)
  {
    hide Rule, Answers, FirstFailure;
    var n := FirstBroken(b, trusted, 0);
    if n < RULES {
      TheFirstRuleBroken(b, trusted, n);
    } else {
      AllHold(b, trusted);
    }
  }

  lemma {:induction false} FirstBroken(b: Bundle, trusted: Trusted, from: nat) returns (n: nat)
    requires from <= RULES && HeldBefore(b, trusted, from) && (from > 0 ==> Rule(b, trusted, 0))
    ensures n <= RULES && HeldBefore(b, trusted, n) && (n > 0 ==> Rule(b, trusted, 0))
    ensures n < RULES ==> !Rule(b, trusted, n)
    decreases RULES - from
  {
    assert Rule(b, trusted, 0) <==> b.manifest.Parsed?;
    hide Rule;
    n := from;
    if from < RULES && Rule(b, trusted, from) {
      n := FirstBroken(b, trusted, from + 1);
    }
  }

  lemma {:induction false} AllHold(b: Bundle, trusted: Trusted)
    requires HeldBefore(b, trusted, RULES)
    ensures FirstFailure(b, trusted).None?
  {
    hide FirstFailure, AreSigned, AreOfSystem, AreConsecutive, AreLinked, IsGenesis, SequenceOk, LinesFailure,
        IndexFailure,
      OpeningsHold, SubjectsHold, ManifestIsTrue, LineHolds, EntryHolds, KeyMap;
    EarlierHeld(b, trusted, RULES, 10);
    ReceiptsHold(b, trusted);
    PastReceipts(b, trusted);
    LinesRule(b, trusted);
    assert Rule(b, trusted, 10) && Rule(b, trusted, 11) && Rule(b, trusted, 12) && Rule(b, trusted, 13);
    assert Rule(b, trusted, 14);
  }

  // ----- the counters -----

  /** Every receipt under the tree is in the export. */
  ghost predicate IsWhole(rs: seq<Receipt>, e: CheckpointEntry) {
    rs != [] && rs[0].body.seq_ == 0 && e.checkpoint.body.treeSize <= |rs|
  }

  /** Something ties the receipts of the export to the tree: all of them, or a proof. */
  ghost predicate IsTied(rs: seq<Receipt>, e: CheckpointEntry) { IsWhole(rs, e) || e.proofs != [] }

  function AllProofs(es: seq<CheckpointEntry>): seq<InclusionProofEntry> {
    if es == [] then [] else AllProofs(es[..|es| - 1]) + es[|es| - 1].proofs
  }

  ghost function Wholes(rs: seq<Receipt>, es: seq<CheckpointEntry>): set<nat> {
    set i: nat | i < |es| && IsWhole(rs, es[i])
  }

  ghost function Untied(rs: seq<Receipt>, es: seq<CheckpointEntry>): set<nat> {
    set i: nat | i < |es| && !IsTied(rs, es[i])
  }

  lemma {:induction false} OneMoreWhole(rs: seq<Receipt>, front: seq<CheckpointEntry>, last: CheckpointEntry)
    ensures |Wholes(rs, front + [last])| == |Wholes(rs, front)| + (if IsWhole(rs, last) then 1 else 0)
  {
    hide IsWhole;
    assert Wholes(rs, front + [last]) == Wholes(rs, front) + (if IsWhole(rs, last) then {|front|} else {});
  }

  lemma {:induction false} RootsAreWholes(rs: seq<Receipt>, es: seq<CheckpointEntry>)
    ensures TallyOf(rs, es).roots == |Wholes(rs, es)|
    decreases |es|
  {
    hide IsLinked, Wholes;
    if es == [] {
      assert Wholes(rs, []) == {} by { NoWholes(rs); }
    } else {
      var front, last := es[..|es| - 1], es[|es| - 1];
      assert es == front + [last];
      RootsAreWholes(rs, front);
      OneMoreWhole(rs, front, last);
    }
  }

  lemma {:induction false} NoWholes(rs: seq<Receipt>)
    ensures Wholes(rs, []) == {}
  {
  }

  lemma {:induction false} ProofsAreAll(rs: seq<Receipt>, es: seq<CheckpointEntry>)
    ensures TallyOf(rs, es).proofs == |AllProofs(es)|
    decreases |es|
  {
    hide IsLinked, Rebuildable;
    if es != [] {
      ProofsAreAll(rs, es[..|es| - 1]);
    }
  }

  lemma {:induction false} UnlinkedAreUntied(rs: seq<Receipt>, es: seq<CheckpointEntry>)
    ensures TallyOf(rs, es).unlinked == |Untied(rs, es)|
    decreases |es|
  {
    hide IsLinked, Rebuildable, IsTied;
    if es != [] {
      var front, n := es[..|es| - 1], |es| - 1;
      UnlinkedAreUntied(rs, front);
      LinkedIffTied(rs, es[n]);
      assert Untied(rs, es) == Untied(rs, front) + (if IsTied(rs, es[n]) then {} else {n});
    }
  }

  /** Exactly the checkpoints that are tied, each with its line, in their order. */
  ghost predicate AreTheTied(rs: seq<Receipt>, es: seq<CheckpointEntry>, linked: seq<LinkedCheckpoint>) {
    && (forall c :: c in linked <==> 1 <= c.line <= |es| && es[c.line - 1] == c.entry && IsTied(rs, c.entry))
    && (forall i, j :: 0 <= i < j < |linked| ==> linked[i].line < linked[j].line)
  }

  lemma {:induction false} OneMoreLinked(rs: seq<Receipt>, front: seq<CheckpointEntry>, last: CheckpointEntry,
      before: seq<LinkedCheckpoint>)
    requires AreTheTied(rs, front, before)
    ensures AreTheTied(rs, front + [last],
                       if IsTied(rs, last) then before + [LinkedCheckpoint(|front| + 1, last)] else before)
  {
    hide IsTied;
    assert forall i :: 0 <= i < |before| ==> before[i] in before;
  }

  lemma {:induction false} LinkedAreTheTied(rs: seq<Receipt>, es: seq<CheckpointEntry>)
    ensures AreTheTied(rs, es, TallyOf(rs, es).linked)
    decreases |es|
  {
    hide IsTied, IsLinked, AreTheTied, Rebuildable;
    if es == [] {
      NoneTied(rs);
    } else {
      var front, last := es[..|es| - 1], es[|es| - 1];
      assert es == front + [last];
      LinkedAreTheTied(rs, front);
      LinkedIffTied(rs, last);
      OneMoreLinked(rs, front, last, TallyOf(rs, front).linked);
    }
  }

  lemma {:induction false} NoneTied(rs: seq<Receipt>)
    ensures AreTheTied(rs, [], [])
  {
  }

  lemma {:induction false} LinkedIffTied(rs: seq<Receipt>, e: CheckpointEntry)
    ensures IsLinked(rs, e) <==> IsTied(rs, e)
  {
  }

  /** The size of the largest tree that is tied; none when none is. */
  ghost predicate IsLargestTied(rs: seq<Receipt>, es: seq<CheckpointEntry>, anchored: Option<nat>) {
    && (anchored.None? ==> forall i :: 0 <= i < |es| ==> !IsTied(rs, es[i]))
    && (anchored.Some? ==>
          && (exists i :: 0 <= i < |es| && IsTied(rs, es[i]) && es[i].checkpoint.body.treeSize == anchored.value)
          && (forall i :: 0 <= i < |es| && IsTied(rs, es[i]) ==> es[i].checkpoint.body.treeSize <= anchored.value))
  }

  lemma {:induction false} AnchoredIsLargest(rs: seq<Receipt>, es: seq<CheckpointEntry>)
    ensures IsLargestTied(rs, es, TallyOf(rs, es).anchored)
    decreases |es|
  {
    hide IsTied, IsLinked;
    if es != [] {
      var front, n := es[..|es| - 1], |es| - 1;
      AnchoredIsLargest(rs, front);
      LinkedIffTied(rs, es[n]);
      assert forall i :: 0 <= i < n ==> es[i] == front[i];
      var before, after := TallyOf(rs, front).anchored, TallyOf(rs, es).anchored;
      if before.Some? {
        var i :| 0 <= i < n && IsTied(rs, front[i]) && front[i].checkpoint.body.treeSize == before.value;
        assert es[i].checkpoint.body.treeSize == before.value;
      }
      assert after.Some? && after != before ==> es[n].checkpoint.body.treeSize == after.value;
    }
  }

  /** A receipt past every tree that is tied to the export. */
  ghost predicate IsPast(r: Receipt, rs: seq<Receipt>, es: seq<CheckpointEntry>) {
    forall e :: e in es && IsTied(rs, e) ==> e.checkpoint.body.treeSize <= r.body.seq_
  }

  ghost function PastAll(rs: seq<Receipt>, es: seq<CheckpointEntry>, within: seq<Receipt>): set<nat> {
    set i: nat | i < |within| && IsPast(within[i], rs, es)
  }

  lemma {:induction false} CountFromIsPast(rs: seq<Receipt>, es: seq<CheckpointEntry>, within: seq<Receipt>, size: nat)
    requires IsLargestTied(rs, es, Some(size))
    ensures CountFrom(within, size) == |PastAll(rs, es, within)|
    decreases |within|
  {
    hide IsTied, IsPast, PastAll, IsLargestTied;
    if within == [] {
      NonePast(rs, es);
    } else {
      var front, last := within[..|within| - 1], within[|within| - 1];
      assert within == front + [last];
      CountFromIsPast(rs, es, front, size);
      PastIffBeyond(rs, es, last, size);
      OneMorePast(rs, es, front, last);
    }
  }

  lemma {:induction false} NonePast(rs: seq<Receipt>, es: seq<CheckpointEntry>)
    ensures PastAll(rs, es, []) == {}
  {
  }

  lemma {:induction false} PastIffBeyond(rs: seq<Receipt>, es: seq<CheckpointEntry>, r: Receipt, size: nat)
    requires IsLargestTied(rs, es, Some(size))
    ensures IsPast(r, rs, es) <==> size <= r.body.seq_
  {
    hide IsTied;
    var i :| 0 <= i < |es| && IsTied(rs, es[i]) && es[i].checkpoint.body.treeSize == size;
    assert es[i] in es;
  }

  lemma {:induction false} OneMorePast(rs: seq<Receipt>, es: seq<CheckpointEntry>, front: seq<Receipt>, last: Receipt)
    ensures |PastAll(rs, es, front + [last])| == |PastAll(rs, es, front)| + (if IsPast(last, rs, es) then 1 else 0)
  {
    hide IsPast;
    assert PastAll(rs, es, front + [last])
           == PastAll(rs, es, front) + (if IsPast(last, rs, es) then {|front|} else {});
  }

  /** The receipts no tied tree includes, where some tree is tied. */
  lemma {:induction false} UnanchoredAre(rs: seq<Receipt>, es: seq<CheckpointEntry>)
    ensures Unanchored(rs, TallyOf(rs, es)) ==
            if exists i :: 0 <= i < |es| && IsTied(rs, es[i]) then |PastAll(rs, es, rs)| else 0
  {
    hide TallyOf, IsTied, CountFrom, PastAll;
    AnchoredIsLargest(rs, es);
    var anchored := TallyOf(rs, es).anchored;
    if anchored.Some? {
      CountFromIsPast(rs, es, rs, anchored.value);
    }
  }

  /** What the summary of an accepted export says is so. */
  ghost predicate SummaryHolds(b: Bundle, s: Summary)
    requires b.manifest.Parsed?
  {
    var m, rs, es := b.manifest.value, Values(b.receipts), Values(b.checkpoints);
    && s.systemId == m.systemId && s.firstSeq == m.fromSeq && s.lastSeq == m.toSeq && s.receipts == |b.receipts|
    && (forall id :: id in s.keyIds <==> exists k: nat :: Published(m.keys, id, k))
    && s.checkpoints == |b.checkpoints| && s.artifactsIndexed == |b.artifactsIndex|
    && s.openingsDisclosed == |b.openings| && s.subjectsDisclosed == |b.subjects|
    && s.rootsRecomputed == |Wholes(rs, es)| && s.inclusionProofs == |AllProofs(es)|
    && s.unlinkedCheckpoints == |Untied(rs, es)|
    && s.unanchoredReceipts
       == if exists i :: 0 <= i < |es| && IsTied(rs, es[i]) then |PastAll(rs, es, rs)| else 0
  }

  /** Of an accepted export: all it reports is what the export holds. */
  lemma {:induction false} SummaryIsTrue(b: Bundle, trusted: Trusted, r: Verification)
    requires IsVerification(b, trusted, r) && r.Verified?
    ensures b.manifest.Parsed? && AllParsed(b.receipts) && r.receipts == Values(b.receipts)
    ensures SummaryHolds(b, r.summary)
    ensures AreTheTied(r.receipts, Values(b.checkpoints), r.linked)
  {
    hide FirstFailure, TallyOf, AreTheTied, Unanchored, PastAll, Wholes, Untied, IsTied, Published, KeyMap, KeyIds;
    AcceptedManifestIsTrue(b, trusted);
    AcceptedIsRead(b, trusted);
    var rs, es, keys := Values(b.receipts), Values(b.checkpoints), b.manifest.value.keys;
    RootsAreWholes(rs, es);
    ProofsAreAll(rs, es);
    UnlinkedAreUntied(rs, es);
    UnanchoredAre(rs, es);
    LinkedAreTheTied(rs, es);
    KeyIdsAreThePublished(keys);
    forall id
      ensures id in KeyIds(keys) <==> exists k: nat :: Published(keys, id, k)
    {
      KeyMapIs(keys, id);
    }
  }

  lemma {:induction false} AcceptedIsRead(b: Bundle, trusted: Trusted)
    requires FirstFailure(b, trusted).None?
    ensures AllParsed(b.receipts) && |Values(b.receipts)| == |b.receipts|
  {
    hide Acceptable, FirstFailure;
    VerifiesIffAcceptable(b, trusted);
    AcceptableIsRead(b, trusted);
  }

  lemma {:induction false} AcceptableIsRead(b: Bundle, trusted: Trusted)
    requires Acceptable(b, trusted)
    ensures AllParsed(b.receipts)
  {
    hide ReceiptsAccepted, KeysOk, IndexFailure, DisclosedOk, Describes, EntryCheck;
  }
}
