/**
 * packages/verifier/src/verify.ts, verifyBundle: the checkpoints of an export, the
 * manifest's own claims, and the whole verification.
 */
module VerifyBundle {
  import opened Prelude
  import opened Merkle
  import opened Receipts
  import opened Verifier

  // ----- 10 to 12: one checkpoint -----

  /** The export holds every receipt the tree was built from. */
  predicate Rebuildable(rs: seq<Receipt>, size: nat) {
    |rs| > 0 && rs[0].body.seq_ == 0 && |rs| >= size
  }

  predicate IsLinked(rs: seq<Receipt>, e: CheckpointEntry) {
    Rebuildable(rs, e.checkpoint.body.treeSize) || |e.proofs| > 0
  }

  /** A proof is of a receipt the export holds, and rebuilds the checkpoint's root. */
  ghost predicate ProofOk(rs: seq<Receipt>, c: CheckpointBody, p: InclusionProofEntry) {
    var receipt := Find(rs, p.seq_);
    && receipt.Some?
    && ReceiptHash(receipt.value.body) == p.receiptHash
    && RootFromProof(p.receiptHash, p.seq_, c.treeSize, p.path) == Ok(c.rootHash)
  }

  ghost predicate ProofsOk(rs: seq<Receipt>, e: CheckpointEntry) {
    forall i :: 0 <= i < |e.proofs| ==> ProofOk(rs, e.checkpoint.body, e.proofs[i])
  }

  /** The root is rebuilt wherever it can be. */
  ghost predicate RootOk(rs: seq<Receipt>, c: CheckpointBody) {
    Rebuildable(rs, c.treeSize) ==> Root(Hashes(rs[..c.treeSize])) == c.rootHash
  }

  ghost function EntryCheck(m: Manifest, rs: seq<Receipt>, keys: map<KeyId, PublicKey>, trusted: Trusted,
      e: CheckpointEntry): Option<Check> {
    var c := e.checkpoint.body;
    if c.systemId != m.systemId then Some(System)
    else if c.keyId !in keys then Some(Key)
    else if !IsTrusted(trusted, c.keyId) then Some(Key)
    else if !Verifies(keys[c.keyId], CheckpointHash(c), e.checkpoint.sig) then Some(CheckpointSignature)
    else if !RootOk(rs, c) then Some(MerkleRootCheck)
    else if !ProofsOk(rs, e) then Some(InclusionProofCheck)
    else None
  }

  method CheckProofs(rs: seq<Receipt>, e: CheckpointEntry) returns (ok: bool)
    ensures ok <==> ProofsOk(rs, e)
  {
    var c := e.checkpoint.body;
    for i := 0 to |e.proofs|
      invariant forall j :: 0 <= j < i ==> ProofOk(rs, c, e.proofs[j])
    {
      var p := e.proofs[i];
      var receipt := Find(rs, p.seq_);
      if receipt.None? {
        assert !ProofOk(rs, c, p);
        return false;
      }
      var hash := ReceiptHash(receipt.value.body);
      if hash != p.receiptHash {
        assert !ProofOk(rs, c, p);
        return false;
      }
      var rebuilt := RootFromInclusionProof(hash, p.seq_, c.treeSize, p.path);
      if rebuilt.Err? || rebuilt.value != c.rootHash {
        assert !ProofOk(rs, c, p);
        return false;
      }
      assert ProofOk(rs, c, p);
    }
    return true;
  }

  method CheckEntry(m: Manifest, rs: seq<Receipt>, keys: map<KeyId, PublicKey>, trusted: Trusted, e: CheckpointEntry)
    returns (failure: Option<Check>)
    ensures failure == EntryCheck(m, rs, keys, trusted, e)
  {
    hide ProofsOk;
    var c := e.checkpoint.body;
    if c.systemId != m.systemId {
      return Some(System);
    }
    if c.keyId !in keys {
      return Some(Key);
    }
    if !IsTrusted(trusted, c.keyId) {
      return Some(Key);
    }
    if !Verifies(keys[c.keyId], CheckpointHash(c), e.checkpoint.sig) {
      return Some(CheckpointSignature);
    }
    if Rebuildable(rs, c.treeSize) {
      var recomputed := MerkleRoot(Hashes(rs[..c.treeSize]));
      if recomputed != c.rootHash {
        return Some(MerkleRootCheck);
      }
    }
    var proofs := CheckProofs(rs, e);
    return if proofs then None else Some(InclusionProofCheck);
  }

  // ----- the counters -----

  datatype Tally = Tally(linked: seq<LinkedCheckpoint>, roots: nat, proofs: nat, unlinked: nat, anchored: Option<nat>)

  const NO_TALLY := Tally([], 0, 0, 0, None)

  function Count(t: Tally, rs: seq<Receipt>, e: CheckpointEntry, line: nat): Tally {
    var size := e.checkpoint.body.treeSize;
    Tally(
      if IsLinked(rs, e) then t.linked + [LinkedCheckpoint(line, e)] else t.linked,
      t.roots + (if Rebuildable(rs, size) then 1 else 0),
      t.proofs + |e.proofs|,
      t.unlinked + (if IsLinked(rs, e) then 0 else 1),
      if IsLinked(rs, e) then Some(if t.anchored.Some? then Max(t.anchored.value, size) else size) else t.anchored)
  }

  function TallyOf(rs: seq<Receipt>, es: seq<CheckpointEntry>): Tally {
    if es == [] then NO_TALLY else Count(TallyOf(rs, es[..|es| - 1]), rs, es[|es| - 1], |es|)
  }

  /** Receipts at or after position n. */
  function CountFrom(rs: seq<Receipt>, n: nat): nat {
    if rs == [] then 0 else CountFrom(rs[..|rs| - 1], n) + (if rs[|rs| - 1].body.seq_ >= n then 1 else 0)
  }

  lemma {:induction false} CountFromInSequence(rs: seq<Receipt>, n: nat)
    requires SequenceOk(rs)
    ensures |rs| > 0 ==> CountFrom(rs, n) == Min(|rs|, Max(0, rs[0].body.seq_ + |rs| - n))
    decreases |rs|
  {
    if |rs| > 0 {
      CountFromInSequence(rs[..|rs| - 1], n);
      assert rs[|rs| - 1].body.seq_ == rs[0].body.seq_ + |rs| - 1;
    }
  }

  function Unanchored(rs: seq<Receipt>, t: Tally): nat {
    if t.anchored.None? then 0 else CountFrom(rs, t.anchored.value)
  }

  // ----- all the checkpoint lines -----

  ghost function LineCheck(m: Manifest, rs: seq<Receipt>, keys: map<KeyId, PublicKey>, trusted: Trusted,
                           line: Line<CheckpointEntry>): Option<Check> {
    match line
    case NotJson => Some(CheckpointJson)
    case NotOfSchema => Some(CheckpointSchema)
    case Parsed(e) => EntryCheck(m, rs, keys, trusted, e)
  }

  ghost function LinesFailure(m: Manifest, rs: seq<Receipt>, keys: map<KeyId, PublicKey>, trusted: Trusted,
                              lines: seq<Line<CheckpointEntry>>): Option<Check> {
    if lines == [] then None
    else
      var before := LinesFailure(m, rs, keys, trusted, lines[..|lines| - 1]);
      if before.Some? then before else LineCheck(m, rs, keys, trusted, lines[|lines| - 1])
  }

  lemma {:induction false} LinesFailureStays(
      m: Manifest, rs: seq<Receipt>, keys: map<KeyId, PublicKey>, trusted: Trusted,
                                             lines: seq<Line<CheckpointEntry>>, n: nat)
    requires n <= |lines| && LinesFailure(m, rs, keys, trusted, lines[..n]).Some?
    ensures LinesFailure(m, rs, keys, trusted, lines) == LinesFailure(m, rs, keys, trusted, lines[..n])
    decreases |lines|
  {
    hide LineCheck;
    if n < |lines| {
      assert lines[..|lines| - 1][..n] == lines[..n];
      LinesFailureStays(m, rs, keys, trusted, lines[..|lines| - 1], n);
    } else {
      assert lines[..n] == lines;
    }
  }

  lemma {:induction false} AllLinesPass(m: Manifest, rs: seq<Receipt>, keys: map<KeyId, PublicKey>, trusted: Trusted,
                                        lines: seq<Line<CheckpointEntry>>)
    ensures LinesFailure(m, rs, keys, trusted, lines).None? <==>
              forall i :: 0 <= i < |lines| ==> LineCheck(m, rs, keys, trusted, lines[i]).None?
    decreases |lines|
  {
    hide LineCheck;
    if lines != [] {
      AllLinesPass(m, rs, keys, trusted, lines[..|lines| - 1]);
      assert forall i :: 0 <= i < |lines| - 1 ==> lines[..|lines| - 1][i] == lines[i];
    }
  }

  /** Where the loop stands before line i. */
  ghost predicate Passed(m: Manifest, rs: seq<Receipt>, keys: map<KeyId, PublicKey>, trusted: Trusted,
                         lines: seq<Line<CheckpointEntry>>, i: nat, es: seq<CheckpointEntry>, t: Tally) {
    && i <= |lines|
    && LinesFailure(m, rs, keys, trusted, lines[..i]) == None
    && es == Values(lines[..i]) && |es| == i
    && t == TallyOf(rs, es)
  }

  lemma {:induction false} PassOneMore(m: Manifest, rs: seq<Receipt>, keys: map<KeyId, PublicKey>, trusted: Trusted,
                    lines: seq<Line<CheckpointEntry>>, i: nat, es: seq<CheckpointEntry>, t: Tally)
    requires i < |lines| && Passed(m, rs, keys, trusted, lines, i, es, t)
    requires lines[i].Parsed? && EntryCheck(m, rs, keys, trusted, lines[i].value) == None
    ensures Passed(m, rs, keys, trusted, lines, i + 1, es + [lines[i].value], Count(t, rs, lines[i].value, i + 1))
  {
    hide EntryCheck, Count;
    var more := lines[..i + 1];
    assert more[..i] == lines[..i];
    assert (es + [lines[i].value])[..i] == es;
    assert LineCheck(m, rs, keys, trusted, more[i]) == None;
  }

  lemma {:induction false} FailsHere(m: Manifest, rs: seq<Receipt>, keys: map<KeyId, PublicKey>, trusted: Trusted,
                  lines: seq<Line<CheckpointEntry>>, i: nat, es: seq<CheckpointEntry>, t: Tally)
    requires i < |lines| && Passed(m, rs, keys, trusted, lines, i, es, t)
    requires LineCheck(m, rs, keys, trusted, lines[i]).Some?
    ensures LinesFailure(m, rs, keys, trusted, lines) == LineCheck(m, rs, keys, trusted, lines[i])
  {
    hide LineCheck, TallyOf, Values;
    assert lines[..i + 1][..i] == lines[..i];
    LinesFailureStays(m, rs, keys, trusted, lines, i + 1);
  }

  method CheckCheckpoints(m: Manifest, rs: seq<Receipt>, keys: map<KeyId, PublicKey>, trusted: Trusted,
                          lines: seq<Line<CheckpointEntry>>) returns (r: Result<(seq<CheckpointEntry>, Tally), Check>)
    ensures var failure := LinesFailure(m, rs, keys, trusted, lines);
            if failure.Some? then r == Err(failure.value)
            else r == Ok((Values(lines), TallyOf(rs, Values(lines)))) && |r.value.0| == |lines|
  {
    hide LinesFailure, Values, TallyOf, EntryCheck, Passed;
    var es: seq<CheckpointEntry> := [];
    var tally := NO_TALLY;
    NonePassed(m, rs, keys, trusted, lines);
    for i := 0 to |lines|
      invariant Passed(m, rs, keys, trusted, lines, i, es, tally)
    {
      match lines[i]
      case NotJson =>
        FailsHere(m, rs, keys, trusted, lines, i, es, tally);
        return Err(CheckpointJson);
      case NotOfSchema =>
        FailsHere(m, rs, keys, trusted, lines, i, es, tally);
        return Err(CheckpointSchema);
      case Parsed(e) =>
        var failure := CheckEntry(m, rs, keys, trusted, e);
        if failure.Some? {
          FailsHere(m, rs, keys, trusted, lines, i, es, tally);
          return Err(failure.value);
        }
        PassOneMore(m, rs, keys, trusted, lines, i, es, tally);
        tally := Count(tally, rs, e, i + 1);
        es := es + [e];
    }
    AllPassed(m, rs, keys, trusted, lines, es, tally);
    return Ok((es, tally));
  }

  lemma {:induction false} NonePassed(
      m: Manifest, rs: seq<Receipt>, keys: map<KeyId, PublicKey>, trusted: Trusted, lines: seq<Line<CheckpointEntry>>)
    ensures Passed(m, rs, keys, trusted, lines, 0, [], NO_TALLY)
  {
  }

  lemma {:induction false} AllPassed(m: Manifest, rs: seq<Receipt>, keys: map<KeyId, PublicKey>, trusted: Trusted,
                  lines: seq<Line<CheckpointEntry>>, es: seq<CheckpointEntry>, t: Tally)
    requires Passed(m, rs, keys, trusted, lines, |lines|, es, t)
    ensures LinesFailure(m, rs, keys, trusted, lines) == None
    ensures es == Values(lines) && t == TallyOf(rs, es) && |es| == |lines|
  {
    hide LineCheck, Count;
    assert lines[..|lines|] == lines;
  }

  // ----- 13: the manifest -----

  function TotalTimestamps(es: seq<CheckpointEntry>): nat {
    if es == [] then 0 else TotalTimestamps(es[..|es| - 1]) + |es[|es| - 1].timestamps|
  }

  function HighestVersion(rs: seq<Receipt>): nat {
    if rs == [] then 0 else Max(HighestVersion(rs[..|rs| - 1]), rs[|rs| - 1].body.v)
  }

  /** The highest version is one a receipt has, and none has a higher. */
  lemma {:induction false} HighestIsTheMaximum(rs: seq<Receipt>)
    requires rs != []
    ensures exists i :: 0 <= i < |rs| && rs[i].body.v == HighestVersion(rs)
    ensures forall i :: 0 <= i < |rs| ==> rs[i].body.v <= HighestVersion(rs)
    decreases |rs|
  {
    var front, last := rs[..|rs| - 1], rs[|rs| - 1];
    assert forall i :: 0 <= i < |front| ==> rs[i] == front[i];
    if front == [] {
      assert rs[0] == last;
    } else {
      HighestIsTheMaximum(front);
      var i :| 0 <= i < |front| && front[i].body.v == HighestVersion(front);
      assert rs[i].body.v == HighestVersion(front) && rs[|front|].body.v == last.body.v;
    }
  }

  /** All the timestamps of all the checkpoints, one after the other. */
  function AllTimestamps(es: seq<CheckpointEntry>): seq<Timestamp> {
    if es == [] then [] else es[0].timestamps + AllTimestamps(es[1..])
  }

  lemma {:induction false} TotalConcat(xs: seq<CheckpointEntry>, ys: seq<CheckpointEntry>)
    ensures TotalTimestamps(xs + ys) == TotalTimestamps(xs) + TotalTimestamps(ys)
    decreases |ys|
  {
    if ys == [] {
      assert xs + ys == xs;
    } else {
      TotalConcat(xs, ys[..|ys| - 1]);
      assert (xs + ys)[..|xs + ys| - 1] == xs + ys[..|ys| - 1];
    }
  }

  lemma {:induction false} TotalIsOfAll(es: seq<CheckpointEntry>)
    ensures TotalTimestamps(es) == |AllTimestamps(es)|
    decreases |es|
  {
    if es != [] {
      TotalIsOfAll(es[1..]);
      TotalConcat([es[0]], es[1..]);
      assert es == [es[0]] + es[1..];
      assert [es[0]][..0] == [];
    }
  }

  /** The manifest describes the receipts and checkpoints that are here. */
  predicate Describes(m: Manifest, rs: seq<Receipt>, es: seq<CheckpointEntry>)
    requires |rs| > 0
  {
    && rs[|rs| - 1].body.seq_ == m.toSeq
    && m.fromTs == rs[0].body.tsReceived && m.toTs == rs[|rs| - 1].body.tsReceived
    && m.countReceipts == |rs|
    && m.countCheckpoints == |es|
    && m.countTimestamps == TotalTimestamps(es)
    && m.receiptVersion == HighestVersion(rs)
  }

  method CheckManifest(m: Manifest, rs: seq<Receipt>, es: seq<CheckpointEntry>) returns (ok: bool)
    requires |rs| > 0
    ensures ok <==> Describes(m, rs, es)
  {
    var first, last := rs[0], rs[|rs| - 1];
    if last.body.seq_ != m.toSeq || m.fromTs != first.body.tsReceived || m.toTs != last.body.tsReceived {
      return false;
    }
    if m.countReceipts != |rs| || m.countCheckpoints != |es| {
      return false;
    }
    var tokens := 0;
    for i := 0 to |es|
      invariant tokens == TotalTimestamps(es[..i])
    {
      assert es[..i + 1][..i] == es[..i];
      tokens := tokens + |es[i].timestamps|;
    }
    assert es[..|es|] == es;
    var highest := 0;
    for i := 0 to |rs|
      invariant highest == HighestVersion(rs[..i])
    {
      assert rs[..i + 1][..i] == rs[..i];
      highest := Max(highest, rs[i].body.v);
    }
    assert rs[..|rs|] == rs;
    return m.countTimestamps == tokens && m.receiptVersion == highest;
  }

  // ----- the whole -----

  /** The first check an export fails, in the order they are made. */
  ghost function FirstFailure(b: Bundle, trusted: Trusted): Option<Check> {
    if !b.manifest.Parsed? then Some(ManifestCheck)
    else
      var m := b.manifest.value;
      if !KeysOk(m.keys) then Some(Key)
      else if |b.receipts| == 0 then Some(Range)
      else
        var parse := ParseFailure(b.receipts, ReceiptJson, ReceiptSchema);
        if parse.Some? then parse
        else
          var rs := Values(b.receipts);
          var keys := KeyMap(m.keys);
          var receipts := ReceiptsFailure(m, rs, keys, trusted);
          var index := IndexFailure(rs, b.artifactsIndex);
          var lines := LinesFailure(m, rs, keys, trusted, b.checkpoints);
          if receipts.Some? then receipts
          else if index.Some? then index
          else if !(AllParsed(b.openings) && OpeningsOk(rs, Values(b.openings))) then Some(Openings)
          else if !(AllParsed(b.subjects) && SubjectsOk(rs, Values(b.subjects))) then Some(Subjects)
          else if lines.Some? then lines
          else if !Describes(m, rs, Values(b.checkpoints)) then Some(Range)
          else None
  }

  function SummaryOf(b: Bundle): Summary
    requires b.manifest.Parsed? && |Values(b.receipts)| > 0
  {
    var rs := Values(b.receipts);
    var t := TallyOf(rs, Values(b.checkpoints));
    Summary(b.manifest.value.systemId, |rs|, rs[0].body.seq_, rs[|rs| - 1].body.seq_, KeyIds(b.manifest.value.keys),
            |b.checkpoints|, t.proofs, t.roots, |b.artifactsIndex|, t.unlinked, Unanchored(rs, t), |b.openings|,
            |b.subjects|)
  }

  /** The answer of verifyBundle: the check that fails first, or all it reports. */
  ghost predicate IsVerification(b: Bundle, trusted: Trusted, r: Verification) {
    var failure := FirstFailure(b, trusted);
    if failure.Some? then r == Failed(failure.value)
    else
      && b.manifest.Parsed? && |Values(b.receipts)| > 0
      && r == Verified(SummaryOf(b), Values(b.receipts), TallyOf(Values(b.receipts), Values(b.checkpoints)).linked)
  }

  method VerifyBundle(b: Bundle, trusted: Trusted) returns (r: Verification)
    ensures IsVerification(b, trusted, r)
  {
    hide ParseFailure, KeysOk, KeyMap, ReceiptsFailure, IndexFailure, OpeningsOk, SubjectsOk, LinesFailure, Describes,
      TallyOf, Unanchored;
    if !b.manifest.Parsed? {
      return Failed(ManifestCheck);
    }
    var m := b.manifest.value;
    var keysById := ReadKeys(m.keys);
    if keysById.None? {
      return Failed(Key);
    }
    if |b.receipts| == 0 {
      return Failed(Range);
    }
    var parsed := ParseLines(b.receipts, ReceiptJson, ReceiptSchema);
    if parsed.Err? {
      return Failed(parsed.error);
    }
    var rs := parsed.value;
    var receipts := CheckReceipts(m, rs, keysById.value, trusted);
    if receipts.Some? {
      return Failed(receipts.value);
    }
    var index := CheckIndex(rs, b.artifactsIndex);
    if index.Err? {
      return Failed(index.error);
    }
    var openings := CheckOpenings(rs, b.openings);
    if !openings {
      return Failed(Openings);
    }
    var subjects := CheckSubjects(rs, b.subjects);
    if !subjects {
      return Failed(Subjects);
    }
    var checkpoints := CheckCheckpoints(m, rs, keysById.value, trusted, b.checkpoints);
    if checkpoints.Err? {
      return Failed(checkpoints.error);
    }
    var (es, t) := checkpoints.value;
    var described := CheckManifest(m, rs, es);
    if !described {
      return Failed(Range);
    }
    return Verified(
      Summary(m.systemId, |rs|, rs[0].body.seq_, rs[|rs| - 1].body.seq_, KeyIds(m.keys), |es|, t.proofs, t.roots,
              index.value, t.unlinked, Unanchored(rs, t), |b.openings|, |b.subjects|),
      rs, t.linked);
  }

  // ----- what acceptance means -----

  /** Every claim of the manifest is true of the receipts and checkpoints. */
  ghost predicate ManifestIsTrue(m: Manifest, rs: seq<Receipt>, es: seq<CheckpointEntry>) {
    && |rs| > 0
    && m.fromSeq == rs[0].body.seq_ && m.toSeq == rs[|rs| - 1].body.seq_
    && m.fromTs == rs[0].body.tsReceived && m.toTs == rs[|rs| - 1].body.tsReceived
    && m.countReceipts == |rs| && m.countCheckpoints == |es| && m.countTimestamps == |AllTimestamps(es)|
    && (exists i :: 0 <= i < |rs| && rs[i].body.v == m.receiptVersion)
    && (forall i :: 0 <= i < |rs| ==> rs[i].body.v <= m.receiptVersion)
  }

  lemma {:induction false} AcceptedManifestIsTrue(b: Bundle, trusted: Trusted)
    requires FirstFailure(b, trusted).None?
    ensures b.manifest.Parsed? && ManifestIsTrue(b.manifest.value, Values(b.receipts), Values(b.checkpoints))
  {
    hide FirstFailure, KeysOk, KeyMap, IndexFailure, DisclosedOk, EntryCheck, SignedCheck, SequenceOk, GenesisOk,
        LinksOk,
      HighestVersion, TotalTimestamps, AllTimestamps;
    VerifiesIffAcceptable(b, trusted);
    HighestIsTheMaximum(Values(b.receipts));
    TotalIsOfAll(Values(b.checkpoints));
  }

  /** The receipts are one window of one system's chain, each signed by a published
      key the verifier expects. */
  ghost predicate ReceiptsAccepted(m: Manifest, rs: seq<Receipt>, trusted: Trusted) {
    && |rs| > 0 && SystemOk(m, rs) && rs[0].body.seq_ == m.fromSeq
    && SequenceOk(rs) && GenesisOk(rs[0]) && LinksOk(rs)
    && forall i :: 0 <= i < |rs| ==> SignedCheck(rs[i], KeyMap(m.keys), trusted).None?
  }

  ghost predicate Acceptable(b: Bundle, trusted: Trusted) {
    && b.manifest.Parsed? && KeysOk(b.manifest.value.keys)
    && AllParsed(b.receipts)
    && ReceiptsAccepted(b.manifest.value, Values(b.receipts), trusted)
    && IndexFailure(Values(b.receipts), b.artifactsIndex).None?
    && DisclosedOk(Values(b.receipts), b)
    && AllParsed(b.checkpoints)
    && (forall i :: 0 <= i < |b.checkpoints| ==>
          EntryCheck(b.manifest.value, Values(b.receipts), KeyMap(b.manifest.value.keys), trusted,
              b.checkpoints[i].value).None?)
    && Describes(b.manifest.value, Values(b.receipts), Values(b.checkpoints))
  }

  /** An export verifies exactly when every rule holds of all of it. */
  lemma {:induction false} VerifiesIffAcceptable(b: Bundle, trusted: Trusted)
    ensures FirstFailure(b, trusted).None? <==> Acceptable(b, trusted)
  {
    hide KeysOk, IndexFailure, OpeningsOk, SubjectsOk, EntryCheck, Describes, SignedCheck, SystemOk, SequenceOk,
        GenesisOk, LinksOk, KeyMap,
      SignaturesFailure, LinesFailure;
    if b.manifest.Parsed? && AllParsed(b.receipts) {
      var m, rs := b.manifest.value, Values(b.receipts);
      AllSigned(rs, KeyMap(m.keys), trusted);
      AllLinesPass(m, rs, KeyMap(m.keys), trusted, b.checkpoints);
    }
  }
}
