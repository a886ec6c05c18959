/**
 * packages/verifier/src/verify.ts: the checks of an export, in the order the
 * format states them, stopping at the first that fails.
 */
module Verifier {
  import opened Prelude
  import opened Hex
  import opened Receipts

  // ----- what an export holds -----

  datatype ManifestKey = ManifestKey(keyId: KeyId, raw: PublicKey)

  datatype Manifest = Manifest(
    receiptVersion: nat, systemId: SystemId,
    fromSeq: nat, toSeq: nat, fromTs: int, toTs: int,
    countReceipts: nat, countCheckpoints: nat, countTimestamps: nat,
    keys: seq<ManifestKey>)

  datatype InclusionProofEntry = InclusionProofEntry(seq_: nat, receiptHash: Digest, path: seq<Digest>)

  datatype Timestamp = Timestamp(tsaUrl: string, obtainedAt: int, file: string)

  datatype CheckpointEntry = CheckpointEntry(checkpoint: Checkpoint, proofs: seq<InclusionProofEntry>,
      timestamps: seq<Timestamp>)

  datatype IndexEntry = IndexEntry(seq_: nat, artifact: Artifact)

  datatype OpeningEntry = OpeningEntry(seq_: nat, role: Role, nonce: Digest)

  datatype SubjectEntry = SubjectEntry(token: string, identifier: string)

  /** A line of a .jsonl file that is not blank: not JSON, not of the schema, or parsed. */
  datatype Line<T> = NotJson | NotOfSchema | Parsed(value: T)

  datatype Bundle = Bundle(
    manifest: Line<Manifest>,
    receipts: seq<Line<Receipt>>,
    checkpoints: seq<Line<CheckpointEntry>>,
    artifactsIndex: seq<Line<IndexEntry>>,
    openings: seq<Line<OpeningEntry>>,
    subjects: seq<Line<SubjectEntry>>)

  datatype Check =
    | ManifestCheck | ReceiptJson | ReceiptSchema | System | SequenceCheck | GenesisCheck | ChainLink | Key
    | SignatureCheck | Range | CheckpointJson | CheckpointSchema | CheckpointSignature | MerkleRootCheck
    | InclusionProofCheck | ArtifactsIndex | Openings | Subjects | PreviousExport

  type Trusted = Option<set<KeyId>>

  datatype Summary = Summary(
    systemId: SystemId, receipts: nat, firstSeq: nat, lastSeq: nat, keyIds: seq<KeyId>,
    checkpoints: nat, inclusionProofs: nat,
    rootsRecomputed: nat, artifactsIndexed: nat, unlinkedCheckpoints: nat, unanchoredReceipts: nat,
    openingsDisclosed: nat, subjectsDisclosed: nat)

  datatype LinkedCheckpoint = LinkedCheckpoint(line: nat, entry: CheckpointEntry)

  datatype Verification =
    | Verified(summary: Summary, receipts: seq<Receipt>, linked: seq<LinkedCheckpoint>)
    | Failed(check: Check)

  // ----- lines -----

  predicate AllParsed<T>(lines: seq<Line<T>>) { forall i :: 0 <= i < |lines| ==> lines[i].Parsed? }

  function Values<T>(lines: seq<Line<T>>): (vs: seq<T>)
    ensures AllParsed(lines) ==> |vs| == |lines| && forall i :: 0 <= i < |lines| ==> vs[i] == lines[i].value
  {
    if lines == [] then []
    else
      var rest := Values(lines[..|lines| - 1]);
      var last := lines[|lines| - 1];
      if last.Parsed? then rest + [last.value] else rest
  }

  /** The first line that does not parse, as the check it fails. */
  function ParseFailure<T>(lines: seq<Line<T>>, notJson: Check, notOfSchema: Check): (c: Option<Check>)
    ensures c.None? <==> AllParsed(lines)
  {
    if lines == [] then None
    else
      var before := ParseFailure(lines[..|lines| - 1], notJson, notOfSchema);
      var last := lines[|lines| - 1];
      if before.Some? then before
      else match last
        case NotJson => Some(notJson)
        case NotOfSchema => Some(notOfSchema)
        case Parsed(_) => None
  }

  method ParseLines<T>(lines: seq<Line<T>>, notJson: Check, notOfSchema: Check) returns (r: Result<seq<T>, Check>)
    ensures var failure := ParseFailure(lines, notJson, notOfSchema);
            r == if failure.Some? then Err(failure.value) else Ok(Values(lines))
  {
    hide ParseFailure, Values, ReadUpTo;
    var values := [];
    ReadNone(lines, notJson, notOfSchema);
    for i := 0 to |lines|
      invariant ReadUpTo(lines, i, values, notJson, notOfSchema)
    {
      if lines[i].Parsed? {
        ReadOneMore(lines, i, values, notJson, notOfSchema);
        values := values + [lines[i].value];
      } else {
        StopsHere(lines, i, values, notJson, notOfSchema);
        return Err(if lines[i].NotJson? then notJson else notOfSchema);
      }
    }
    ReadAll(lines, values, notJson, notOfSchema);
    return Ok(values);
  }

  lemma {:induction false} ReadNone<T>(lines: seq<Line<T>>, notJson: Check, notOfSchema: Check)
    ensures ReadUpTo(lines, 0, [], notJson, notOfSchema)
  {
  }

  lemma {:induction false} ReadAll<T>(lines: seq<Line<T>>, values: seq<T>, notJson: Check, notOfSchema: Check)
    requires ReadUpTo(lines, |lines|, values, notJson, notOfSchema)
    ensures ParseFailure(lines, notJson, notOfSchema) == None && values == Values(lines)
  {
    assert lines[..|lines|] == lines;
  }

  /** Every line before the i-th parses, and these are their values. */
  ghost predicate ReadUpTo<T>(lines: seq<Line<T>>, i: nat, values: seq<T>, notJson: Check, notOfSchema: Check) {
    i <= |lines| && ParseFailure(lines[..i], notJson, notOfSchema) == None && values == Values(lines[..i])
  }

  lemma {:induction false} ReadOneMore<T>(
      lines: seq<Line<T>>, i: nat, values: seq<T>, notJson: Check, notOfSchema: Check)
    requires i < |lines| && ReadUpTo(lines, i, values, notJson, notOfSchema) && lines[i].Parsed?
    ensures ReadUpTo(lines, i + 1, values + [lines[i].value], notJson, notOfSchema)
  {
    var more := lines[..i + 1];
    assert more[..i] == lines[..i];
    assert ParseFailure(more, notJson, notOfSchema) == None;
    assert Values(more) == Values(lines[..i]) + [lines[i].value];
  }

  lemma {:induction false} StopsHere<T>(lines: seq<Line<T>>, i: nat, values: seq<T>, notJson: Check, notOfSchema: Check)
    requires i < |lines| && ReadUpTo(lines, i, values, notJson, notOfSchema) && !lines[i].Parsed?
    ensures ParseFailure(lines, notJson, notOfSchema) == Some(if lines[i].NotJson? then notJson else notOfSchema)
  {
    var more := lines[..i + 1];
    assert more[..i] == lines[..i];
    assert ParseFailure(more, notJson, notOfSchema) == Some(if lines[i].NotJson? then notJson else notOfSchema);
    ParseFailureStays(lines, i + 1, notJson, notOfSchema);
  }

  lemma {:induction false} ParseFailureStays<T>(lines: seq<Line<T>>, n: nat, notJson: Check, notOfSchema: Check)
    requires n <= |lines| && ParseFailure(lines[..n], notJson, notOfSchema).Some?
    ensures ParseFailure(lines, notJson, notOfSchema) == ParseFailure(lines[..n], notJson, notOfSchema)
    decreases |lines|
  {
    if n < |lines| {
      assert lines[..|lines| - 1][..n] == lines[..n];
      ParseFailureStays(lines[..|lines| - 1], n, notJson, notOfSchema);
    } else {
      assert lines[..n] == lines;
    }
  }

  // ----- 1: the keys -----

  predicate KeyOk(k: ManifestKey) { |k.raw| == 32 && KeyIdOf(k.raw) == k.keyId }

  predicate KeysOk(keys: seq<ManifestKey>) { forall i :: 0 <= i < |keys| ==> KeyOk(keys[i]) }

  function KeyMap(keys: seq<ManifestKey>): map<KeyId, PublicKey> {
    if keys == [] then map[] else KeyMap(keys[..|keys| - 1])[keys[|keys| - 1].keyId := keys[|keys| - 1].raw]
  }

  method ReadKeys(keys: seq<ManifestKey>) returns (keysById: Option<map<KeyId, PublicKey>>)
    ensures keysById == if KeysOk(keys) then Some(KeyMap(keys)) else None
  {
    var m: map<KeyId, PublicKey> := map[];
    for i := 0 to |keys|
      invariant forall j :: 0 <= j < i ==> KeyOk(keys[j])
      invariant m == KeyMap(keys[..i])
    {
      if |keys[i].raw| != 32 {
        return None;
      }
      var derived := KeyIdOf(keys[i].raw);
      if derived != keys[i].keyId {
        return None;
      }
      assert keys[..i + 1][..i] == keys[..i];
      m := m[keys[i].keyId := keys[i].raw];
    }
    assert keys[..|keys|] == keys;
    return Some(m);
  }

  /** Every key the verifier tries is one the manifest publishes under its own identifier. */
  lemma {:induction false} KeyMapIsDerived(keys: seq<ManifestKey>, id: KeyId)
    requires KeysOk(keys) && id in KeyMap(keys)
    ensures |KeyMap(keys)[id]| == 32 && KeyIdOf(KeyMap(keys)[id]) == id
    decreases |keys|
  {
    var last := keys[|keys| - 1];
    assert KeyOk(last);
    if id != last.keyId {
      KeyMapIsDerived(keys[..|keys| - 1], id);
    }
  }

  /** [...keysById.keys()]: each identifier once, where it was first set. */
  function KeyIds(keys: seq<ManifestKey>): seq<KeyId> {
    if keys == [] then []
    else
      var before, last := KeyIds(keys[..|keys| - 1]), keys[|keys| - 1].keyId;
      if last in before then before else before + [last]
  }

  /** The summary names exactly the published keys, each once. */
  lemma {:induction false} KeyIdsAreThePublished(keys: seq<ManifestKey>)
    ensures forall id :: id in KeyIds(keys) <==> id in KeyMap(keys)
    ensures forall i, j :: 0 <= i < j < |KeyIds(keys)| ==> KeyIds(keys)[i] != KeyIds(keys)[j]
    decreases |keys|
  {
    if keys != [] {
      KeyIdsAreThePublished(keys[..|keys| - 1]);
    }
  }

  lemma {:induction false} KeyMapHasKeys(keys: seq<ManifestKey>, i: nat)
    requires i < |keys|
    ensures keys[i].keyId in KeyMap(keys)
    decreases |keys|
  {
    if i < |keys| - 1 {
      KeyMapHasKeys(keys[..|keys| - 1], i);
    }
  }

  // ----- 3 to 8: the receipts -----

  predicate SystemOk(m: Manifest, rs: seq<Receipt>) {
    forall i :: 0 <= i < |rs| ==> rs[i].body.systemId == m.systemId
  }

  predicate SequenceOk(rs: seq<Receipt>) {
    forall i :: 0 <= i < |rs| ==> rs[i].body.seq_ == rs[0].body.seq_ + i
  }

  predicate GenesisOk(first: Receipt) {
    first.body.seq_ == 0 ==>
      first.body.kind == Genesis && first.body.name == first.body.systemId && first.body.prevHash == GENESIS_PREV_HASH
  }

  predicate LinksOk(rs: seq<Receipt>) {
    forall i {:trigger rs[i].body.prevHash} :: 1 <= i < |rs| ==> rs[i].body.prevHash == ReceiptHash(rs[i - 1].body)
  }

  predicate IsTrusted(trusted: Trusted, keyId: KeyId) { trusted.Some? ==> keyId in trusted.value }

  function SignedCheck(r: Receipt, keys: map<KeyId, PublicKey>, trusted: Trusted): Option<Check> {
    if r.body.keyId !in keys then Some(Key)
    else if !IsTrusted(trusted, r.body.keyId) then Some(Key)
    else if !Verifies(keys[r.body.keyId], ReceiptHash(r.body), r.sig) then Some(SignatureCheck)
    else None
  }

  function SignaturesFailure(rs: seq<Receipt>, keys: map<KeyId, PublicKey>, trusted: Trusted): Option<Check> {
    if rs == [] then None
    else
      var before := SignaturesFailure(rs[..|rs| - 1], keys, trusted);
      if before.Some? then before else SignedCheck(rs[|rs| - 1], keys, trusted)
  }

  method CheckReceipts(m: Manifest, rs: seq<Receipt>, keys: map<KeyId, PublicKey>, trusted: Trusted)
    returns (failure: Option<Check>)
    requires |rs| > 0
    ensures failure == ReceiptsFailure(m, rs, keys, trusted)
  {
    for i := 0 to |rs|
      invariant forall j :: 0 <= j < i ==> rs[j].body.systemId == m.systemId
    {
      if rs[i].body.systemId != m.systemId {
        return Some(System);
      }
    }
    var first := rs[0];
    if first.body.seq_ != m.fromSeq {
      return Some(Range);
    }
    for i := 0 to |rs|
      invariant forall j :: 0 <= j < i ==> rs[j].body.seq_ == first.body.seq_ + j
    {
      if rs[i].body.seq_ != first.body.seq_ + i {
        return Some(SequenceCheck);
      }
    }
    if first.body.seq_ == 0 {
      if first.body.kind != Genesis || first.body.name != first.body.systemId
          || first.body.prevHash != GENESIS_PREV_HASH {
        return Some(GenesisCheck);
      }
    }
    for i := 1 to |rs|
      invariant forall j :: 1 <= j < i ==> rs[j].body.prevHash == ReceiptHash(rs[j - 1].body)
    {
      if rs[i].body.prevHash != ReceiptHash(rs[i - 1].body) {
        return Some(ChainLink);
      }
    }
    failure := CheckSignatures(rs, keys, trusted);
  }

  method CheckSignatures(rs: seq<Receipt>, keys: map<KeyId, PublicKey>, trusted: Trusted)
      returns (failure: Option<Check>)
    ensures failure == SignaturesFailure(rs, keys, trusted)
  {
    for i := 0 to |rs|
      invariant SignaturesFailure(rs[..i], keys, trusted) == None
    {
      assert rs[..i + 1][..i] == rs[..i];
      failure := SignedCheck(rs[i], keys, trusted);
      if failure.Some? {
        SignaturesFailureStays(rs, i + 1, keys, trusted);
        return;
      }
    }
    assert rs[..|rs|] == rs;
    return None;
  }

  lemma {:induction false} SignaturesFailureStays(
      rs: seq<Receipt>, n: nat, keys: map<KeyId, PublicKey>, trusted: Trusted)
    requires n <= |rs| && SignaturesFailure(rs[..n], keys, trusted).Some?
    ensures SignaturesFailure(rs, keys, trusted) == SignaturesFailure(rs[..n], keys, trusted)
    decreases |rs|
  {
    if n < |rs| {
      assert rs[..|rs| - 1][..n] == rs[..n];
      SignaturesFailureStays(rs[..|rs| - 1], n, keys, trusted);
    } else {
      assert rs[..n] == rs;
    }
  }

  lemma {:induction false} AllSigned(rs: seq<Receipt>, keys: map<KeyId, PublicKey>, trusted: Trusted)
    ensures SignaturesFailure(rs, keys, trusted).None? <==>
              forall i :: 0 <= i < |rs| ==> SignedCheck(rs[i], keys, trusted).None?
    decreases |rs|
  {
    if rs != [] {
      AllSigned(rs[..|rs| - 1], keys, trusted);
      assert forall i :: 0 <= i < |rs| - 1 ==> rs[..|rs| - 1][i] == rs[i];
    }
  }

  function ReceiptsFailure(m: Manifest, rs: seq<Receipt>, keys: map<KeyId, PublicKey>, trusted: Trusted): Option<Check>
    requires |rs| > 0
  {
    if !SystemOk(m, rs) then Some(System)
    else if rs[0].body.seq_ != m.fromSeq then Some(Range)
    else if !SequenceOk(rs) then Some(SequenceCheck)
    else if !GenesisOk(rs[0]) then Some(GenesisCheck)
    else if !LinksOk(rs) then Some(ChainLink)
    else SignaturesFailure(rs, keys, trusted)
  }

  /** The first receipt with a sequence number: receipts.find. */
  function Find(rs: seq<Receipt>, s: nat): Option<Receipt> {
    if rs == [] then None else if rs[0].body.seq_ == s then Some(rs[0]) else Find(rs[1..], s)
  }

  lemma {:induction false} FindInSequence(rs: seq<Receipt>, s: nat)
    requires SequenceOk(rs) && |rs| > 0
    ensures var from := rs[0].body.seq_;
            Find(rs, s) == if from <= s < from + |rs| then Some(rs[s - from]) else None
    decreases |rs|
  {
    if rs[0].body.seq_ != s && |rs| > 1 {
      assert forall i :: 0 <= i < |rs[1..]| ==> rs[1..][i] == rs[i + 1];
      FindInSequence(rs[1..], s);
    }
  }

  // ----- 9: what is disclosed beside the receipts -----

  /** String(seq), and [...keys].sort(). */
  const DECIMAL: nat -> string
  const SORTED: seq<string> -> seq<string>

  function Decimal(n: nat): string { DECIMAL(n) }

  function Sorted(keys: seq<string>): seq<string> { SORTED(keys) }

  function RoleName(role: Role): string { if role == Input then "input" else "output" }

  /** Array.join */
  function Join(parts: seq<string>, separator: char): string {
    if parts == [] then "" else if |parts| == 1 then parts[0]
    else parts[0] + [separator] + Join(parts[1..], separator)
  }

  function ArtifactKey(s: nat, artifact: Artifact): string {
    Join([Decimal(s), RoleName(artifact.role), artifact.lbl, ToHex(artifact.sha256),
          if artifact.text.Some? then artifact.text.value.0 else "",
          if artifact.text.Some? then ToHex(artifact.text.value.1) else ""], '\0')
  }

  function SortJoin(keys: seq<string>): string { Join(Sorted(keys), '\n') }

  function ArtifactKeys(s: nat, artifacts: seq<Artifact>): seq<string> {
    if artifacts == [] then []
    else ArtifactKeys(s, artifacts[..|artifacts| - 1]) + [ArtifactKey(s, artifacts[|artifacts| - 1])]
  }

  function DeclaredArtifacts(rs: seq<Receipt>): seq<string> {
    if rs == [] then []
    else
      var last := rs[|rs| - 1].body;
      DeclaredArtifacts(rs[..|rs| - 1]) + (if last.v == 1 then [] else ArtifactKeys(last.seq_, last.artifacts))
  }

  function IndexedArtifacts(index: seq<IndexEntry>): seq<string> {
    if index == [] then []
    else IndexedArtifacts(index[..|index| - 1]) + [ArtifactKey(index[|index| - 1].seq_, index[|index| - 1].artifact)]
  }

  function IndexFailure(rs: seq<Receipt>, lines: seq<Line<IndexEntry>>): Option<Check> {
    var parse := ParseFailure(lines, ArtifactsIndex, ArtifactsIndex);
    if parse.Some? then parse
    else if SortJoin(DeclaredArtifacts(rs)) != SortJoin(IndexedArtifacts(Values(lines))) then Some(ArtifactsIndex)
    else None
  }

  method CheckIndex(rs: seq<Receipt>, lines: seq<Line<IndexEntry>>) returns (r: Result<nat, Check>)
    ensures r == if IndexFailure(rs, lines).Some? then Err(IndexFailure(rs, lines).value) else Ok(|lines|)
  {
    hide ArtifactKey, SortJoin, ParseFailure, Values;
    var declared := [];
    for i := 0 to |rs|
      invariant declared == DeclaredArtifacts(rs[..i])
    {
      assert rs[..i + 1][..i] == rs[..i];
      var b := rs[i].body;
      if b.v != 1 {
        for j := 0 to |b.artifacts|
          invariant declared == DeclaredArtifacts(rs[..i]) + ArtifactKeys(b.seq_, b.artifacts[..j])
        {
          assert b.artifacts[..j + 1][..j] == b.artifacts[..j];
          declared := declared + [ArtifactKey(b.seq_, b.artifacts[j])];
        }
        assert b.artifacts[..|b.artifacts|] == b.artifacts;
      }
    }
    assert rs[..|rs|] == rs;
    var parsed := ParseLines(lines, ArtifactsIndex, ArtifactsIndex);
    if parsed.Err? {
      return Err(parsed.error);
    }
    var indexed := [];
    for i := 0 to |parsed.value|
      invariant indexed == IndexedArtifacts(parsed.value[..i])
    {
      assert parsed.value[..i + 1][..i] == parsed.value[..i];
      indexed := indexed + [ArtifactKey(parsed.value[i].seq_, parsed.value[i].artifact)];
    }
    assert parsed.value[..|parsed.value|] == parsed.value;
    if SortJoin(declared) != SortJoin(indexed) {
      return Err(ArtifactsIndex);
    }
    return Ok(|parsed.value|);
  }

  predicate IsSalted(r: Receipt, role: Role) {
    r.body.v == 4 && (if role == Input then r.body.inputSalted else r.body.outputSalted)
  }

  /** A disclosed nonce belongs to a salted digest this export holds. */
  predicate OpeningOk(rs: seq<Receipt>, e: OpeningEntry) {
    Find(rs, e.seq_).Some? && IsSalted(Find(rs, e.seq_).value, e.role)
  }

  predicate OpeningsOk(rs: seq<Receipt>, es: seq<OpeningEntry>) {
    && (forall i :: 0 <= i < |es| ==> OpeningOk(rs, es[i]))
    && (forall i, j :: 0 <= i < j < |es| ==> (es[i].seq_, es[i].role) != (es[j].seq_, es[j].role))
  }

  predicate TokenUsed(rs: seq<Receipt>, token: string) {
    exists i :: 0 <= i < |rs| && rs[i].body.onBehalfOf == Some(token)
  }

  predicate SubjectsOk(rs: seq<Receipt>, es: seq<SubjectEntry>) {
    && (forall i :: 0 <= i < |es| ==> TokenUsed(rs, es[i].token))
    && (forall i, j :: 0 <= i < j < |es| ==> es[i].token != es[j].token)
  }

  predicate DisclosedOk(rs: seq<Receipt>, b: Bundle) {
    && AllParsed(b.openings) && OpeningsOk(rs, Values(b.openings))
    && AllParsed(b.subjects) && SubjectsOk(rs, Values(b.subjects))
  }

  /** A receipt whose digest of that role is salted: of the fourth version, with that salt declared. */
  ghost predicate HasSalted(r: Receipt, e: OpeningEntry) {
    && r.body.seq_ == e.seq_ && r.body.v == 4
    && (e.role.Input? ==> r.body.inputSalted) && (e.role.Output? ==> r.body.outputSalted)
  }

  /** In a checked sequence, the openings pass exactly when each is of a salted digest of
      some receipt there, and no digest has two. */
  lemma {:induction false} OpeningsOkIff(rs: seq<Receipt>, es: seq<OpeningEntry>)
    requires SequenceOk(rs) && |rs| > 0
    ensures OpeningsOk(rs, es) <==>
            && (forall e :: e in es ==> exists i :: 0 <= i < |rs| && HasSalted(rs[i], e))
            && (forall i, j :: 0 <= i < j < |es| ==> es[i].seq_ != es[j].seq_ || es[i].role != es[j].role)
  {
    hide Find;
    forall e | e in es
      ensures OpeningOk(rs, e) <==> exists i :: 0 <= i < |rs| && HasSalted(rs[i], e)
    {
      FindInSequence(rs, e.seq_);
      if i :| 0 <= i < |rs| && HasSalted(rs[i], e) {
        assert rs[i].body.seq_ == rs[0].body.seq_ + i;
      }
    }
    assert forall i :: 0 <= i < |es| ==> es[i] in es;
  }

  method CheckOpenings(rs: seq<Receipt>, lines: seq<Line<OpeningEntry>>) returns (ok: bool)
    ensures ok <==> AllParsed(lines) && OpeningsOk(rs, Values(lines))
  {
    var keys: set<(nat, Role)> := {};
    var es := Values(lines);
    for i := 0 to |lines|
      invariant AllParsed(lines[..i])
      invariant AllParsed(lines) ==> (forall j :: 0 <= j < i ==> OpeningOk(rs, es[j]))
      invariant AllParsed(lines) ==>
                (forall j, k :: 0 <= j < k < i ==> (es[j].seq_, es[j].role) != (es[k].seq_, es[k].role))
      invariant AllParsed(lines) ==>
                (forall p :: p in keys <==> exists j :: 0 <= j < i && p == (es[j].seq_, es[j].role))
    {
      if !lines[i].Parsed? {
        return false;
      }
      var e := lines[i].value;
      var receipt := Find(rs, e.seq_);
      if receipt.None? || !IsSalted(receipt.value, e.role) {
        assert AllParsed(lines) ==> !OpeningOk(rs, es[i]);
        return false;
      }
      if (e.seq_, e.role) in keys {
        return false;
      }
      keys := keys + {(e.seq_, e.role)};
    }
    return true;
  }

  /** What the loop over the subjects has seen of them. */
  ghost predicate SubjectsSeen(rs: seq<Receipt>, lines: seq<Line<SubjectEntry>>, i: nat, tokens: set<string>)
    requires i <= |lines|
  {
    && AllParsed(lines[..i])
    && (forall j :: 0 <= j < i ==> TokenUsed(rs, lines[j].value.token))
    && (forall j, k :: 0 <= j < k < i ==> lines[j].value.token != lines[k].value.token)
    && (forall t :: t in tokens <==> exists j :: 0 <= j < i && t == lines[j].value.token)
  }

  lemma {:induction false} OneMoreSubject(
      rs: seq<Receipt>, lines: seq<Line<SubjectEntry>>, i: nat, tokens: set<string>)
    requires i < |lines| && SubjectsSeen(rs, lines, i, tokens) && lines[i].Parsed?
    requires TokenUsed(rs, lines[i].value.token) && lines[i].value.token !in tokens
    ensures SubjectsSeen(rs, lines, i + 1, tokens + {lines[i].value.token})
  {
    hide TokenUsed;
    TakeStep(lines, i);
  }

  lemma {:induction false} SubjectRefused(
      rs: seq<Receipt>, lines: seq<Line<SubjectEntry>>, i: nat, tokens: set<string>)
    requires i < |lines| && SubjectsSeen(rs, lines, i, tokens)
    requires lines[i].Parsed? ==> !TokenUsed(rs, lines[i].value.token) || lines[i].value.token in tokens
    ensures !(AllParsed(lines) && SubjectsOk(rs, Values(lines)))
  {
    hide TokenUsed;
    if AllParsed(lines) {
      var es := Values(lines);
      assert es[i] == lines[i].value;
      if lines[i].value.token in tokens {
        var j :| 0 <= j < i && lines[i].value.token == lines[j].value.token;
        assert es[j].token == es[i].token;
      }
    }
  }

  lemma {:induction false} AllSubjectsSeen(rs: seq<Receipt>, lines: seq<Line<SubjectEntry>>, tokens: set<string>)
    requires SubjectsSeen(rs, lines, |lines|, tokens)
    ensures AllParsed(lines) && SubjectsOk(rs, Values(lines))
  {
    hide TokenUsed;
    assert lines[..|lines|] == lines;
  }

  method TokensUsed(rs: seq<Receipt>) returns (used: set<string>)
    ensures forall t :: t in used <==> TokenUsed(rs, t)
  {
    used := {};
    for i := 0 to |rs|
      invariant forall t :: t in used <==> exists j :: 0 <= j < i && rs[j].body.onBehalfOf == Some(t)
    {
      if rs[i].body.onBehalfOf.Some? {
        used := used + {rs[i].body.onBehalfOf.value};
      }
    }
  }

  method CheckSubjects(rs: seq<Receipt>, lines: seq<Line<SubjectEntry>>) returns (ok: bool)
    ensures ok <==> AllParsed(lines) && SubjectsOk(rs, Values(lines))
  {
    hide TokenUsed, SubjectsOk, Values;
    var used := TokensUsed(rs);
    var tokens: set<string> := {};
    for i := 0 to |lines|
      invariant SubjectsSeen(rs, lines, i, tokens)
    {
      hide SubjectsSeen;
      if !lines[i].Parsed? || lines[i].value.token !in used || lines[i].value.token in tokens {
        SubjectRefused(rs, lines, i, tokens);
        return false;
      }
      OneMoreSubject(rs, lines, i, tokens);
      tokens := tokens + {lines[i].value.token};
    }
    AllSubjectsSeen(rs, lines, tokens);
    return true;
  }
}
