/**
 * packages/verifier/src/verify.ts, compareWithPrevious and compareAnchorsWithPrevious:
 * an export against one of the same system received earlier.
 */
module PreviousExport {
  import opened Prelude
  import opened Receipts
  import opened Verifier

  // ----- what a hash link carries backwards -----

  /** One system's receipts, consecutive and linked: what steps 3, 4 and 6 check. */
  ghost predicate Segment(id: SystemId, rs: seq<Receipt>) {
    && |rs| > 0
    && (forall i :: 0 <= i < |rs| ==> rs[i].body.systemId == id)
    && SequenceOk(rs) && LinksOk(rs)
  }

  function First(rs: seq<Receipt>): nat requires |rs| > 0 { rs[0].body.seq_ }

  function Last(rs: seq<Receipt>): nat requires |rs| > 0 { rs[|rs| - 1].body.seq_ }

  predicate Has(rs: seq<Receipt>, s: int) { |rs| > 0 && First(rs) <= s < First(rs) + |rs| }

  function At(rs: seq<Receipt>, s: nat): Receipt requires Has(rs, s) { rs[s - First(rs)] }

  /** Two receipts with one hash are one in every signed field, or are a collision. */
  lemma {:induction false} SameHashSameBody(a: Body, b: Body) returns (c: Collision)
    requires CanonicalForms() && ReceiptHash(a) == ReceiptHash(b)
    ensures c.IsReal() || a == b
  {
    c := Collision(CanonicalReceipt(a), CanonicalReceipt(b));
  }

  /** Agreement on the hash of one receipt is agreement on every earlier receipt
      the two hold, or a collision is at hand. */
  lemma {:induction false} AgreeBackwards(
      id: SystemId, xs: seq<Receipt>, ys: seq<Receipt>, s: nat, t: nat) returns (c: Collision)
    requires CanonicalForms() && Segment(id, xs) && Segment(id, ys)
    requires Has(xs, s) && Has(ys, s) && Has(xs, t) && Has(ys, t) && t <= s
    requires ReceiptHash(At(xs, s).body) == ReceiptHash(At(ys, s).body)
    ensures c.IsReal() || At(xs, t).body == At(ys, t).body
    decreases s - t
  {
    hide CanonicalForms, Segment, ReceiptHash;
    c := SameHashSameBody(At(xs, s).body, At(ys, s).body);
    if !c.IsReal() && t < s {
      LinkAt(id, xs, s - First(xs));
      LinkAt(id, ys, s - First(ys));
      c := AgreeBackwards(id, xs, ys, s - 1, t);
    }
  }

  lemma {:induction false} LinkAt(id: SystemId, rs: seq<Receipt>, k: nat)
    requires Segment(id, rs) && 1 <= k < |rs|
    ensures rs[k].body.prevHash == ReceiptHash(rs[k - 1].body)
  {
    assert rs[k].body.prevHash == ReceiptHash(rs[k - 1].body);
  }

  // ----- compareWithPrevious -----

  datatype Difference = NoReceipts | OtherSystem | Rewritten(line: nat) | EndsEarlier | Apart | NotLinked

  /** new Map(previous.map(...)): of receipts with one sequence number, the last. */
  function HashesBySeq(rs: seq<Receipt>): map<nat, Digest> {
    if rs == [] then map[]
    else HashesBySeq(rs[..|rs| - 1])[rs[|rs| - 1].body.seq_ := ReceiptHash(rs[|rs| - 1].body)]
  }

  lemma {:induction false} HashesOfSequence(rs: seq<Receipt>)
    requires SequenceOk(rs)
    ensures forall s: nat :: s in HashesBySeq(rs) <==> Has(rs, s)
    ensures forall s: nat :: Has(rs, s) ==> HashesBySeq(rs)[s] == ReceiptHash(At(rs, s).body)
    decreases |rs|
  {
    if rs != [] {
      var front := rs[..|rs| - 1];
      HashesOfSequence(front);
      assert forall s: nat :: Has(front, s) ==> At(front, s) == At(rs, s);
      assert rs[|rs| - 1].body.seq_ == First(rs) + |rs| - 1;
      assert forall s: nat :: Has(rs, s) <==> Has(front, s) || s == rs[|rs| - 1].body.seq_;
    }
  }

  predicate IsRewritten(r: Receipt, before: map<nat, Digest>) {
    r.body.seq_ in before && before[r.body.seq_] != ReceiptHash(r.body)
  }

  ghost predicate FirstRewritten(current: seq<Receipt>, before: map<nat, Digest>, line: nat) {
    && 1 <= line <= |current| && IsRewritten(current[line - 1], before)
    && forall j :: 0 <= j < line - 1 ==> !IsRewritten(current[j], before)
  }

  /** The first difference found, in the order they are looked for. */
  ghost predicate IsComparison(current: seq<Receipt>, previous: seq<Receipt>, d: Option<Difference>) {
    if |current| == 0 || |previous| == 0 then d == Some(NoReceipts)
    else
      var before := HashesBySeq(previous);
      var firstNow, lastNow, lastBefore := current[0].body, current[|current| - 1].body, previous[|previous| - 1].body;
      if firstNow.systemId != lastBefore.systemId then d == Some(OtherSystem)
      else if exists i :: 0 <= i < |current| && IsRewritten(current[i], before) then
        d.Some? && d.value.Rewritten? && FirstRewritten(current, before, d.value.line)
      else if lastNow.seq_ < lastBefore.seq_ then d == Some(EndsEarlier)
      else if firstNow.seq_ > lastBefore.seq_ + 1 then d == Some(Apart)
      else if firstNow.seq_ == lastBefore.seq_ + 1
              && (lastBefore.seq_ !in before || firstNow.prevHash != before[lastBefore.seq_]) then d == Some(NotLinked)
      else d == None
  }

  method CompareWithPrevious(current: seq<Receipt>, previous: seq<Receipt>) returns (d: Option<Difference>)
    ensures IsComparison(current, previous, d)
  {
    if |current| == 0 || |previous| == 0 {
      return Some(NoReceipts);
    }
    var firstNow, lastNow, lastBefore := current[0].body, current[|current| - 1].body, previous[|previous| - 1].body;
    if firstNow.systemId != lastBefore.systemId {
      return Some(OtherSystem);
    }
    var before: map<nat, Digest> := map[];
    for i := 0 to |previous|
      invariant before == HashesBySeq(previous[..i])
    {
      assert previous[..i + 1][..i] == previous[..i];
      before := before[previous[i].body.seq_ := ReceiptHash(previous[i].body)];
    }
    assert previous[..|previous|] == previous;
    for i := 0 to |current|
      invariant forall j :: 0 <= j < i ==> !IsRewritten(current[j], before)
    {
      var s := current[i].body.seq_;
      if s in before && before[s] != ReceiptHash(current[i].body) {
        assert IsRewritten(current[i], before);
        return Some(Rewritten(i + 1));
      }
    }
    if lastNow.seq_ < lastBefore.seq_ {
      return Some(EndsEarlier);
    }
    if firstNow.seq_ > lastBefore.seq_ + 1 {
      return Some(Apart);
    }
    if firstNow.seq_ == lastBefore.seq_ + 1
        && (lastBefore.seq_ !in before || firstNow.prevHash != before[lastBefore.seq_]) {
      return Some(NotLinked);
    }
    return None;
  }

  // ----- what no difference means -----

  /** No receipt both hold has another hash in one than in the other. */
  ghost predicate Agree(xs: seq<Receipt>, ys: seq<Receipt>) {
    forall s: nat :: Has(xs, s) && Has(ys, s) ==> ReceiptHash(At(xs, s).body) == ReceiptHash(At(ys, s).body)
  }

  /** Of two exports that each verify: they agree on every receipt they share, the
      new one reaches as far as the old, and it overlaps or links to its end. */
  ghost predicate Continues(current: seq<Receipt>, previous: seq<Receipt>)
    requires |current| > 0 && |previous| > 0
  {
    && current[0].body.systemId == previous[0].body.systemId
    && Agree(current, previous)
    && Last(current) >= Last(previous)
    && First(current) <= Last(previous) + 1
    && (First(current) == Last(previous) + 1 ==> current[0].body.prevHash == ReceiptHash(previous[|previous| - 1].body))
  }

  lemma {:induction false} AcceptsExactlyContinuations(
      a: SystemId, b: SystemId, current: seq<Receipt>, previous: seq<Receipt>, d: Option<Difference>)
    requires Segment(a, current) && Segment(b, previous)
    requires IsComparison(current, previous, d)
    ensures d.None? <==> Continues(current, previous)
  {
    hide ReceiptHash, HashesBySeq, LinksOk;
    HashesOfSequence(previous);
    var before := HashesBySeq(previous);
    assert Last(previous) == First(previous) + |previous| - 1;
    assert At(previous, Last(previous)) == previous[|previous| - 1];
    AgreesIffNotRewritten(current, previous);
  }

  lemma {:induction false} AgreesIffNotRewritten(current: seq<Receipt>, previous: seq<Receipt>)
    requires SequenceOk(current) && SequenceOk(previous)
    ensures (forall i :: 0 <= i < |current| ==> !IsRewritten(current[i], HashesBySeq(previous)))
            <==> Agree(current, previous)
  {
    hide ReceiptHash, HashesBySeq;
    HashesOfSequence(previous);
    var before := HashesBySeq(previous);
    if forall i :: 0 <= i < |current| ==> !IsRewritten(current[i], before) {
      forall s: nat | Has(current, s) && Has(previous, s)
        ensures ReceiptHash(At(current, s).body) == ReceiptHash(At(previous, s).body)
      {
        assert !IsRewritten(current[s - First(current)], before);
      }
    } else {
      var i :| 0 <= i < |current| && IsRewritten(current[i], before);
      var s := current[i].body.seq_;
      assert Has(current, s) && At(current, s) == current[i];
    }
  }

  /** Which difference is reported, of two exports that each verify: another system's before a
      receipt rewritten, the first there is; that before the end, and the end before the join. */
  lemma {:induction false} DifferenceMeans(
      a: SystemId, b: SystemId, current: seq<Receipt>, previous: seq<Receipt>, d: Option<Difference>)
    requires Segment(a, current) && Segment(b, previous)
    requires IsComparison(current, previous, d)
    ensures d != Some(NoReceipts)
    ensures d == Some(OtherSystem) <==> a != b
    ensures d.Some? && d.value.Rewritten? <==> a == b && !Agree(current, previous)
    ensures d.Some? && d.value.Rewritten? ==> FirstDisagreement(current, previous, d.value.line)
    ensures d == Some(EndsEarlier) <==> a == b && Agree(current, previous) && Last(current) < Last(previous)
    ensures d == Some(Apart) <==>
            && a == b && Agree(current, previous) && Last(current) >= Last(previous)
            && First(current) > Last(previous) + 1
    ensures d == Some(NotLinked) <==>
            && a == b && Agree(current, previous) && First(current) == Last(previous) + 1
            && current[0].body.prevHash != ReceiptHash(previous[|previous| - 1].body)
  {
    hide ReceiptHash, HashesBySeq, LinksOk, Agree;
    HashesOfSequence(previous);
    assert Last(previous) == First(previous) + |previous| - 1;
    assert At(previous, Last(previous)) == previous[|previous| - 1];
    assert Last(current) >= First(current);
    AgreesIffNotRewritten(current, previous);
    if d.Some? && d.value.Rewritten? {
      RewrittenIsDisagreement(current, previous, d.value.line);
    }
  }

  /** The new export's line is the first whose receipt the old one holds with another hash. */
  ghost predicate FirstDisagreement(current: seq<Receipt>, previous: seq<Receipt>, line: nat) {
    && 1 <= line <= |current| && !AgreeAt(current[line - 1], previous)
    && forall i :: 0 <= i < line - 1 ==> AgreeAt(current[i], previous)
  }

  predicate AgreeAt(r: Receipt, previous: seq<Receipt>) {
    Has(previous, r.body.seq_) ==> ReceiptHash(At(previous, r.body.seq_).body) == ReceiptHash(r.body)
  }

  lemma {:induction false} RewrittenIsDisagreement(current: seq<Receipt>, previous: seq<Receipt>, line: nat)
    requires SequenceOk(previous) && FirstRewritten(current, HashesBySeq(previous), line)
    ensures FirstDisagreement(current, previous, line)
  {
    hide ReceiptHash, HashesBySeq;
    HashesOfSequence(previous);
    assert forall i :: 0 <= i < |current| ==>
        (IsRewritten(current[i], HashesBySeq(previous)) <==> !AgreeAt(current[i], previous));
  }

  /** All that the two exports show: what only the old one holds, then the new one. */
  function Union(current: seq<Receipt>, previous: seq<Receipt>): seq<Receipt>
    requires |current| > 0 && |previous| > 0 && First(current) <= First(previous) + |previous|
  {
    if First(previous) < First(current) then previous[..First(current) - First(previous)] + current else current
  }

  /** The two exports are one chain of the system, without a gap, from the first
      receipt either holds to the last the new one holds, at or past the last of the
      old; and it holds every receipt of both. */
  ghost predicate IsOneChainOf(id: SystemId, current: seq<Receipt>, previous: seq<Receipt>)
    requires |current| > 0 && |previous| > 0
  {
    && First(current) <= First(previous) + |previous|
    && var u := Union(current, previous);
       && Segment(id, u)
       && First(u) == Min(First(current), First(previous)) && Last(u) == Last(current) >= Last(previous)
       && (forall s: nat :: Has(current, s) ==> Has(u, s) && At(u, s) == At(current, s))
       && (forall s: nat :: Has(previous, s) ==> Has(u, s) && At(u, s).body == At(previous, s).body)
  }

  /**
   * The check is sound: when it finds no difference between two exports that each
   * verify, they are one hash-linked chain without a gap, from the first receipt
   * either holds to at least the last the old one held, and every receipt of both
   * is in it as it was; or a collision is at hand.
   */
  lemma {:induction false} ContinuationIsOneChain(
      id: SystemId, current: seq<Receipt>, previous: seq<Receipt>) returns (c: Collision)
    requires CanonicalForms() && Segment(id, current) && Segment(id, previous) && Continues(current, previous)
    ensures c.IsReal() || IsOneChainOf(id, current, previous)
  {
    hide CanonicalForms, ReceiptHash, LinksOk;
    c := AgreeOnBodies(current, previous);
    if !c.IsReal() {
      UnionIsSegment(id, current, previous);
    }
  }

  lemma {:induction false} AgreeOnBodies(current: seq<Receipt>, previous: seq<Receipt>) returns (c: Collision)
    requires CanonicalForms() && |current| > 0 && |previous| > 0 && Agree(current, previous)
    ensures c.IsReal() ||
            forall s: nat :: Has(current, s) && Has(previous, s) ==> At(current, s).body == At(previous, s).body
  {
    hide CanonicalForms;
    c := Collision([], []);
    var s := First(current);
    while s < First(current) + |current|
      invariant First(current) <= s <= First(current) + |current|
      invariant c.IsReal() ||
                forall t: nat :: Has(current, t) && t < s && Has(previous, t) ==>
                    At(current, t).body == At(previous, t).body
    {
      if !c.IsReal() && Has(previous, s) {
        c := SameHashSameBody(At(current, s).body, At(previous, s).body);
      }
      s := s + 1;
    }
  }

  lemma {:induction false} UnionIsSegment(id: SystemId, current: seq<Receipt>, previous: seq<Receipt>)
    requires Segment(id, current) && Segment(id, previous) && Continues(current, previous)
    requires Has(previous, First(current)) ==> At(previous, First(current)).body == current[0].body
    ensures var u := Union(current, previous); Segment(id, u) && First(u) == Min(First(current), First(previous))
  {
    hide LinksOk, ReceiptHash, Agree, SequenceOk;
    UnionIsLinked(id, current, previous);
    UnionInSequence(id, current, previous);
  }

  lemma {:induction false} UnionInSequence(id: SystemId, current: seq<Receipt>, previous: seq<Receipt>)
    requires Segment(id, current) && Segment(id, previous) && Continues(current, previous)
    ensures var u := Union(current, previous);
            && |u| > 0 && SequenceOk(u) && First(u) == Min(First(current), First(previous))
            && forall i :: 0 <= i < |u| ==> u[i].body.systemId == id
  {
    hide LinksOk, ReceiptHash, Agree;
    LastOfSegment(id, previous);
    var u := Union(current, previous);
    var n := First(current) - First(previous);
    forall i | 0 <= i < |u|
      ensures u[i].body.systemId == id && u[i].body.seq_ == u[0].body.seq_ + i
    {
      assert u[i] == if i < n then previous[i] else current[i - Max(0, n)];
    }
  }

  lemma {:induction false} UnionIsLinked(id: SystemId, current: seq<Receipt>, previous: seq<Receipt>)
    requires Segment(id, current) && Segment(id, previous) && Continues(current, previous)
    requires Has(previous, First(current)) ==> At(previous, First(current)).body == current[0].body
    ensures LinksOk(Union(current, previous))
  {
    hide Segment, ReceiptHash, Agree;
    LastOfSegment(id, previous);
    LastOfSegment(id, current);
    var u := Union(current, previous);
    var n := First(current) - First(previous);
    forall i | 1 <= i < |u|
      ensures u[i].body.prevHash == ReceiptHash(u[i - 1].body)
    {
      if i < n || (i == n && n < |previous|) {
        LinkAt(id, previous, i);
      } else if i > n {
        LinkAt(id, current, i - Max(0, n));
      }
    }
  }

  lemma {:induction false} LastOfSegment(id: SystemId, rs: seq<Receipt>)
    requires Segment(id, rs)
    ensures |rs| > 0 && Last(rs) == First(rs) + |rs| - 1
  {
  }

  /** And it asks no more: two windows of one chain pass whenever the new one
      reaches as far and does not start past the end of the old. */
  lemma {:induction false} WindowsOfOneChainPass(
      id: SystemId, chain: seq<Receipt>, i: nat, j: nat, k: nat, l: nat, d: Option<Difference>)
    requires IsChain(id, chain) && i < j <= |chain| && k < l <= |chain|
    requires l <= j && i <= l
    requires IsComparison(chain[i..j], chain[k..l], d)
    ensures d.None?
  {
    hide IsComparison, Continues, Segment;
    WindowIsSegment(id, chain, i, j);
    WindowIsSegment(id, chain, k, l);
    WindowsContinue(id, chain, i, j, k, l);
    AcceptsExactlyContinuations(id, id, chain[i..j], chain[k..l], d);
  }

  lemma {:induction false} WindowsContinue(id: SystemId, chain: seq<Receipt>, i: nat, j: nat, k: nat, l: nat)
    requires IsChain(id, chain) && i < j <= |chain| && k < l <= |chain|
    requires l <= j && i <= l
    ensures Continues(chain[i..j], chain[k..l])
  {
    hide ReceiptHash, IsChain, Has, At, First, Last;
    WindowHolds(id, chain, i, j);
    WindowHolds(id, chain, k, l);
    if i == l {
      LinkedTo(id, chain, i);
    }
  }

  lemma {:induction false} LinkedTo(id: SystemId, chain: seq<Receipt>, i: nat)
    requires IsChain(id, chain) && 0 < i < |chain|
    ensures chain[i].body.prevHash == ReceiptHash(chain[i - 1].body)
  {
    assert chain[i].body.prevHash == ExpectedPrev(chain, i);
  }

  /** A window of a chain holds the receipts it is named by. */
  lemma {:induction false} WindowHolds(id: SystemId, chain: seq<Receipt>, i: nat, j: nat)
    requires IsChain(id, chain) && i < j <= |chain|
    ensures var w := chain[i..j];
            && w[0].body.systemId == id && First(w) == i && Last(w) == j - 1
            && (forall s: nat :: Has(w, s) <==> i <= s < j)
            && (forall s: nat :: Has(w, s) ==> At(w, s) == chain[s])
  {
  }

  lemma {:induction false} WindowIsSegment(id: SystemId, chain: seq<Receipt>, i: nat, j: nat)
    requires IsChain(id, chain) && i < j <= |chain|
    ensures Segment(id, chain[i..j])
  {
    var w := chain[i..j];
    forall k | 1 <= k < |w|
      ensures w[k].body.prevHash == ReceiptHash(w[k - 1].body)
    {
      assert chain[i + k].body.prevHash == ExpectedPrev(chain, i + k);
    }
  }

  // ----- compareAnchorsWithPrevious -----

  datatype AnchorSet = AnchorSet(checkpoints: seq<CheckpointEntry>, tokens: map<string, Bytes>)

  function FindSize(es: seq<CheckpointEntry>, size: nat): Option<CheckpointEntry> {
    if es == [] then None else if es[0].checkpoint.body.treeSize == size then Some(es[0]) else FindSize(es[1..], size)
  }

  /** The same token, from the same authority, is still on the checkpoint. */
  ghost predicate TokenKept(current: AnchorSet, previous: AnchorSet, now: CheckpointEntry, stamp: Timestamp) {
    stamp.file in previous.tokens ==>
      exists i :: 0 <= i < |now.timestamps|
        && now.timestamps[i].tsaUrl == stamp.tsaUrl && now.timestamps[i].file in current.tokens
        && current.tokens[now.timestamps[i].file] == previous.tokens[stamp.file]
  }

  ghost predicate CheckpointKept(current: AnchorSet, previous: AnchorSet, before: CheckpointEntry) {
    var now := FindSize(current.checkpoints, before.checkpoint.body.treeSize);
    && now.Some?
    && now.value.checkpoint.body.rootHash == before.checkpoint.body.rootHash
    && now.value.checkpoint.sig == before.checkpoint.sig
    && forall i :: 0 <= i < |before.timestamps| ==> TokenKept(current, previous, now.value, before.timestamps[i])
  }

  ghost predicate AnchorsKept(current: AnchorSet, previous: AnchorSet, firstSeq: nat) {
    forall i :: 0 <= i < |previous.checkpoints| && previous.checkpoints[i].checkpoint.body.treeSize > firstSeq ==>
      CheckpointKept(current, previous, previous.checkpoints[i])
  }

  method IsTokenKept(current: AnchorSet, previous: AnchorSet, now: CheckpointEntry, stamp: Timestamp)
      returns (kept: bool)
    ensures kept <==> TokenKept(current, previous, now, stamp)
  {
    if stamp.file !in previous.tokens {
      return true;
    }
    var wanted := previous.tokens[stamp.file];
    for i := 0 to |now.timestamps|
      invariant forall j :: 0 <= j < i ==>
        !(now.timestamps[j].tsaUrl == stamp.tsaUrl && now.timestamps[j].file in current.tokens
          && current.tokens[now.timestamps[j].file] == wanted)
    {
      var candidate := now.timestamps[i];
      if candidate.file in current.tokens && candidate.tsaUrl == stamp.tsaUrl
          && current.tokens[candidate.file] == wanted {
        return true;
      }
    }
    return false;
  }

  method CompareAnchorsWithPrevious(current: AnchorSet, previous: AnchorSet, firstSeq: nat) returns (ok: bool)
    ensures ok <==> AnchorsKept(current, previous, firstSeq)
  {
    hide TokenKept;
    for i := 0 to |previous.checkpoints|
      invariant forall k :: 0 <= k < i && previous.checkpoints[k].checkpoint.body.treeSize > firstSeq ==>
        CheckpointKept(current, previous, previous.checkpoints[k])
    {
      var before := previous.checkpoints[i];
      var size := before.checkpoint.body.treeSize;
      if size > firstSeq {
        var now := FindSize(current.checkpoints, size);
        if now.None? {
          assert !CheckpointKept(current, previous, before);
          return false;
        }
        if now.value.checkpoint.body.rootHash != before.checkpoint.body.rootHash
            || now.value.checkpoint.sig != before.checkpoint.sig {
          assert !CheckpointKept(current, previous, before);
          return false;
        }
        for j := 0 to |before.timestamps|
          invariant forall k :: 0 <= k < j ==> TokenKept(current, previous, now.value, before.timestamps[k])
        {
          var kept := IsTokenKept(current, previous, now.value, before.timestamps[j]);
          if !kept {
            assert !CheckpointKept(current, previous, before);
            return false;
          }
        }
      }
    }
    return true;
  }

  /** The first of that tree size; none when i is past the end. */
  ghost predicate FirstOfSize(es: seq<CheckpointEntry>, size: nat, i: nat) {
    && i <= |es| && (i < |es| ==> es[i].checkpoint.body.treeSize == size)
    && forall j :: 0 <= j < i ==> es[j].checkpoint.body.treeSize != size
  }

  lemma {:induction false} FoundSize(es: seq<CheckpointEntry>, size: nat) returns (i: nat)
    ensures FirstOfSize(es, size, i)
    ensures FindSize(es, size) == if i < |es| then Some(es[i]) else None
    decreases |es|
  {
    i := 0;
    if es != [] && es[0].checkpoint.body.treeSize != size {
      i := FoundSize(es[1..], size);
      assert forall j :: 0 <= j < |es| - 1 ==> es[1..][j] == es[j + 1];
      i := i + 1;
    }
  }

  /** The new entry still says what the old one said: the same signed tree, with every
      token the old export held on it, from the same authority. */
  ghost predicate SaysAsMuch(current: AnchorSet, previous: AnchorSet, now: CheckpointEntry, before: CheckpointEntry) {
    && now.checkpoint.body.rootHash == before.checkpoint.body.rootHash && now.checkpoint.sig == before.checkpoint.sig
    && forall stamp :: stamp in before.timestamps && stamp.file in previous.tokens ==>
         exists kept :: kept in now.timestamps && kept.tsaUrl == stamp.tsaUrl && kept.file in current.tokens
           && current.tokens[kept.file] == previous.tokens[stamp.file]
  }

  /** It passes exactly when, of every checkpoint that reaches past the first receipt, the
      first of that size in the new export still says as much. */
  lemma {:induction false} AnchorsKeptIff(current: AnchorSet, previous: AnchorSet, firstSeq: nat)
    ensures AnchorsKept(current, previous, firstSeq) <==>
            forall before :: before in previous.checkpoints && before.checkpoint.body.treeSize > firstSeq ==>
              exists i :: 0 <= i < |current.checkpoints|
                && FirstOfSize(current.checkpoints, before.checkpoint.body.treeSize, i)
                && SaysAsMuch(current, previous, current.checkpoints[i], before)
  {
    hide CheckpointKept, SaysAsMuch, FirstOfSize;
    forall before | before in previous.checkpoints
      ensures CheckpointKept(current, previous, before) <==>
              exists i :: 0 <= i < |current.checkpoints|
                && FirstOfSize(current.checkpoints, before.checkpoint.body.treeSize, i)
                && SaysAsMuch(current, previous, current.checkpoints[i], before)
    {
      KeptIff(current, previous, before);
    }
    assert forall i :: 0 <= i < |previous.checkpoints| ==> previous.checkpoints[i] in previous.checkpoints;
  }

  lemma {:induction false} KeptIff(current: AnchorSet, previous: AnchorSet, before: CheckpointEntry)
    ensures CheckpointKept(current, previous, before) <==>
            exists i :: 0 <= i < |current.checkpoints|
              && FirstOfSize(current.checkpoints, before.checkpoint.body.treeSize, i)
              && SaysAsMuch(current, previous, current.checkpoints[i], before)
  {
    hide SaysAsMuch, TokenKept, FindSize;
    var i := FoundSize(current.checkpoints, before.checkpoint.body.treeSize);
    if i < |current.checkpoints| {
      SaysAsMuchIff(current, previous, current.checkpoints[i], before);
    }
  }

  lemma {:induction false} SaysAsMuchIff(current: AnchorSet, previous: AnchorSet, now: CheckpointEntry,
      before: CheckpointEntry)
    ensures SaysAsMuch(current, previous, now, before) <==>
            && now.checkpoint.body.rootHash == before.checkpoint.body.rootHash
            && now.checkpoint.sig == before.checkpoint.sig
            && forall i :: 0 <= i < |before.timestamps| ==> TokenKept(current, previous, now, before.timestamps[i])
  {
    forall stamp | stamp in before.timestamps
      ensures TokenKept(current, previous, now, stamp) <==>
              (stamp.file in previous.tokens ==>
                 exists kept :: kept in now.timestamps && kept.tsaUrl == stamp.tsaUrl && kept.file in current.tokens
                   && current.tokens[kept.file] == previous.tokens[stamp.file])
    {
      assert forall i :: 0 <= i < |now.timestamps| ==> now.timestamps[i] in now.timestamps;
    }
    assert forall i :: 0 <= i < |before.timestamps| ==> before.timestamps[i] in before.timestamps;
  }

  /** A token that anchored a receipt of the new window before anchors it still: it
      is on a checkpoint of the new export, over the same tree. */
  lemma {:induction false} AnchorsNeverShrink(
      current: AnchorSet, previous: AnchorSet, firstSeq: nat, s: nat, before: CheckpointEntry, stamp: Timestamp)
    returns (now: CheckpointEntry, kept: Timestamp)
    requires AnchorsKept(current, previous, firstSeq) && s >= firstSeq
    requires before in previous.checkpoints && s < before.checkpoint.body.treeSize
    requires stamp in before.timestamps && stamp.file in previous.tokens
    ensures now in current.checkpoints && s < now.checkpoint.body.treeSize
    ensures now.checkpoint.body.rootHash == before.checkpoint.body.rootHash
    ensures kept in now.timestamps && kept.file in current.tokens
              && current.tokens[kept.file] == previous.tokens[stamp.file]
  {
    var size := before.checkpoint.body.treeSize;
    assert CheckpointKept(current, previous, before);
    var found := FoundSize(current.checkpoints, size);
    now := current.checkpoints[found];
    var i :| 0 <= i < |before.timestamps| && before.timestamps[i] == stamp;
    assert TokenKept(current, previous, now, before.timestamps[i]);
    var j :| 0 <= j < |now.timestamps|
      && now.timestamps[j].tsaUrl == stamp.tsaUrl && now.timestamps[j].file in current.tokens
      && current.tokens[now.timestamps[j].file] == previous.tokens[stamp.file];
    kept := now.timestamps[j];
  }
}
