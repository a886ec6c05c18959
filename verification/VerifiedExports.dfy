/**
 * What the comparison with an earlier export and a genuine checkpoint say of
 * exports that verify (packages/verifier/src/verify.ts): nothing is asked of the
 * receipts but that verifyBundle accepted them.
 */
module VerifiedExports {
  import opened Prelude
  import opened Receipts
  import opened Verifier
  import opened VerifyBundle
  import opened PreviousExport
  import opened TamperEvidence

  ghost predicate Accepted(b: Bundle, trusted: Trusted) { FirstFailure(b, trusted).None? }

  /** The receipts of an export that verifies are consecutive, linked and of its system. */
  lemma {:induction false} VerifiedIsSegment(b: Bundle, trusted: Trusted)
    requires Accepted(b, trusted)
    ensures b.manifest.Parsed? && Segment(b.manifest.value.systemId, Values(b.receipts))
    ensures First(Values(b.receipts)) == b.manifest.value.fromSeq
  {
    hide FirstFailure, KeysOk, KeyMap, IndexFailure, DisclosedOk, EntryCheck, Describes, SignedCheck, GenesisOk;
    VerifiesIffAcceptable(b, trusted);
  }

  /** The comparison finds nothing between two exports that verify exactly when the
      new one continues the old, and both are then of one system. */
  lemma {:induction false} VerifiedComparison(
      now: Bundle, before: Bundle, trustedNow: Trusted, trustedBefore: Trusted, d: Option<Difference>)
    requires Accepted(now, trustedNow) && Accepted(before, trustedBefore)
    requires IsComparison(Values(now.receipts), Values(before.receipts), d)
    ensures now.manifest.Parsed? && before.manifest.Parsed? && |Values(now.receipts)| > 0
              && |Values(before.receipts)| > 0
    ensures d.None? <==> Continues(Values(now.receipts), Values(before.receipts))
    ensures d.None? ==> now.manifest.value.systemId == before.manifest.value.systemId
  {
    hide Accepted, IsComparison, SequenceOk, LinksOk, Agree, ReceiptHash;
    VerifiedIsSegment(now, trustedNow);
    VerifiedIsSegment(before, trustedBefore);
    AcceptsExactlyContinuations(
      now.manifest.value.systemId, before.manifest.value.systemId, Values(now.receipts), Values(before.receipts), d);
  }

  /**
   * The check is sound: two exports that each verify, and between which it finds no
   * difference, are one contiguous hash-linked chain of one system that reaches at
   * least as far as before; or a collision is at hand.
   */
  lemma {:induction false} VerifiedContinuationIsOneChain(
      now: Bundle, before: Bundle, trustedNow: Trusted, trustedBefore: Trusted) returns (c: Collision)
    requires CanonicalForms() && Accepted(now, trustedNow) && Accepted(before, trustedBefore)
    requires IsComparison(Values(now.receipts), Values(before.receipts), None)
    ensures now.manifest.Parsed? && |Values(now.receipts)| > 0 && |Values(before.receipts)| > 0
    ensures c.IsReal() ||
            IsOneChainOf(now.manifest.value.systemId, Values(now.receipts), Values(before.receipts))
  {
    hide CanonicalForms, Accepted, IsComparison, Continues, Segment, IsOneChainOf;
    VerifiedIsSegment(now, trustedNow);
    VerifiedIsSegment(before, trustedBefore);
    VerifiedComparison(now, before, trustedNow, trustedBefore, None);
    c := ContinuationIsOneChain(now.manifest.value.systemId, Values(now.receipts), Values(before.receipts));
  }

  /**
   * Where the hashes agree at one position, two exports that verify agree on every
   * earlier receipt they both hold, whoever signed them; or a collision is at hand.
   */
  lemma {:induction false} VerifiedAgreeBackwards(
      a: Bundle, b: Bundle, trustedA: Trusted, trustedB: Trusted, s: nat, t: nat) returns (c: Collision)
    requires CanonicalForms() && Accepted(a, trustedA) && Accepted(b, trustedB) && t <= s
    requires var xs, ys := Values(a.receipts), Values(b.receipts);
             && Has(xs, s) && Has(ys, s) && Has(xs, t) && Has(ys, t)
             && ReceiptHash(At(xs, s).body) == ReceiptHash(At(ys, s).body)
    ensures c.IsReal() || At(Values(a.receipts), t).body == At(Values(b.receipts), t).body
  {
    hide CanonicalForms, Accepted, SequenceOk, LinksOk, ReceiptHash;
    VerifiedIsSegment(a, trustedA);
    VerifiedIsSegment(b, trustedB);
    var xs, ys := Values(a.receipts), Values(b.receipts);
    assert At(xs, s).body.systemId == a.manifest.value.systemId;
    assert At(ys, s).body.systemId == b.manifest.value.systemId;
    c := SameHashSameBody(At(xs, s).body, At(ys, s).body);
    if !c.IsReal() {
      c := AgreeBackwards(a.manifest.value.systemId, xs, ys, s, t);
    }
  }

  /**
   * A checkpoint of an export that verifies, if it is over a beginning of a chain,
   * pins every receipt of the export up to the one it is tied at to that chain.
   */
  lemma {:induction false} VerifiedCheckpointPins(
      b: Bundle, trusted: Trusted, chain: seq<Receipt>, k: nat, t: nat) returns (c: Collision)
    requires CanonicalForms() && Accepted(b, trusted) && b.manifest.Parsed? && IsChain(b.manifest.value.systemId, chain)
    requires k < |Values(b.checkpoints)| && OverPrefix(chain, Values(b.checkpoints)[k].checkpoint.body)
    requires Has(Values(b.receipts), t) && TiedAtOrAfter(Values(b.receipts), Values(b.checkpoints)[k], t)
    ensures c.IsReal() || (t < |chain| && At(Values(b.receipts), t).body == chain[t].body)
  {
    hide CanonicalForms, Accepted, IsChain, OverPrefix, TiedAtOrAfter, Segment, RootOk, ProofsOk;
    VerifiedIsSegment(b, trusted);
    VerifiedEntry(b, trusted, k);
    c := CheckpointPinsReceipts(
      b.manifest.value.systemId, chain, Values(b.receipts), Values(b.checkpoints)[k], t);
  }

  lemma {:induction false} VerifiedEntry(b: Bundle, trusted: Trusted, k: nat)
    requires Accepted(b, trusted) && k < |Values(b.checkpoints)|
    ensures var e := Values(b.checkpoints)[k];
            RootOk(Values(b.receipts), e.checkpoint.body) && ProofsOk(Values(b.receipts), e)
  {
    hide FirstFailure, KeysOk, KeyMap, IndexFailure, DisclosedOk, Describes, ReceiptsAccepted, RootOk, ProofsOk;
    VerifiesIffAcceptable(b, trusted);
    assert EntryCheck(
        b.manifest.value, Values(b.receipts), KeyMap(b.manifest.value.keys), trusted, b.checkpoints[k].value).None?;
  }
}
