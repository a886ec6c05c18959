/**
 * Receipts, checkpoints, their hashes and signatures (packages/core/src/receipt.ts,
 * checkpoint.ts, signing.ts, keys.ts), and what it is for receipts to form a chain.
 */
module Receipts {
  import opened Prelude
  import opened Merkle

  type SystemId = string
  type KeyId = Bytes
  type PublicKey = Bytes
  type PrivateKey = Bytes
  type Signature = Bytes

  datatype ActionKind = ToolCall | LlmCall | AgentStep | Decision | Genesis

  datatype Role = Input | Output

  datatype Artifact = Artifact(role: Role, lbl: string, sha256: Digest, text: Option<(string, Digest)>)

  /** A receipt without its signature: the fields some rule reads, and `rest` for
      all the others. Times are milliseconds. */
  datatype Body = Body(
    v: nat,
    systemId: SystemId,
    seq_: nat,
    tsReceived: int,
    kind: ActionKind,
    name: string,
    onBehalfOf: Option<string>,
    inputSalted: bool,
    outputSalted: bool,
    artifacts: seq<Artifact>,
    prevHash: Digest,
    keyId: KeyId,
    rest: string)

  datatype Receipt = Receipt(body: Body, sig: Signature)

  datatype CheckpointBody = CheckpointBody(systemId: SystemId, treeSize: nat, rootHash: Digest, ts: int, keyId: KeyId)

  datatype Checkpoint = Checkpoint(body: CheckpointBody, sig: Signature)

  /** The canonical forms of RFC 8785, left uninterpreted. */
  const CANONICAL_RECEIPT: Body -> Bytes
  const CANONICAL_CHECKPOINT: CheckpointBody -> Bytes

  function CanonicalReceipt(b: Body): Bytes { CANONICAL_RECEIPT(b) }

  function CanonicalCheckpoint(b: CheckpointBody): Bytes { CANONICAL_CHECKPOINT(b) }

  /** The facts about them the theorems use: a canonical form determines what it
      is of, and no receipt has the form of a checkpoint (their members differ). */
  ghost predicate CanonicalForms() {
    && (forall a, b :: CanonicalReceipt(a) == CanonicalReceipt(b) ==> a == b)
    && (forall a, b :: CanonicalCheckpoint(a) == CanonicalCheckpoint(b) ==> a == b)
    && (forall a, b :: CanonicalReceipt(a) != CanonicalCheckpoint(b))
  }

  function ReceiptHash(b: Body): Digest { SHA256(CanonicalReceipt(b)) }

  function CheckpointHash(b: CheckpointBody): Digest { SHA256(CanonicalCheckpoint(b)) }

  /** Ed25519, left uninterpreted: signing with a private key, and checking. */
  const SIGN: (PrivateKey, Digest) -> Signature
  const VERIFY: (PublicKey, Digest, Signature) -> bool

  function Sign(key: PrivateKey, d: Digest): Signature { SIGN(key, d) }

  predicate Verifies(key: PublicKey, d: Digest, sig: Signature) { VERIFY(key, d, sig) }

  datatype SignerKey = SignerKey(keyId: KeyId, publicKey: PublicKey, privateKey: PrivateKey)

  /** The fact about Ed25519 the theorems use of an honest key: what its private half
      signs, its public half verifies. */
  ghost predicate IsKeyPair(key: SignerKey) {
    forall d :: Verifies(key.publicKey, d, Sign(key.privateKey, d))
  }

  /** The receipt names the key, and its signature over its own hash verifies under it. */
  ghost predicate SignedUnder(key: SignerKey, r: Receipt) {
    r.body.keyId == key.keyId && Verifies(key.publicKey, ReceiptHash(r.body), r.sig)
  }

  ghost predicate CheckpointSignedUnder(key: SignerKey, c: Checkpoint) {
    c.body.keyId == key.keyId && Verifies(key.publicKey, CheckpointHash(c.body), c.sig)
  }

  /** The first 16 hex characters of the SHA-256 of the raw key: 8 bytes. */
  function KeyIdOf(raw: PublicKey): KeyId { SHA256(raw)[..8] }

  function Hashes(chain: seq<Receipt>): (hs: seq<Entry>)
    ensures |hs| == |chain|
    ensures forall i :: 0 <= i < |chain| ==> hs[i] == ReceiptHash(chain[i].body)
  {
    if chain == [] then []
    else Hashes(chain[..|chain| - 1]) + [ReceiptHash(chain[|chain| - 1].body)]
  }

  /** The prev_hash the receipt at position i must carry. */
  function ExpectedPrev(chain: seq<Receipt>, i: nat): Digest
    requires i <= |chain|
  {
    if i == 0 then GENESIS_PREV_HASH else ReceiptHash(chain[i - 1].body)
  }

  /** One receipt per position, from 0 without a gap, each linked to the one before. */
  ghost predicate IsChain(id: SystemId, chain: seq<Receipt>) {
    forall i {:trigger chain[i].body.systemId} {:trigger chain[i].body.seq_} {:trigger chain[i].body.prevHash} ::
        0 <= i < |chain| ==>
      chain[i].body.systemId == id && chain[i].body.seq_ == i && chain[i].body.prevHash == ExpectedPrev(chain, i)
  }

  /** From position `from` on, no receipt is received before the one it follows. */
  ghost predicate ClockOrdered(chain: seq<Receipt>, from: nat) {
    forall i, j :: 0 <= i < j < |chain| && j == i + 1 && from <= j ==>
        chain[i].body.tsReceived <= chain[j].body.tsReceived
  }

  lemma {:induction false} ChainPrefix(id: SystemId, chain: seq<Receipt>, n: nat)
    requires IsChain(id, chain) && n <= |chain|
    ensures IsChain(id, chain[..n])
  {
  }

  lemma {:induction false} ChainSnoc(id: SystemId, chain: seq<Receipt>, r: Receipt)
    requires IsChain(id, chain)
    requires r.body.systemId == id && r.body.seq_ == |chain| && r.body.prevHash == ExpectedPrev(chain, |chain|)
    ensures IsChain(id, chain + [r])
  {
    var c := chain + [r];
    forall i | 0 <= i < |c|
      ensures c[i].body.systemId == id && c[i].body.seq_ == i && c[i].body.prevHash == ExpectedPrev(c, i)
    {
      if i < |chain| {
        assert chain[i].body.prevHash == ExpectedPrev(chain, i);
      }
    }
  }

  lemma {:induction false} HashesSnoc(chain: seq<Receipt>, r: Receipt)
    ensures Hashes(chain + [r]) == Hashes(chain) + [ReceiptHash(r.body)]
  {
    assert (chain + [r])[..|chain|] == chain;
  }

  lemma {:induction false} HashesPrefix(chain: seq<Receipt>, n: nat)
    requires n <= |chain|
    ensures Hashes(chain)[..n] == Hashes(chain[..n])
  {
  }
}
