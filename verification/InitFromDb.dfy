/**
 * apps/signer/src/init-from-db.ts: the one-time migration of chains signed before
 * the signer kept any state.
 */
module InitFromDb {
  import opened Prelude
  import opened Frontier
  import opened Receipts
  import opened StateDirectory

  /** A row of the receipts table. `canonical` is the stored text's bytes, and
      `receipt` what that text and the stored signature parse to, if they `parse`. */
  datatype ReceiptRow = ReceiptRow(seq_: int, hash: Digest, canonical: Bytes, parses: bool, receipt: Receipt)

  datatype ChainError =
    | WrongSeq(at: nat) | NotAReceipt(at: nat) | WrongHash(at: nat) | AnotherPosition(at: nat)
    | BrokenLink(at: nat) | UnknownKey(at: nat) | BadSignature(at: nat) | NoReceipts

  /** What is asked of row i, given the hash of the receipt before it. */
  function RowError(
      id: SystemId, row: ReceiptRow, i: nat, previous: Digest, keys: map<KeyId, PublicKey>): Option<ChainError> {
    var b := row.receipt.body;
    if row.seq_ != i then Some(WrongSeq(i))
    else if !row.parses then Some(NotAReceipt(i))
    else if ReceiptHash(b) != row.hash || SHA256(row.canonical) != ReceiptHash(b) then Some(WrongHash(i))
    else if b.systemId != id || b.seq_ != row.seq_ then Some(AnotherPosition(i))
    else if b.prevHash != previous then Some(BrokenLink(i))
    else if b.keyId !in keys then Some(UnknownKey(i))
    else if !Verifies(keys[b.keyId], ReceiptHash(b), row.receipt.sig) then Some(BadSignature(i))
    else None
  }

  function Previous(rows: seq<ReceiptRow>, i: nat): Digest
    requires i <= |rows|
  {
    if i == 0 then GENESIS_PREV_HASH else rows[i - 1].hash
  }

  ghost predicate RowValid(id: SystemId, rows: seq<ReceiptRow>, i: nat, keys: map<KeyId, PublicKey>)
    requires i < |rows|
  {
    RowError(id, rows[i], i, Previous(rows, i), keys) == None
  }

  /** No row is refused. */
  ghost predicate ValidRows(id: SystemId, rows: seq<ReceiptRow>, keys: map<KeyId, PublicKey>) {
    forall i :: 0 <= i < |rows| ==> RowValid(id, rows, i, keys)
  }

  ghost function ChainOf(rows: seq<ReceiptRow>): (chain: seq<Receipt>)
    ensures |chain| == |rows| && forall i :: 0 <= i < |rows| ==> chain[i] == rows[i].receipt
  {
    if rows == [] then [] else ChainOf(rows[..|rows| - 1]) + [rows[|rows| - 1].receipt]
  }

  /** A row's own position, hash, text and signature agree. */
  ghost predicate RowHonest(row: ReceiptRow, keys: map<KeyId, PublicKey>) {
    var b := row.receipt.body;
    && row.parses && row.seq_ == b.seq_
    && row.hash == ReceiptHash(b) == SHA256(row.canonical)
    && b.keyId in keys && Verifies(keys[b.keyId], ReceiptHash(b), row.receipt.sig)
  }

  /** The stored receipts form one chain of the system, and each is stored and
      signed as it says. */
  ghost predicate StoredChain(id: SystemId, rows: seq<ReceiptRow>, keys: map<KeyId, PublicKey>) {
    IsChain(id, ChainOf(rows)) && forall i :: 0 <= i < |rows| ==> RowHonest(rows[i], keys)
  }

  lemma {:induction false} RowOfStoredChain(id: SystemId, rows: seq<ReceiptRow>, i: nat, keys: map<KeyId, PublicKey>)
    requires i < |rows| && (i > 0 ==> RowHonest(rows[i - 1], keys))
    ensures RowValid(id, rows, i, keys) <==>
              var b := rows[i].receipt.body;
              RowHonest(rows[i], keys) && b.systemId == id && b.seq_ == i
                  && b.prevHash == ExpectedPrev(ChainOf(rows), i)
  {
  }

  lemma {:induction false} ValidRowsAreStored(id: SystemId, rows: seq<ReceiptRow>, keys: map<KeyId, PublicKey>)
    requires ValidRows(id, rows, keys)
    ensures StoredChain(id, rows, keys)
  {
    forall i | 0 <= i < |rows|
      ensures RowHonest(rows[i], keys)
    {
      assert RowValid(id, rows, i, keys);
    }
    var chain := ChainOf(rows);
    forall i | 0 <= i < |chain|
      ensures chain[i].body.systemId == id && chain[i].body.seq_ == i
                && chain[i].body.prevHash == ExpectedPrev(chain, i)
    {
      assert RowValid(id, rows, i, keys);
      RowOfStoredChain(id, rows, i, keys);
    }
  }

  lemma {:induction false} StoredRowsAreValid(id: SystemId, rows: seq<ReceiptRow>, keys: map<KeyId, PublicKey>)
    requires StoredChain(id, rows, keys)
    ensures ValidRows(id, rows, keys)
  {
    hide RowValid, RowHonest, ReceiptHash;
    forall i | 0 <= i < |rows|
      ensures RowValid(id, rows, i, keys)
    {
      assert ChainOf(rows)[i] == rows[i].receipt;
      RowOfStoredChain(id, rows, i, keys);
    }
  }

  /** No row is refused exactly when the rows are a stored chain. */
  lemma {:induction false} ValidRowsAreAStoredChain(id: SystemId, rows: seq<ReceiptRow>, keys: map<KeyId, PublicKey>)
    ensures ValidRows(id, rows, keys) <==> StoredChain(id, rows, keys)
  {
    if ValidRows(id, rows, keys) {
      ValidRowsAreStored(id, rows, keys);
    }
    if StoredChain(id, rows, keys) {
      StoredRowsAreValid(id, rows, keys);
    }
  }

  /** One more row appended to the frontier of those before it. */
  lemma {:induction false} FrontierStep(rows: seq<ReceiptRow>, i: nat)
    requires i < |rows|
    ensures Append(FrontierOf(Hashes(ChainOf(rows[..i]))), ReceiptHash(rows[i].receipt.body))
            == Ok(FrontierOf(Hashes(ChainOf(rows[..i + 1]))))
  {
    TakeStep(rows, i);
    assert rows[..i + 1][..i] == rows[..i];
    HashesSnoc(ChainOf(rows[..i]), rows[i].receipt);
    AppendIsFrontier(Hashes(ChainOf(rows[..i])), ReceiptHash(rows[i].receipt.body));
  }

  ghost predicate RefusedAt(id: SystemId, rows: seq<ReceiptRow>, i: nat, keys: map<KeyId, PublicKey>, e: ChainError)
    requires i < |rows|
  {
    RowError(id, rows[i], i, Previous(rows, i), keys) == Some(e)
  }

  /** What the loop leaves behind after the last row is the chain's state. */
  lemma {:induction false} EndState(id: SystemId, rows: seq<ReceiptRow>, keys: map<KeyId, PublicKey>)
    requires |rows| > 0 && ValidRows(id, rows, keys)
    ensures var head := rows[|rows| - 1].receipt;
            StateOf(id, ChainOf(rows))
            == ChainState(id, head.body.seq_, Previous(rows, |rows|), head, FrontierOf(Hashes(ChainOf(rows))))
  {
    assert RowValid(id, rows, |rows| - 1, keys);
    RowOfLast(id, rows, keys);
  }

  lemma {:induction false} RowOfLast(id: SystemId, rows: seq<ReceiptRow>, keys: map<KeyId, PublicKey>)
    requires |rows| > 0 && RowValid(id, rows, |rows| - 1, keys)
    ensures rows[|rows| - 1].hash == ReceiptHash(rows[|rows| - 1].receipt.body)
    ensures rows[|rows| - 1].receipt.body.seq_ == |rows| - 1
  {
  }

  /** What the loop holds before row i. */
  ghost predicate Progress(id: SystemId, rows: seq<ReceiptRow>, keys: map<KeyId, PublicKey>, i: nat,
                           frontier: MerkleFrontier, previous: Digest, head: Option<Receipt>)
    requires i <= |rows|
  {
    && (forall j :: 0 <= j < i ==> RowValid(id, rows, j, keys))
    && previous == Previous(rows, i)
    && frontier == FrontierOf(Hashes(ChainOf(rows[..i])))
    && head == (if i == 0 then None else Some(rows[i - 1].receipt))
  }

  lemma {:induction false} ProgressStep(id: SystemId, rows: seq<ReceiptRow>, keys: map<KeyId, PublicKey>, i: nat,
                     frontier: MerkleFrontier, previous: Digest, head: Option<Receipt>)
    requires i < |rows| && Progress(id, rows, keys, i, frontier, previous, head)
    requires RowError(id, rows[i], i, previous, keys) == None
    ensures var r := rows[i].receipt; var appended := Append(frontier, ReceiptHash(r.body));
            appended.Ok? && Progress(id, rows, keys, i + 1, appended.value, ReceiptHash(r.body), Some(r))
  {
    hide ReceiptHash, Append, ChainOf, Hashes, FrontierOf;
    assert RowValid(id, rows, i, keys);
    FrontierStep(rows, i);
  }

  lemma {:induction false} ProgressDone(id: SystemId, rows: seq<ReceiptRow>, keys: map<KeyId, PublicKey>,
                     frontier: MerkleFrontier, previous: Digest, head: Option<Receipt>)
    requires |rows| > 0 && Progress(id, rows, keys, |rows|, frontier, previous, head)
    ensures StoredChain(id, rows, keys) && head.Some?
    ensures ChainState(id, head.value.body.seq_, previous, head.value, frontier) == StateOf(id, ChainOf(rows))
  {
    assert rows[..|rows|] == rows;
    ValidRowsAreAStoredChain(id, rows, keys);
    EndState(id, rows, keys);
  }

  lemma {:induction false} RefusedIsNotStored(
      id: SystemId, rows: seq<ReceiptRow>, i: nat, keys: map<KeyId, PublicKey>, e: ChainError)
    requires i < |rows| && RefusedAt(id, rows, i, keys, e)
    ensures !StoredChain(id, rows, keys)
  {
    ValidRowsAreAStoredChain(id, rows, keys);
    assert !RowValid(id, rows, i, keys);
  }

  /** Row i is the first that is refused, and `e` says why. */
  ghost predicate FirstRefusedAt(
      id: SystemId, rows: seq<ReceiptRow>, i: nat, keys: map<KeyId, PublicKey>, e: ChainError)
    requires i < |rows|
  {
    RefusedAt(id, rows, i, keys, e) && forall j :: 0 <= j < i ==> RowValid(id, rows, j, keys)
  }

  /**
   * It builds a state exactly from the stored chains, and the state is the one
   * that signing those receipts one by one arrives at; it says there are no
   * receipts exactly when there are none; any other error is a row's.
   */
  ghost predicate IsChainState(id: SystemId, rows: seq<ReceiptRow>, keys: map<KeyId, PublicKey>,
                               r: Result<SystemState, ChainError>) {
    && (r.Ok? <==> |rows| > 0 && StoredChain(id, rows, keys))
    && (r.Ok? ==> r.value == StateOf(id, ChainOf(rows)))
    && (r == Err(NoReceipts) <==> rows == [])
    && (r.Err? && r.error != NoReceipts ==>
          exists i: nat :: i < |rows| && FirstRefusedAt(id, rows, i, keys, r.error))
  }

  lemma {:induction false} RefusedRowIsTheAnswer(
      id: SystemId, rows: seq<ReceiptRow>, keys: map<KeyId, PublicKey>, i: nat,
      frontier: MerkleFrontier, previous: Digest, head: Option<Receipt>)
    requires i < |rows| && Progress(id, rows, keys, i, frontier, previous, head)
    requires RowError(id, rows[i], i, previous, keys).Some?
    ensures IsChainState(id, rows, keys, Err(RowError(id, rows[i], i, previous, keys).value))
  {
    hide StoredChain, RowValid, ReceiptHash, ChainOf, Hashes, FrontierOf, StateOf;
    var e := RowError(id, rows[i], i, previous, keys).value;
    assert FirstRefusedAt(id, rows, i, keys, e);
    RefusedIsNotStored(id, rows, i, keys, e);
  }

  lemma {:induction false} LastRowIsTheAnswer(
      id: SystemId, rows: seq<ReceiptRow>, keys: map<KeyId, PublicKey>,
      frontier: MerkleFrontier, previous: Digest, head: Option<Receipt>)
    requires Progress(id, rows, keys, |rows|, frontier, previous, head)
    ensures head.None? ==> IsChainState(id, rows, keys, Err(NoReceipts))
    ensures head.Some? ==> IsChainState(id, rows, keys,
                             Ok(ChainState(id, head.value.body.seq_, previous, head.value, frontier)))
  {
    hide StoredChain, RowValid, ReceiptHash, ChainOf, Hashes, FrontierOf, StateOf;
    if head.Some? {
      ProgressDone(id, rows, keys, frontier, previous, head);
    }
  }

  lemma {:induction false} ProgressStart(id: SystemId, rows: seq<ReceiptRow>, keys: map<KeyId, PublicKey>)
    ensures Progress(id, rows, keys, 0, EMPTY_FRONTIER, GENESIS_PREV_HASH, None)
  {
    assert rows[..0] == [];
    assert Hashes(ChainOf([])) == [];
  }

  /** chainStateOf */
  method ChainStateOf(id: SystemId, rows: seq<ReceiptRow>, keys: map<KeyId, PublicKey>)
    returns (r: Result<SystemState, ChainError>)
    ensures IsChainState(id, rows, keys, r)
  {
    hide *;
    var frontier := EMPTY_FRONTIER;
    var previous := GENESIS_PREV_HASH;
    var head: Option<Receipt> := None;
    ProgressStart(id, rows, keys);
    for i := 0 to |rows|
      invariant Progress(id, rows, keys, i, frontier, previous, head)
    {
      var row := rows[i];
      var error := RowError(id, row, i, previous, keys);
      if error.Some? {
        RefusedRowIsTheAnswer(id, rows, keys, i, frontier, previous, head);
        return Err(error.value);
      }
      ProgressStep(id, rows, keys, i, frontier, previous, head);
      var hash := ReceiptHash(row.receipt.body);
      var appended := FrontierAppend(frontier, hash);
      frontier := appended.value;
      previous := hash;
      head := Some(row.receipt);
    }
    LastRowIsTheAnswer(id, rows, keys, frontier, previous, head);
    if head.None? {
      return Err(NoReceipts);
    }
    return Ok(ChainState(id, head.value.body.seq_, previous, head.value, frontier));
  }
}
