/**
 * apps/signer/src/state.ts: what the signer remembers about each system, the files
 * that hold it, and the steps by which they are replaced.
 *
 * A system's files are modelled at the level of write, fsync, rename and the
 * fsync of a directory: what the running process sees, and how much of it a power
 * cut is sure to leave.
 */
module StateDirectory {
  import opened Prelude
  import opened Receipts
  import opened Frontier
  import opened Journal

  // ----- states and their text -----

  datatype SystemState =
    | ChainState(systemId: SystemId, seq_: nat, hash: Digest, head: Receipt, frontier: MerkleFrontier)
    | RetiredSystem(systemId: SystemId, genesisHash: Digest)

  const STATE_FORMAT: int := 1

  /** A state file's JSON, member by member. */
  datatype StateText =
    | ChainText(format: int, systemId: SystemId, seq_: int, hash: Digest, head: Receipt, frontier: SerializedFrontier)
    | RetiredText(format: int, systemId: SystemId, genesisHash: Digest)

  datatype StateError = NotAState | BadFrontier | HeadOfAnotherSystem | SeqNotHeads | HashNotHeads | FrontierNotSeq
      | WrongFileName

  function Serialize(state: SystemState): StateText {
    match state
    case ChainState(id, seq_, hash, head, frontier) =>
      ChainText(STATE_FORMAT, id, seq_, hash, head, SerializeFrontier(frontier))
    case RetiredSystem(id, genesisHash) => RetiredText(STATE_FORMAT, id, genesisHash)
  }

  function ParseStateFile(text: StateText): Result<SystemState, StateError> {
    match text
    case RetiredText(format, id, genesisHash) =>
      if format != STATE_FORMAT then Err(NotAState) else Ok(RetiredSystem(id, genesisHash))
    case ChainText(format, id, seq_, hash, head, serialized) =>
      if format != STATE_FORMAT || seq_ < 0 then Err(NotAState)
      else
        var frontier := ParseFrontier(serialized);
        if frontier.Err? then Err(BadFrontier)
        else if head.body.systemId != id then Err(HeadOfAnotherSystem)
        else if head.body.seq_ != seq_ then Err(SeqNotHeads)
        else if ReceiptHash(head.body) != hash then Err(HashNotHeads)
        else if frontier.value.size != seq_ + 1 then Err(FrontierNotSeq)
        else Ok(ChainState(id, seq_, hash, head, frontier.value))
  }

  /** The state of a chain: what signing its receipts one by one arrives at. */
  ghost function StateOf(id: SystemId, chain: seq<Receipt>): SystemState
    requires |chain| > 0
  {
    var head := chain[|chain| - 1];
    ChainState(id, |chain| - 1, ReceiptHash(head.body), head, FrontierOf(Hashes(chain)))
  }

  /** A state file is read back, unchanged, exactly when its parts agree. */
  lemma {:induction false} StateFileRoundTrip(state: SystemState)
    ensures ParseStateFile(Serialize(state)) == Ok(state) <==>
              (state.RetiredSystem? || (
                && |state.frontier.nodes| == SetBits(state.frontier.size)
                && state.head.body.systemId == state.systemId
                && state.head.body.seq_ == state.seq_
                && ReceiptHash(state.head.body) == state.hash
                && state.frontier.size == state.seq_ + 1))
  {
    if state.ChainState? {
      ParseSerialized(state.frontier);
    }
  }

  /** What the signer could have written: the format, and members that agree with each other. */
  ghost predicate IsStateText(text: StateText) {
    && text.format == 1
    && (text.ChainText? ==>
          && text.seq_ >= 0 && IsFrontierText(text.frontier) && text.frontier.size == text.seq_ + 1
          && text.head.body.systemId == text.systemId && text.head.body.seq_ == text.seq_
          && ReceiptHash(text.head.body) == text.hash)
  }

  /** Nothing else is read as a state, and it is read as what it says. */
  lemma {:induction false} ReadsExactlyStates(text: StateText)
    ensures ParseStateFile(text).Ok? <==> IsStateText(text)
    ensures ParseStateFile(text).Ok? ==>
              var state := ParseStateFile(text).value;
              && state.systemId == text.systemId && (state.ChainState? <==> text.ChainText?)
              && (state.RetiredSystem? ==> state.genesisHash == text.genesisHash)
              && (state.ChainState? ==>
                    && state.seq_ == text.seq_ && state.hash == text.hash && state.head == text.head
                    && Ok(state.frontier) == ParseFrontier(text.frontier))
  {
    hide IsFrontierText, ParseFrontier, ReceiptHash;
    if text.ChainText? {
      ParsesExactlyFrontiers(text.frontier);
    }
  }

  /** Otherwise the error names the first thing that is wrong with it. */
  lemma {:induction false} RefusalOfStateText(text: StateText)
    requires ParseStateFile(text).Err?
    ensures ParseStateFile(text).error ==
            if text.format != 1 || (text.ChainText? && text.seq_ < 0) then NotAState
            else if text.RetiredText? || !IsFrontierText(text.frontier) then BadFrontier
            else if text.head.body.systemId != text.systemId then HeadOfAnotherSystem
            else if text.head.body.seq_ != text.seq_ then SeqNotHeads
            else if ReceiptHash(text.head.body) != text.hash then HashNotHeads
            else FrontierNotSeq
    ensures text.RetiredText? ==> text.format != 1
  {
    hide IsFrontierText, ParseFrontier, ReceiptHash;
    if text.ChainText? {
      ParsesExactlyFrontiers(text.frontier);
    }
  }

  /** The state of every chain is read back: open never rejects it. */
  lemma {:induction false} ChainStateRoundTrip(id: SystemId, chain: seq<Receipt>)
    requires |chain| > 0 && IsChain(id, chain)
    ensures ParseStateFile(Serialize(StateOf(id, chain))) == Ok(StateOf(id, chain))
  {
    FrontierOfParses(Hashes(chain));
    OneNodePerSetBit(Hashes(chain));
    StateFileRoundTrip(StateOf(id, chain));
  }

  // ----- files -----

  /** A state file's content. A rename of a file not yet flushed may leave anything. */
  datatype Content = NoFile | Torn | Text(text: StateText)

  datatype Temporary = NoTemporary | Temporary(text: StateText, flushed: bool)

  /**
   * One system's files. `journal` is the text the process reads, of which the
   * first `journalSynced` characters are flushed; `journalLinked` says that the
   * file's directory entry is. `versions` are the contents the state file has had
   * since its directory entry was last flushed: the first is the one sure to
   * survive a power cut, the last the one the process reads.
   */
  datatype SystemFiles = SystemFiles(
    journal: string, journalSynced: nat, journalExists: bool, journalLinked: bool,
    temporary: Temporary, versions: seq<Content>)

  type Directory = map<SystemId, SystemFiles>

  const NO_FILES := SystemFiles("", 0, false, false, NoTemporary, [NoFile])

  function FilesOf(dir: Directory, id: SystemId): SystemFiles {
    if id in dir then dir[id] else NO_FILES
  }

  function Visible(f: SystemFiles): Content {
    if f.versions == [] then NoFile else f.versions[|f.versions| - 1]
  }

  function AppendText(f: SystemFiles, text: string): SystemFiles {
    f.(journal := f.journal + text, journalExists := true)
  }

  function FlushJournal(f: SystemFiles): SystemFiles { f.(journalSynced := |f.journal|) }

  function WriteTemporary(f: SystemFiles, text: StateText): SystemFiles { f.(temporary := Temporary(text, false)) }

  function FlushTemporary(f: SystemFiles): SystemFiles {
    match f.temporary
    case NoTemporary => f
    case Temporary(text, _) => f.(temporary := Temporary(text, true))
  }

  function RenameTemporary(f: SystemFiles): SystemFiles {
    match f.temporary
    case NoTemporary => f
    case Temporary(text, flushed) =>
      f.(temporary := NoTemporary, versions := f.versions + [if flushed then Text(text) else Torn])
  }

  function FlushEntries(f: SystemFiles): SystemFiles {
    f.(versions := [Visible(f)], journalLinked := f.journalExists)
  }

  /** fsyncDirectory flushes every rename and creation there has been in it. */
  function FlushDirectory(dir: Directory): (r: Directory)
    ensures r.Keys == dir.Keys
  {
    map id | id in dir :: FlushEntries(dir[id])
  }

  /** record, all of it. */
  function RecordEffect(dir: Directory, r: Receipt): Directory {
    var id := r.body.systemId;
    var f := FilesOf(dir, id);
    var written := dir[id := FlushJournal(AppendText(f, Appended(f.journal, r)))];
    if f.journalExists then written else FlushDirectory(written)
  }

  /** put, all of it on disk. */
  function PutEffect(dir: Directory, state: SystemState): Directory {
    var id := state.systemId;
    FlushDirectory(dir[id := RenameTemporary(FlushTemporary(WriteTemporary(FilesOf(dir, id), Serialize(state))))])
  }

  /** What a put leaves: one state file that no power cut can undo, no temporary, the journal
      as it was; of the other systems, every rename and name there was is flushed. */
  lemma {:induction false} AfterPut(dir: Directory, state: SystemState, other: SystemId)
    ensures var f, g := FilesOf(dir, state.systemId), FilesOf(PutEffect(dir, state), state.systemId);
            && g.versions == [Text(Serialize(state))] && g.temporary.NoTemporary?
            && g.journal == f.journal && g.journalSynced == f.journalSynced
            && g.journalExists == f.journalExists && g.journalLinked == f.journalExists
    ensures other in dir && other != state.systemId ==>
              var f, g := dir[other], FilesOf(PutEffect(dir, state), other);
              g == f.(versions := [Visible(f)], journalLinked := f.journalExists)
  {
    var f := RenameTemporary(FlushTemporary(WriteTemporary(FilesOf(dir, state.systemId), Serialize(state))));
    assert Visible(f) == Text(Serialize(state));
    assert PutEffect(dir, state)[state.systemId] == FlushEntries(f);
  }

  /** What a record leaves: the text appended and flushed, and a journal that it began is named on disk. */
  lemma {:induction false} AfterRecord(dir: Directory, r: Receipt)
    ensures var f, g := FilesOf(dir, r.body.systemId), FilesOf(RecordEffect(dir, r), r.body.systemId);
            && g.journal == f.journal + Appended(f.journal, r) && g.journalSynced == |g.journal|
            && g.journalExists && g.journalLinked == (if f.journalExists then f.journalLinked else true)
            && g.temporary == f.temporary
            && g.versions == (if f.journalExists then f.versions else [Visible(f)])
  {
  }

  // ----- open -----

  function ClearTemporary(f: SystemFiles): SystemFiles { f.(temporary := NoTemporary) }

  /** The state one file holds for the system its name is made from. */
  function LoadOne(id: SystemId, f: SystemFiles): Result<Option<SystemState>, StateError> {
    match Visible(f)
    case NoFile => Ok(None)
    case Torn => Err(NotAState)
    case Text(text) =>
      var state := ParseStateFile(text);
      if state.Err? then Err(state.error)
      else if state.value.systemId != id then Err(WrongFileName)
      else Ok(Some(state.value))
  }

  /** Why put flushes the temporary before it renames it: without that, open could refuse the file. */
  lemma {:induction false} RenameNeedsTheFlush(id: SystemId, f: SystemFiles, text: StateText)
    ensures LoadOne(id, RenameTemporary(WriteTemporary(f, text))) == Err(NotAState)
    ensures Visible(RenameTemporary(FlushTemporary(WriteTemporary(f, text)))) == Text(text)
  {
    var torn := RenameTemporary(WriteTemporary(f, text));
    assert torn.versions[|torn.versions| - 1] == Torn;
  }

  predicate Loadable(dir: Directory) { forall id :: id in dir ==> LoadOne(id, dir[id]).Ok? }

  function Loaded(dir: Directory): map<SystemId, SystemState>
    requires Loadable(dir)
  {
    map id | id in dir && LoadOne(id, dir[id]).value.Some? :: LoadOne(id, dir[id]).value.value
  }

  // ----- receipts -----

  /** Positions from `from` on, at most `limit`, up to the first that is missing. */
  function Collect(bySeq: map<nat, Receipt>, from: nat, to: int, limit: nat): seq<Receipt>
    decreases limit
  {
    if from > to || limit == 0 || from !in bySeq then []
    else [bySeq[from]] + Collect(bySeq, from + 1, to, limit - 1)
  }

  function Window(chain: seq<Receipt>, from: nat, limit: nat): seq<Receipt> {
    if from >= |chain| then [] else chain[from..Min(from + limit, |chain|)]
  }

  lemma {:induction false} CollectSnoc(bySeq: map<nat, Receipt>, from: nat, to: int, limit: nat, k: nat)
    requires k <= limit && from + k <= to + 1
    requires forall s: nat :: from <= s < from + k ==> s in bySeq
    ensures |Collect(bySeq, from, to, k)| == k
    ensures from + k <= to && k < limit && from + k in bySeq ==>
              Collect(bySeq, from, to, k + 1) == Collect(bySeq, from, to, k) + [bySeq[from + k]]
    ensures from + k > to || k == limit || from + k !in bySeq ==>
              Collect(bySeq, from, to, limit) == Collect(bySeq, from, to, k)
    decreases k
  {
    if k > 0 {
      CollectSnoc(bySeq, from + 1, to, limit - 1, k - 1);
    }
  }

  lemma {:induction false} CollectIsWindow(bySeq: map<nat, Receipt>, chain: seq<Receipt>, from: nat, limit: nat)
    requires from < |chain|
    requires forall s: nat :: from <= s < |chain| ==> s in bySeq && bySeq[s] == chain[s]
    ensures Collect(bySeq, from, |chain| - 1, limit) == Window(chain, from, limit)
    decreases limit
  {
    hide Window;
    WindowEnds(chain, from, limit);
    if limit > 0 {
      WindowCons(chain, from, limit);
      if from + 1 < |chain| {
        CollectIsWindow(bySeq, chain, from + 1, limit - 1);
      } else {
        WindowEnds(chain, from + 1, limit - 1);
      }
    }
  }

  lemma {:induction false} WindowEnds(chain: seq<Receipt>, from: nat, limit: nat)
    ensures from >= |chain| || limit == 0 ==> Window(chain, from, limit) == []
  {
  }

  lemma {:induction false} WindowCons(chain: seq<Receipt>, from: nat, limit: nat)
    requires from < |chain| && limit > 0
    ensures Window(chain, from, limit) == [chain[from]] + Window(chain, from + 1, limit - 1)
  {
    var to := Min(from + limit, |chain|);
    assert chain[from..to] == [chain[from]] + chain[from + 1..to];
  }

  /** What the map of receipts() holds before it is collected. */
  function BySeq(entries: seq<Receipt>, known: SystemState, from: nat): map<nat, Receipt>
    requires known.ChainState?
  {
    (map s: nat | from <= s <= known.seq_ && LastAt(entries, s).Some? ::
        LastAt(entries, s).value)[known.seq_ := known.head]
  }

  function ReceiptsOf(entries: seq<Receipt>, known: SystemState, from: nat, limit: nat): seq<Receipt> {
    if known.RetiredSystem? || from > known.seq_ then []
    else Collect(BySeq(entries, known, from), from, known.seq_, limit)
  }

  /**
   * Recovery is exact. Of a chain begun with the journal, the receipts read back
   * are exactly the signed ones; of one begun before it, a contiguous prefix of
   * them: all of them from the first the journal holds, and before that none,
   * the head apart.
   */
  lemma {:induction false} ReceiptsAreTheChain(
      id: SystemId, entries: seq<Receipt>, chain: seq<Receipt>, begun: nat, from: nat, limit: nat)
    requires |chain| > 0 && Holds(entries, chain, begun) && Complete(entries, chain, begun)
    ensures var found := ReceiptsOf(entries, StateOf(id, chain), from, limit);
            && (begun <= from || from == |chain| - 1 ==> found == Window(chain, from, limit))
            && (from < begun && from < |chain| - 1 ==> found == [])
            && found <= Window(chain, from, limit)
  {
    var known := StateOf(id, chain);
    if from < |chain| {
      var bySeq := BySeq(entries, known, from);
      if begun <= from || from == |chain| - 1 {
        forall s: nat | from <= s < |chain|
          ensures s in bySeq && bySeq[s] == chain[s]
        {
          if s < |chain| - 1 {
            assert LastAt(entries, s) == Some(chain[s]);
          }
        }
        CollectIsWindow(bySeq, chain, from, limit);
      } else {
        assert LastAt(entries, from) == None;
      }
    }
  }

  /** The map as filled by the lines read so far. */
  ghost predicate Filled(bySeq: map<nat, Receipt>, read: seq<Receipt>, from: nat, to: nat) {
    bySeq == map s: nat | from <= s <= to && LastAt(read, s).Some? :: LastAt(read, s).value
  }

  lemma {:induction false} FillStep(bySeq: map<nat, Receipt>, read: seq<Receipt>, from: nat, to: nat, r: Receipt)
    requires Filled(bySeq, read, from, to)
    ensures Filled(if from <= r.body.seq_ <= to then bySeq[r.body.seq_ := r] else bySeq, read + [r], from, to)
  {
    forall s: nat
      ensures LastAt(read + [r], s) == if r.body.seq_ == s then Some(r) else LastAt(read, s)
    {
      LastAtSnoc(read, r, s);
    }
  }

  /** split("\n"), one line at a time: a line, and the text after it if there is any. */
  function NextLine(text: string): (string, Option<string>) {
    if NEWLINE in text then
      var i := FirstNewline(text);
      (text[..i], Some(text[i + 1..]))
    else (text, None)
  }

  function EntriesLeft(id: SystemId, rest: Option<string>): seq<Receipt> {
    if rest.Some? then Entries(id, rest.value) else []
  }

  lemma {:induction false} EntriesNext(id: SystemId, text: string)
    ensures var (line, rest) := NextLine(text);
            Entries(id, text) == LineEntry(id, line) + EntriesLeft(id, rest)
            && (rest.Some? ==> |rest.value| < |text|)
  {
  }

  /** What one line does to the map: nothing, unless it is a receipt of this
      system at a position wanted. */
  function TakeLine(bySeq: map<nat, Receipt>, id: SystemId, line: string, from: nat, to: nat): map<nat, Receipt> {
    if |line| == 0 then bySeq
    else
      var parsed := Decode(line);
      if parsed.None? || parsed.value.body.systemId != id then bySeq
      else if from <= parsed.value.body.seq_ <= to then bySeq[parsed.value.body.seq_ := parsed.value]
      else bySeq
  }

  lemma {:induction false} TakeLineFills(
      bySeq: map<nat, Receipt>, read: seq<Receipt>, id: SystemId, line: string, from: nat, to: nat)
    requires Filled(bySeq, read, from, to)
    ensures Filled(TakeLine(bySeq, id, line, from, to), read + LineEntry(id, line), from, to)
  {
    if LineEntry(id, line) == [] {
      assert read + LineEntry(id, line) == read;
    } else {
      FillStep(bySeq, read, from, to, Decode(line).value);
    }
  }

  /** Where the loop stands: `read` lines taken, `rest` still to take. */
  ghost predicate Reading(id: SystemId, text: string, bySeq: map<nat, Receipt>, read: seq<Receipt>,
      rest: Option<string>,
                          from: nat, to: nat) {
    Filled(bySeq, read, from, to) && Entries(id, text) == read + EntriesLeft(id, rest)
  }

  lemma {:induction false} ReadingStep(
      id: SystemId, text: string, bySeq: map<nat, Receipt>, read: seq<Receipt>, rest: string,
                    from: nat, to: nat)
    requires Reading(id, text, bySeq, read, Some(rest), from, to)
    ensures var (line, after) := NextLine(rest);
            Reading(id, text, TakeLine(bySeq, id, line, from, to), read + LineEntry(id, line), after, from, to)
  {
    var (line, after) := NextLine(rest);
    assert Entries(id, rest) == LineEntry(id, line) + EntriesLeft(id, after) by { EntriesNext(id, rest); }
    Regroup(read, LineEntry(id, line), EntriesLeft(id, after));
    TakeLineFills(bySeq, read, id, line, from, to);
  }

  /** The loop over the journal's lines: the last entry of each position wanted. */
  method ReadJournal(id: SystemId, text: string, from: nat, to: nat) returns (bySeq: map<nat, Receipt>)
    ensures Filled(bySeq, Entries(id, text), from, to)
  {
    bySeq := map[];
    var rest := Some(text);
    ghost var read: seq<Receipt> := [];
    assert [] + Entries(id, text) == Entries(id, text);
    while rest.Some?
      invariant Reading(id, text, bySeq, read, rest, from, to)
      decreases if rest.Some? then |rest.value| + 1 else 0
    {
      var (line, after) := NextLine(rest.value);
      ReadingStep(id, text, bySeq, read, rest.value, from, to);
      EntriesNext(id, rest.value);
      bySeq := TakeLine(bySeq, id, line, from, to);
      read := read + LineEntry(id, line);
      rest := after;
    }
    assert read + [] == read;
  }

  /** The loop that collects them, from `from` up to the first that is missing. */
  method CollectFound(bySeq: map<nat, Receipt>, from: nat, to: nat, limit: nat) returns (found: seq<Receipt>)
    ensures found == Collect(bySeq, from, to, limit)
  {
    found := [];
    var s := from;
    while s <= to && |found| < limit
      invariant from <= s && (s <= to + 1 || s == from) && |found| == s - from <= limit
      invariant forall t: nat :: from <= t < s ==> t in bySeq
      invariant found == Collect(bySeq, from, to, s - from)
    {
      CollectSnoc(bySeq, from, to, limit, s - from);
      if s !in bySeq {
        break;
      }
      found := found + [bySeq[s]];
      s := s + 1;
    }
    if from <= to {
      CollectSnoc(bySeq, from, to, limit, s - from);
    }
  }

  // ----- the class -----

  class StateDirectory {
    var dir: Directory
    var systems: map<SystemId, SystemState>

    constructor (dir: Directory, systems: map<SystemId, SystemState>)
      ensures this.dir == dir && this.systems == systems
    {
      this.dir := dir;
      this.systems := systems;
    }

    /** open: every temporary file dropped and every state read into memory, or
        refused because one file is not what the signer could have written. */
    static method Open(dir: Directory) returns (r: Result<StateDirectory, StateError>)
      ensures r.Ok? <==> Loadable(dir)
      ensures r.Ok? ==>
                fresh(r.value) && r.value.systems == Loaded(dir)
                && r.value.dir == map id | id in dir :: ClearTemporary(dir[id])
      ensures r.Err? ==> exists id :: id in dir && LoadOne(id, dir[id]) == Err(r.error)
    {
      hide LoadOne, ClearTemporary;
      var cleared := dir;
      var systems: map<SystemId, SystemState> := map[];
      var rest := dir.Keys;
      while rest != {}
        invariant rest <= dir.Keys == cleared.Keys
        invariant forall id :: id in dir ==> cleared[id] == if id in rest then dir[id] else ClearTemporary(dir[id])
        invariant forall id :: id in dir && id !in rest ==> LoadOne(id, dir[id]).Ok?
        invariant forall id :: id in systems <==>
                    (id in dir && id !in rest && LoadOne(id, dir[id]).value.Some?)
        invariant forall id :: id in systems ==> systems[id] == LoadOne(id, dir[id]).value.value
        decreases rest
      {
        var id :| id in rest;
        rest := rest - {id};
        cleared := cleared[id := ClearTemporary(dir[id])];
        var one := LoadOne(id, dir[id]);
        if one.Err? {
          return Err(one.error);
        }
        if one.value.Some? {
          systems := systems[id := one.value.value];
        }
      }
      assert systems == Loaded(dir);
      assert cleared == map id | id in dir :: ClearTemporary(dir[id]);
      var directory := new StateDirectory(cleared, systems);
      return Ok(directory);
    }

    method Record(receipt: Receipt)
      modifies this`dir
      ensures dir == RecordEffect(old(dir), receipt)
    {
      hide Encode, FlushDirectory;
      var id := receipt.body.systemId;
      var files := FilesOf(dir, id);
      var created := !files.journalExists;
      var separator := "";
      if |files.journal| > 0 && files.journal[|files.journal| - 1] != NEWLINE {
        separator := [NEWLINE];
      }
      assert separator + Encode(receipt) + [NEWLINE] == Appended(files.journal, receipt);
      var written := AppendText(files, separator + Encode(receipt) + [NEWLINE]);
      assert dir[id := written][id := FlushJournal(written)] == dir[id := FlushJournal(written)];
      dir := dir[id := written];
      dir := dir[id := FlushJournal(dir[id])];
      if created {
        dir := FlushDirectory(dir);
      }
    }

    method Put(state: SystemState)
      modifies this
      ensures dir == PutEffect(old(dir), state)
      ensures systems == old(systems)[state.systemId := state]
    {
      var id := state.systemId;
      var files := WriteTemporary(FilesOf(dir, id), Serialize(state));
      files := FlushTemporary(files);
      files := RenameTemporary(files);
      dir := FlushDirectory(dir[id := files]);
      systems := systems[id := state];
    }

    method Receipts(id: SystemId, fromSeq: nat, limit: nat) returns (found: seq<Receipt>)
      ensures id !in systems ==> found == []
      ensures id in systems ==>
                found == ReceiptsOf(Entries(id, FilesOf(dir, id).journal), systems[id], fromSeq, limit)
    {
      if id !in systems || systems[id].RetiredSystem? || fromSeq > systems[id].seq_ {
        return [];
      }
      var known := systems[id];
      var bySeq := ReadJournal(id, FilesOf(dir, id).journal, fromSeq, known.seq_);
      bySeq := bySeq[known.seq_ := known.head];
      assert bySeq == BySeq(Entries(id, FilesOf(dir, id).journal), known, fromSeq);
      found := CollectFound(bySeq, fromSeq, known.seq_, limit);
    }
  }
}
