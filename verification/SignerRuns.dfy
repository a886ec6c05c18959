/**
 * Every run of the signer: requests served one at a time, each signature the end
 * of a sequence of writes, flushes and a rename (apps/signer/src/state.ts, record
 * and put), the process killed or the power cut between any two of them, and the
 * signer started again from what is on disk.
 *
 * A kill leaves what the process had written, flushed or not. A power cut keeps of
 * it what was flushed and an arbitrary part of the rest: a beginning of the
 * journal's unflushed text, the journal's directory entry or not, and some of the
 * renames not yet flushed, in order.
 */
module SignerRuns {
  import opened Prelude
  import opened Merkle
  import opened Receipts
  import opened Journal
  import opened StateDirectory
  import opened Signer

  // ----- the machine -----

  /** The signer's key and tolerance, and what init-from-db left it with. */
  datatype Setup = Setup(key: SignerKey, toleranceMs: nat,
                         migrated: map<SystemId, seq<Receipt>>, retired: map<SystemId, Digest>)

  ghost predicate GoodSetup(su: Setup) {
    forall id :: id in su.migrated ==> |su.migrated[id]| > 0 && IsChain(id, su.migrated[id]) && id !in su.retired
  }

  function Migrated(su: Setup, id: SystemId): seq<Receipt> {
    if id in su.migrated then su.migrated[id] else []
  }

  /** The next action of a signature under way. */
  datatype Stage = WriteJournal | SyncJournal | LinkJournal | WriteTemp | SyncTemp | Rename | SyncRename | Reply

  datatype Process =
    | Down
    | Idle(systems: map<SystemId, SystemState>)
    | Signing(systems: map<SystemId, SystemState>, receipt: Receipt, next: SystemState, created: bool, todo: Stage)

  /** `chains` is history: per system, the chain the visible state file stands
      for, and where its journal begins once a power cut has lost one. `exposed` and
      `issued` are every signature ever sent in a reply. */
  datatype World = World(dir: Directory, process: Process,
                         chains: map<SystemId, seq<Receipt>>, begun: map<SystemId, nat>,
                         exposed: set<Receipt>, issued: set<Checkpoint>)

  /** What a power cut leaves of one system's files. */
  datatype Left = Left(journalChars: nat, linked: bool, version: nat)

  datatype Event =
    | Restart
    | BeginSign(body: Body, clock: int)
    | Advance
    | GetHead(id: SystemId)
    | GetReceipts(id: SystemId, from: nat, limit: nat)
    | GetCheckpoint(id: SystemId, ts: int)
    | KillInWrite(written: nat)
    | Kill
    | PowerCut(left: map<SystemId, Left>)

  function ChainIn(w: World, id: SystemId): seq<Receipt> { if id in w.chains then w.chains[id] else [] }

  /** The first position the journal is to hold: it starts after the migrated chain. */
  function Begun(su: Setup, w: World, id: SystemId): nat {
    if id in w.begun then w.begun[id] else |Migrated(su, id)|
  }

  /** The part of the chain that a power cut is sure to leave. */
  function Durable(w: World, id: SystemId): seq<Receipt> {
    var chain, lost := ChainIn(w, id), |FilesOf(w.dir, id).versions| - 1;
    if 0 <= lost <= |chain| then chain[..|chain| - lost] else []
  }

  predicate LeftOk(f: SystemFiles, l: Left) {
    && f.journalSynced <= l.journalChars <= |f.journal|
    && l.version < |f.versions|
  }

  /** The journal is still under its name. */
  predicate JournalKept(f: SystemFiles, l: Left) { f.journalExists && (f.journalLinked || l.linked) }

  function LeftOf(left: map<SystemId, Left>, id: SystemId, f: SystemFiles): Left {
    if id in left then left[id] else Left(f.journalSynced, false, 0)
  }

  function Cut(f: SystemFiles, l: Left): SystemFiles
    requires LeftOk(f, l)
  {
    var kept := JournalKept(f, l);
    var journal := if kept then f.journal[..l.journalChars] else "";
    SystemFiles(journal, |journal|, kept, kept, NoTemporary, [f.versions[l.version]])
  }

  predicate Enabled(su: Setup, w: World, e: Event) {
    match e
    case Restart => w.process.Down?
    case BeginSign(b, clock) =>
      w.process.Idle? && (var known := Lookup(w.process.systems, b.systemId);
        Decide(known, su.key.keyId, b, clock, su.toleranceMs).None?
        && NextState(known, SignedReceipt(su.key, b)).Some?)
    case Advance => w.process.Signing?
    case GetHead(_) => w.process.Idle?
    case GetReceipts(_, _, _) => w.process.Idle?
    case GetCheckpoint(_, _) => w.process.Idle?
    case KillInWrite(n) =>
      w.process.Signing? && w.process.todo == WriteJournal
      && n <= |Appended(FilesOf(w.dir, w.process.receipt.body.systemId).journal, w.process.receipt)|
    case Kill => !w.process.Down?
    case PowerCut(left) => forall id :: id in w.dir ==> LeftOk(w.dir[id], LeftOf(left, id, w.dir[id]))
  }

  function AdvanceFrom(w: World): World
    requires w.process.Signing?
  {
    var p := w.process;
    var id := p.receipt.body.systemId;
    var f := FilesOf(w.dir, id);
    match p.todo
    case WriteJournal =>
      w.(dir := w.dir[id := AppendText(f, Appended(f.journal, p.receipt))],
         process := p.(created := !f.journalExists, todo := SyncJournal))
    case SyncJournal =>
      w.(dir := w.dir[id := FlushJournal(f)], process := p.(todo := if p.created then LinkJournal else WriteTemp))
    case LinkJournal => w.(dir := FlushDirectory(w.dir), process := p.(todo := WriteTemp))
    case WriteTemp => w.(dir := w.dir[id := WriteTemporary(f, Serialize(p.next))], process := p.(todo := SyncTemp))
    case SyncTemp => w.(dir := w.dir[id := FlushTemporary(f)], process := p.(todo := Rename))
    case Rename =>
      w.(dir := w.dir[id := RenameTemporary(f)], process := p.(todo := SyncRename),
         chains := w.chains[id := ChainIn(w, id) + [p.receipt]])
    case SyncRename => w.(dir := FlushDirectory(w.dir), process := p.(todo := Reply))
    case Reply => w.(process := Idle(p.systems[id := p.next]), exposed := w.exposed + {p.receipt})
  }

  function Apply(su: Setup, w: World, e: Event): World
    requires Enabled(su, w, e)
  {
    match e
    case Restart =>
      if Loadable(w.dir) then
        w.(dir := map id | id in w.dir :: ClearTemporary(w.dir[id]), process := Idle(Loaded(w.dir)))
      else w
    case BeginSign(b, clock) =>
      var r := SignedReceipt(su.key, b);
      var next := NextState(Lookup(w.process.systems, b.systemId), r).value;
      w.(process := Signing(w.process.systems, r, next, false, WriteJournal))
    case Advance => AdvanceFrom(w)
    case GetHead(id) =>
      var known := Lookup(w.process.systems, id);
      if known.Some? && known.value.ChainState? then w.(exposed := w.exposed + {known.value.head}) else w
    case GetReceipts(id, from, limit) =>
      var known := Lookup(w.process.systems, id);
      if known.Some? && known.value.ChainState? then
        var found := ReceiptsOf(Entries(id, FilesOf(w.dir, id).journal), known.value, from, limit);
        w.(exposed := w.exposed + set r | r in found)
      else w
    case GetCheckpoint(id, ts) =>
      var known := Lookup(w.process.systems, id);
      if known.Some? && known.value.ChainState? then
        w.(issued := w.issued + {CheckpointOver(su.key, id, known.value, ts)})
      else w
    case KillInWrite(n) =>
      var r := w.process.receipt;
      var f := FilesOf(w.dir, r.body.systemId);
      w.(dir := w.dir[r.body.systemId := AppendText(f, Appended(f.journal, r)[..n])], process := Down)
    case Kill => w.(process := Down)
    case PowerCut(left) =>
      World(map id | id in w.dir :: Cut(w.dir[id], LeftOf(left, id, w.dir[id])), Down,
            map id | id in w.chains :: CutChain(w, left, id),
            map id | id in w.begun.Keys + w.dir.Keys :: CutBegun(su, w, left, id), w.exposed, w.issued)
  }

  /** The chain the surviving version of the state file stands for. */
  function CutChain(w: World, left: map<SystemId, Left>, id: SystemId): seq<Receipt> {
    var chain, f := ChainIn(w, id), FilesOf(w.dir, id);
    var lost := |f.versions| - 1 - LeftOf(left, id, f).version;
    if 0 <= lost <= |chain| then chain[..|chain| - lost] else []
  }

  /** Where the journal left begins: one that is lost begins anew, after the chain left. */
  function CutBegun(su: Setup, w: World, left: map<SystemId, Left>, id: SystemId): nat {
    var f := FilesOf(w.dir, id);
    if id in w.dir && !JournalKept(f, LeftOf(left, id, f)) then |CutChain(w, left, id)| else Begun(su, w, id)
  }

  // ----- the state of the files -----

  ghost function ContentFor(su: Setup, id: SystemId, chain: seq<Receipt>): Content {
    var known := Knows(id, chain, su.retired);
    if known.Some? then Text(Serialize(known.value)) else NoFile
  }

  /** Version i is the state of the chain as long as it was that many renames ago. */
  ghost predicate VersionsInv(su: Setup, id: SystemId, versions: seq<Content>, chain: seq<Receipt>) {
    && 1 <= |versions| && |versions| - 1 <= |chain| - |Migrated(su, id)|
    && forall i :: 0 <= i < |versions| ==>
         versions[i] == ContentFor(su, id, chain[..|chain| - (|versions| - 1 - i)])
  }

  ghost predicate JournalSays(id: SystemId, text: string, chain: seq<Receipt>, begun: nat) {
    Holds(Entries(id, text), chain, begun) && Complete(Entries(id, text), chain, begun)
  }

  /** Whatever beginning of the journal a power cut leaves, it holds the chain. */
  ghost predicate JournalInv(id: SystemId, f: SystemFiles, chain: seq<Receipt>, begun: nat) {
    && f.journalSynced <= |f.journal|
    && (f.journalLinked ==> f.journalExists)
    && (!f.journalExists ==> f.journal == "")
    && begun <= |chain| - (|f.versions| - 1) <= |chain|
    && (!f.journalLinked ==> |chain| - (|f.versions| - 1) == begun)
    && forall n :: f.journalSynced <= n <= |f.journal| ==> JournalSays(id, f.journal[..n], chain, begun)
  }

  ghost predicate ChainInv(su: Setup, id: SystemId, chain: seq<Receipt>) {
    && IsChain(id, chain)
    && Migrated(su, id) <= chain
    && ClockOrdered(chain, |Migrated(su, id)|)
    && (id in su.retired ==> chain == [])
  }

  ghost predicate FilesInv(su: Setup, id: SystemId, f: SystemFiles, chain: seq<Receipt>, begun: nat) {
    && ChainInv(su, id, chain)
    && VersionsInv(su, id, f.versions, chain)
    && JournalInv(id, f, chain, begun) && |Migrated(su, id)| <= begun
  }

  ghost predicate DiskInv(su: Setup, w: World) {
    forall id :: FilesInv(su, id, FilesOf(w.dir, id), ChainIn(w, id), Begun(su, w, id))
  }

  // ----- the state of the process -----

  /** A receipt under way: the next of its chain, and what will be remembered of it. */
  ghost predicate NextInv(su: Setup, before: seq<Receipt>, r: Receipt, next: SystemState) {
    var id := r.body.systemId;
    && ChainInv(su, id, before + [r])
    && r.body.seq_ == |before| >= |Migrated(su, id)|
    && next == StateOf(id, before + [r])
  }

  /** What the steps already taken have left on disk. */
  ghost predicate StageInv(
      f: SystemFiles, before: seq<Receipt>, begun: nat, r: Receipt, next: SystemState, todo: Stage) {
    var id := r.body.systemId;
    && (todo in {SyncJournal, LinkJournal, WriteTemp, SyncTemp, Rename} ==>
          f.journalExists && JournalSays(id, f.journal, before + [r], begun))
    && (todo in {LinkJournal, WriteTemp, SyncTemp, Rename} ==> f.journalSynced == |f.journal|)
    && (todo == SyncTemp ==> f.temporary == Temporary(Serialize(next), false))
    && (todo == Rename ==> f.temporary == Temporary(Serialize(next), true))
  }

  predicate Renamed(todo: Stage) { todo == SyncRename || todo == Reply }

  /** The chain the memory stands for: the receipt being signed is not in it yet. */
  function InMemory(w: World, id: SystemId): seq<Receipt> {
    var chain := ChainIn(w, id);
    if w.process.Signing? && id == w.process.receipt.body.systemId && Renamed(w.process.todo) && |chain| > 0
    then chain[..|chain| - 1] else chain
  }

  ghost predicate MemoryInv(su: Setup, w: World)
    requires !w.process.Down?
  {
    forall id :: Lookup(w.process.systems, id) == Knows(id, InMemory(w, id), su.retired)
  }

  ghost predicate SigningInv(su: Setup, w: World)
    requires w.process.Signing?
  {
    var p := w.process;
    var id := p.receipt.body.systemId;
    && NextInv(su, InMemory(w, id), p.receipt, p.next)
    && (Renamed(p.todo) ==> ChainIn(w, id) == InMemory(w, id) + [p.receipt])
    && StageInv(FilesOf(w.dir, id), InMemory(w, id), Begun(su, w, id), p.receipt, p.next, p.todo)
    && (p.todo == Reply ==> forall i :: Settled(w, i))
  }

  ghost predicate Inv(su: Setup, w: World) {
    && GoodSetup(su)
    && DiskInv(su, w)
    && (!w.process.Down? ==> MemoryInv(su, w))
    && (w.process.Signing? ==> SigningInv(su, w))
  }

  /** Nothing about the system's state file is still to be flushed. */
  predicate Settled(w: World, id: SystemId) { |FilesOf(w.dir, id).versions| == 1 }

  // ----- what was replied -----

  ghost predicate ExposedInv(w: World) {
    forall r :: r in w.exposed ==> Remembered(w, r)
  }

  /** The receipt is in the part of its chain that no power cut can take away. */
  ghost predicate Remembered(w: World, r: Receipt) {
    var d := Durable(w, r.body.systemId);
    r.body.seq_ < |d| && d[r.body.seq_] == r
  }

  /** The checkpoint is over a beginning of the chain no power cut can take away. */
  ghost predicate Covered(su: Setup, w: World, c: Checkpoint) {
    var d := Durable(w, c.body.systemId);
    && 1 <= c.body.treeSize <= |d|
    && c.body.rootHash == Root(Hashes(d[..c.body.treeSize]))
    && c.body.keyId == su.key.keyId
  }

  ghost predicate IssuedInv(su: Setup, w: World) {
    forall c :: c in w.issued ==> Covered(su, w, c)
  }
}
