/** What the invariant gives over whole runs: no fork, exact recovery, checkpoints
    over one growing chain; and the one order of events in which a signature that
    was replied can still be lost. */
module SignerTheorems {
  import opened Merkle
  import opened Frontier
  import opened Receipts
  import opened Journal
  import opened StateDirectory
  import opened Signer
  import opened SignerRuns
  import opened SignerSafety

  // ----- runs -----

  /** The world init-from-db leaves: every migrated chain settled on disk, its
      receipts long since replied, no journal, and the retired systems named. */
  ghost function InitialFiles(su: Setup, id: SystemId): SystemFiles {
    SystemFiles("", 0, false, false, NoTemporary, [ContentFor(su, id, Migrated(su, id))])
  }

  ghost predicate Initial(su: Setup, w: World) {
    && GoodSetup(su)
    && w.process == Down
    && w.chains == su.migrated && w.begun == map[]
    && (forall id :: FilesOf(w.dir, id) == InitialFiles(su, id))
    && (forall r :: r in w.exposed ==> r in Migrated(su, r.body.systemId))
    && w.issued == {}
  }

  ghost predicate Admissible(su: Setup, w: World, es: seq<Event>)
    decreases |es|
  {
    es == [] || (Enabled(su, w, es[0]) && Admissible(su, Apply(su, w, es[0]), es[1..]))
  }

  ghost function Run(su: Setup, w: World, es: seq<Event>): World
    requires Admissible(su, w, es)
    decreases |es|
  {
    if es == [] then w else Run(su, Apply(su, w, es[0]), es[1..])
  }

  /** What GET_RECEIPTS answers. */
  function Found(w: World, id: SystemId, from: nat, limit: nat): seq<Receipt>
    requires w.process.Idle?
  {
    var known := Lookup(w.process.systems, id);
    if known.Some? && known.value.ChainState?
    then ReceiptsOf(Entries(id, FilesOf(w.dir, id).journal), known.value, from, limit)
    else []
  }

  /** A head or a checkpoint is read from memory while nothing of that system's
      state file is still to be flushed; receipts are of the part that is flushed. */
  predicate ReplySettled(w: World, e: Event) {
    match e
    case GetHead(id) => Settled(w, id)
    case GetReceipts(id, from, limit) =>
      w.process.Idle? ==>
        var found := Found(w, id, from, limit);
        found == [] || from + |found| <= |Durable(w, id)|
    case GetCheckpoint(id, _) => Settled(w, id)
    case _ => true
  }

  ghost predicate RepliesSettled(su: Setup, w: World, es: seq<Event>)
    requires Admissible(su, w, es)
    decreases |es|
  {
    es == [] || (ReplySettled(w, es[0]) && RepliesSettled(su, Apply(su, w, es[0]), es[1..]))
  }

  lemma {:induction false} InitialDisk(su: Setup, w: World, id: SystemId)
    requires Initial(su, w)
    ensures FilesInv(su, id, FilesOf(w.dir, id), ChainIn(w, id), Begun(su, w, id))
    ensures Durable(w, id) == ChainIn(w, id) == Migrated(su, id)
  {
    hide ContentFor, JournalSays;
    var chain := Migrated(su, id);
    assert FilesOf(w.dir, id) == InitialFiles(su, id);
    assert chain[..|chain|] == chain;
    EmptySays(id, chain, |chain|);
  }

  lemma {:induction false} InitialRemembered(su: Setup, w: World, r: Receipt)
    requires Initial(su, w) && r in w.exposed
    ensures Remembered(w, r)
  {
    var id := r.body.systemId;
    InitialDisk(su, w, id);
    var chain := Migrated(su, id);
    var i :| 0 <= i < |chain| && chain[i] == r;
    assert chain[i].body.seq_ == i;
  }

  lemma {:induction false} InitialInv(su: Setup, w: World)
    requires Initial(su, w)
    ensures Inv(su, w) && ExposedInv(w) && IssuedInv(su, w)
  {
    hide FilesInv, Remembered, InitialFiles;
    forall id
      ensures FilesInv(su, id, FilesOf(w.dir, id), ChainIn(w, id), Begun(su, w, id))
    {
      InitialDisk(su, w, id);
    }
    forall r | r in w.exposed
      ensures Remembered(w, r)
    {
      InitialRemembered(su, w, r);
    }
  }

  // ----- the chain only grows -----

  /** A step never shortens, and never rewrites, what a power cut is sure to leave. */
  lemma {:induction false} DurableGrows(su: Setup, w: World, e: Event, id: SystemId)
    requires Inv(su, w) && Enabled(su, w, e)
    ensures Durable(w, id) <= Durable(Apply(su, w, e), id)
  {
    hide Durable, DiskInv, MemoryInv, SigningInv, Decide, NextState, AdvanceFrom, Cut, CutChain, CutBegun, Loadable,
        Loaded,
      LoadOne, ReceiptsOf, Entries, CheckpointOver, Appended, SignedReceipt, LeftOk, LeftOf;
    match e
    case PowerCut(left) => DurableCut(su, w, left, id);
    case Advance => DurableAdvance(su, w, id);
    case Restart =>
      RestartSucceeds(su, w);
      assert FilesOf(Apply(su, w, e).dir, id) == ClearTemporary(FilesOf(w.dir, id));
      DurableSame(w, Apply(su, w, e), id);
    case _ => DurableSame(w, Apply(su, w, e), id);
  }

  lemma {:induction false} DurableSame(w: World, v: World, id: SystemId)
    requires FilesOf(v.dir, id).versions == FilesOf(w.dir, id).versions && v.chains == w.chains
    ensures Durable(v, id) == Durable(w, id)
  {
  }

  lemma {:induction false} DurableFlush(su: Setup, w: World, id: SystemId)
    requires DiskInv(su, w)
    ensures Durable(w, id) <= ChainIn(w, id) == Durable(w.(dir := FlushDirectory(w.dir)), id)
  {
    hide ChainInv, JournalInv, ContentFor, FlushDirectory;
    assert FilesInv(su, id, FilesOf(w.dir, id), ChainIn(w, id), Begun(su, w, id));
    FlushDirectoryKeeps(su, w);
    assert ChainIn(w, id)[..|ChainIn(w, id)|] == ChainIn(w, id);
  }

  lemma {:induction false} DurableRename(su: Setup, w: World, id: SystemId)
    requires Inv(su, w) && w.process.Signing? && w.process.todo == Rename
    ensures Durable(w, id) == Durable(AdvanceFrom(w), id)
  {
    hide ChainInv, JournalInv, ContentFor, MemoryInv, NextInv, JournalSays, Serialize;
    var chain, lost := ChainIn(w, id), |FilesOf(w.dir, id).versions| - 1;
    assert FilesInv(su, id, FilesOf(w.dir, id), chain, Begun(su, w, id));
    if id == w.process.receipt.body.systemId {
      assert (chain + [w.process.receipt])[..|chain| - lost] == chain[..|chain| - lost];
    }
  }

  lemma {:induction false} DurableAdvance(su: Setup, w: World, id: SystemId)
    requires Inv(su, w) && w.process.Signing?
    ensures Durable(w, id) <= Durable(AdvanceFrom(w), id)
  {
    hide DiskInv, MemoryInv, SigningInv, Serialize, FlushDirectory, Appended;
    DurableFlush(su, w, id);
    if w.process.todo == Rename {
      DurableRename(su, w, id);
    }
  }

  lemma {:induction false} CutSettles(su: Setup, w: World, left: map<SystemId, Left>, id: SystemId)
    requires Enabled(su, w, PowerCut(left))
    ensures Settled(Apply(su, w, PowerCut(left)), id)
  {
    hide LeftOf, JournalKept, CutChain, CutBegun;
  }

  lemma {:induction false} DurableIsPrefix(su: Setup, w: World, id: SystemId)
    requires DiskInv(su, w)
    ensures Durable(w, id) == ChainIn(w, id)[..|Durable(w, id)|] && |Durable(w, id)| <= |ChainIn(w, id)|
    ensures |Durable(w, id)| == |ChainIn(w, id)| - (|FilesOf(w.dir, id).versions| - 1)
  {
    hide ChainInv, JournalInv, ContentFor;
    assert FilesInv(su, id, FilesOf(w.dir, id), ChainIn(w, id), Begun(su, w, id));
  }

  lemma {:induction false} DurableCut(su: Setup, w: World, left: map<SystemId, Left>, id: SystemId)
    requires Inv(su, w) && Enabled(su, w, PowerCut(left))
    ensures var v := Apply(su, w, PowerCut(left)); Durable(w, id) <= Durable(v, id) == ChainIn(v, id) <= ChainIn(w, id)
  {
    hide Apply, DiskInv, MemoryInv, SigningInv;
    var v := Apply(su, w, PowerCut(left));
    DurableIsPrefix(su, w, id);
    CutChainIn(su, w, left, id);
    CutSettles(su, w, left, id);
    assert ChainIn(v, id)[..|ChainIn(v, id)|] == ChainIn(v, id);
  }

  // ----- every reply is of the one chain -----

  lemma {:induction false} RememberedGrows(w: World, v: World, r: Receipt)
    requires Remembered(w, r) && Durable(w, r.body.systemId) <= Durable(v, r.body.systemId)
    ensures Remembered(v, r)
  {
  }

  lemma {:induction false} CoveredGrows(su: Setup, w: World, v: World, c: Checkpoint)
    requires Covered(su, w, c) && Durable(w, c.body.systemId) <= Durable(v, c.body.systemId)
    ensures Covered(su, v, c)
  {
    var n := c.body.treeSize;
    assert Durable(v, c.body.systemId)[..n] == Durable(w, c.body.systemId)[..n];
  }

  lemma {:induction false} SettledIsDurable(su: Setup, w: World, id: SystemId)
    requires DiskInv(su, w) && Settled(w, id)
    ensures Durable(w, id) == ChainIn(w, id) && ChainInv(su, id, ChainIn(w, id))
  {
    var chain := ChainIn(w, id);
    assert FilesInv(su, id, FilesOf(w.dir, id), chain, Begun(su, w, id));
    assert chain[..|chain|] == chain;
  }

  lemma {:induction false} HeadIsRemembered(su: Setup, w: World, id: SystemId)
    requires Inv(su, w) && w.process.Idle? && Settled(w, id) && |ChainIn(w, id)| > 0
    ensures id in w.process.systems && w.process.systems[id].ChainState?
    ensures Remembered(w, w.process.systems[id].head)
  {
    hide FilesInv, MemoryInv, FrontierOf, ChainInv;
    ReplyFromMemory(su, w, id);
    SettledIsDurable(su, w, id);
  }

  /** What GET_RECEIPTS answers are receipts of the chain, each at its position. */
  lemma {:induction false} FoundIsOfChain(su: Setup, w: World, id: SystemId, from: nat, limit: nat, k: nat)
    requires Inv(su, w) && w.process.Idle? && k < |Found(w, id, from, limit)|
    ensures var found := Found(w, id, from, limit);
            from + |found| <= |ChainIn(w, id)| && found[k] == ChainIn(w, id)[from + k]
            && found[k].body.systemId == id && found[k].body.seq_ == from + k
  {
    hide FilesInv, MemoryInv, ReceiptsOf, ChainInv, Entries;
    var chain, found := ChainIn(w, id), Found(w, id, from, limit);
    ReplyFromMemory(su, w, id);
    GetReceiptsIsExact(su, w, id, from, limit);
    assert found[k] == Window(chain, from, limit)[k] == chain[from + k];
  }

  lemma {:induction false} FoundIsRemembered(su: Setup, w: World, id: SystemId, from: nat, limit: nat, r: Receipt)
    requires Inv(su, w) && w.process.Idle?
    requires r in Found(w, id, from, limit) && from + |Found(w, id, from, limit)| <= |Durable(w, id)|
    ensures Remembered(w, r)
  {
    hide Inv, Found, Durable;
    var k :| 0 <= k < |Found(w, id, from, limit)| && Found(w, id, from, limit)[k] == r;
    FoundIsOfChain(su, w, id, from, limit, k);
    DurableIsChain(su, w, id);
  }

  /** What a settled step newly exposes is remembered already. */
  lemma {:induction false} NewlyExposed(su: Setup, w: World, e: Event, r: Receipt)
    requires Inv(su, w) && Enabled(su, w, e) && ReplySettled(w, e)
    requires r in Apply(su, w, e).exposed && r !in w.exposed
    ensures Remembered(w, r)
  {
    hide Inv, Remembered, Decide, NextState, ReceiptsOf, StateOf;
    match e
    case GetHead(id) =>
      ReplyFromMemory(su, w, id);
      HeadIsRemembered(su, w, id);
    case GetReceipts(id, from, limit) =>
      FoundIsRemembered(su, w, id, from, limit, r);
    case Advance =>
      SignedIsRemembered(su, w);
    case _ =>
  }

  lemma {:induction false} SignedIsRemembered(su: Setup, w: World)
    requires Inv(su, w) && w.process.Signing? && w.process.todo == Reply
    ensures Remembered(w, w.process.receipt)
  {
    hide FilesInv, StageInv, StateOf, MemoryInv;
    var r := w.process.receipt;
    assert Settled(w, r.body.systemId);
    SettledIsDurable(su, w, r.body.systemId);
  }

  /** Whoever is idle answers from the chain: the head is its last receipt. */
  lemma {:induction false} ReplyFromMemory(su: Setup, w: World, id: SystemId)
    requires Inv(su, w) && w.process.Idle?
    ensures Lookup(w.process.systems, id) == Knows(id, ChainIn(w, id), su.retired)
    ensures |ChainIn(w, id)| > 0 ==> w.process.systems[id].head == ChainIn(w, id)[|ChainIn(w, id)| - 1]
    ensures ChainInv(su, id, ChainIn(w, id))
    ensures forall i :: 0 <= i < |ChainIn(w, id)| ==>
              ChainIn(w, id)[i].body.systemId == id && ChainIn(w, id)[i].body.seq_ == i
  {
    hide VersionsInv, JournalInv, FrontierOf;
    assert FilesInv(su, id, FilesOf(w.dir, id), ChainIn(w, id), Begun(su, w, id));
    assert InMemory(w, id) == ChainIn(w, id);
  }

  /**
   * Recovery is exact, in every reachable state, whatever crashes left in the
   * journal: of a chain begun with it, GET_RECEIPTS answers exactly the signed
   * receipts from `from` on, at most `limit` of them.
   */
  lemma {:induction false} GetReceiptsIsExact(su: Setup, w: World, id: SystemId, from: nat, limit: nat)
    requires Inv(su, w) && w.process.Idle? && |ChainIn(w, id)| > 0
    ensures id in w.process.systems
    ensures var chain := ChainIn(w, id);
            var found := ReceiptsOf(Entries(id, FilesOf(w.dir, id).journal), w.process.systems[id], from, limit);
            && (Begun(su, w, id) <= from || from == |chain| - 1 ==> found == Window(chain, from, limit))
            && found <= Window(chain, from, limit)
  {
    var chain, f := ChainIn(w, id), FilesOf(w.dir, id);
    ReplyFromMemory(su, w, id);
    assert JournalSays(id, f.journal, chain, Begun(su, w, id)) by {
      assert FilesInv(su, id, f, chain, Begun(su, w, id));
      assert f.journal[..|f.journal|] == f.journal;
    }
    ReceiptsAreTheChain(id, Entries(id, f.journal), chain, Begun(su, w, id), from, limit);
  }

  /** The cut keeps the name of every journal it keeps a later rename of. */
  predicate KeepsJournals(w: World, e: Event) {
    e.PowerCut? ==>
      forall id :: id in w.dir && LeftOf(e.left, id, w.dir[id]).version > 0 ==>
        JournalKept(w.dir[id], LeftOf(e.left, id, w.dir[id]))
  }

  ghost predicate JournalsKept(su: Setup, w: World, es: seq<Event>)
    requires Admissible(su, w, es)
    decreases |es|
  {
    es == [] || (KeepsJournals(w, es[0]) && JournalsKept(su, Apply(su, w, es[0]), es[1..]))
  }

  /** A journal begins later after a power cut exactly when the cut kept a rename,
      and lost the name of the journal it came after. */
  lemma {:induction false} JournalBeginsLaterIff(su: Setup, w: World, left: map<SystemId, Left>, id: SystemId)
    requires Inv(su, w) && Enabled(su, w, PowerCut(left))
    ensures var f := FilesOf(w.dir, id); var l := LeftOf(left, id, f);
            Begun(su, Apply(su, w, PowerCut(left)), id) != Begun(su, w, id)
            <==> id in w.dir && l.version > 0 && !f.journalLinked && !l.linked
  {
    hide ChainInv, ContentFor, JournalSays, MemoryInv, SigningInv, Cut, CutChain, CutBegun, Begun;
    var f := FilesOf(w.dir, id);
    assert FilesInv(su, id, f, ChainIn(w, id), Begun(su, w, id));
    CutChainIn(su, w, left, id);
    CutBegunIn(su, w, left, id);
    if !f.journalExists {
      JournalMissing(id, f, ChainIn(w, id), Begun(su, w, id));
    }
  }

  lemma {:induction false} BegunStays(su: Setup, w: World, e: Event, id: SystemId)
    requires Inv(su, w) && Enabled(su, w, e) && KeepsJournals(w, e)
    ensures Begun(su, Apply(su, w, e), id) == Begun(su, w, id)
  {
    hide Inv, LeftOf, LeftOk, Decide, NextState, CutBegun, CutChain, Cut, Loadable, Loaded;
    if e.PowerCut? {
      JournalBeginsLaterIff(su, w, e.left, id);
    }
  }

  lemma {:induction false} JournalsBeginWithTheirChains(su: Setup, w: World, es: seq<Event>, id: SystemId)
    requires JsonLines() && Inv(su, w) && Admissible(su, w, es) && JournalsKept(su, w, es)
    ensures Begun(su, Run(su, w, es), id) == Begun(su, w, id)
    decreases |es|
  {
    hide Inv, Enabled, Apply, KeepsJournals, Begun;
    if es != [] {
      BegunStays(su, w, es[0], id);
      StepKeeps(su, w, es[0]);
      JournalsBeginWithTheirChains(su, Apply(su, w, es[0]), es[1..], id);
    }
  }

  /**
   * So over every run whose power cuts lose no journal's name under a later
   * rename, a chain begun with its journal is answered exactly, from any position.
   */
  lemma {:induction false} RecoveryIsExact(su: Setup, w: World, es: seq<Event>, id: SystemId, from: nat, limit: nat)
    requires JsonLines() && Initial(su, w) && Admissible(su, w, es) && JournalsKept(su, w, es)
    requires Run(su, w, es).process.Idle? && |Migrated(su, id)| <= from
    ensures Found(Run(su, w, es), id, from, limit) == Window(ChainIn(Run(su, w, es), id), from, limit)
  {
    hide Inv, Entries, ReceiptsOf, Window;
    InitialInv(su, w);
    RunKeeps(su, w, es);
    JournalsBeginWithTheirChains(su, w, es, id);
    var v := Run(su, w, es);
    if |ChainIn(v, id)| > 0 {
      GetReceiptsIsExact(su, v, id, from, limit);
      ChainIsKnown(su, v, id);
    } else {
      ReplyFromMemory(su, v, id);
      WindowEnds([], from, limit);
    }
  }

  lemma {:induction false} CheckpointIsCovered(su: Setup, w: World, id: SystemId, ts: int)
    requires Inv(su, w) && w.process.Idle? && Settled(w, id) && |ChainIn(w, id)| > 0
    requires id in w.process.systems && w.process.systems[id].ChainState?
    ensures Covered(su, w, CheckpointOver(su.key, id, w.process.systems[id], ts))
  {
    hide FilesInv, MemoryInv, ChainInv, FrontierOf, RootOfFrontier, Root, Hashes;
    ReplyFromMemory(su, w, id);
    SettledIsDurable(su, w, id);
    var chain := ChainIn(w, id);
    CheckpointCoversChain(su.key, id, chain, ts);
    assert chain[..|chain|] == chain;
  }

  lemma {:induction false} NewlyIssued(su: Setup, w: World, e: Event, c: Checkpoint)
    requires Inv(su, w) && Enabled(su, w, e) && ReplySettled(w, e)
    requires c in Apply(su, w, e).issued && c !in w.issued
    ensures Covered(su, w, c)
  {
    hide Inv, Decide, NextState, Covered, CheckpointOver, StateOf;
    match e
    case GetCheckpoint(id, ts) =>
      ReplyFromMemory(su, w, id);
      CheckpointIsCovered(su, w, id, ts);
    case _ =>
  }

  /** What every step keeps, once its reply is settled. */
  lemma {:induction false} ReplyKeepsRecord(su: Setup, w: World, e: Event)
    requires JsonLines() && Inv(su, w) && ExposedInv(w) && IssuedInv(su, w)
    requires Enabled(su, w, e) && ReplySettled(w, e)
    ensures ExposedInv(Apply(su, w, e)) && IssuedInv(su, Apply(su, w, e))
  {
    hide Inv, Remembered, Covered, Enabled, Apply, ReplySettled;
    var v := Apply(su, w, e);
    forall r | r in v.exposed
      ensures Remembered(v, r)
    {
      DurableGrows(su, w, e, r.body.systemId);
      if r !in w.exposed {
        NewlyExposed(su, w, e, r);
      }
      RememberedGrows(w, v, r);
    }
    forall c | c in v.issued
      ensures Covered(su, v, c)
    {
      DurableGrows(su, w, e, c.body.systemId);
      if c !in w.issued {
        NewlyIssued(su, w, e, c);
      }
      CoveredGrows(su, w, v, c);
    }
  }

  /** Over every run. */
  lemma {:induction false} RunKeeps(su: Setup, w: World, es: seq<Event>)
    requires JsonLines() && Inv(su, w) && Admissible(su, w, es)
    ensures Inv(su, Run(su, w, es))
    ensures ExposedInv(w) && IssuedInv(su, w) && RepliesSettled(su, w, es) ==>
              ExposedInv(Run(su, w, es)) && IssuedInv(su, Run(su, w, es))
    decreases |es|
  {
    hide Inv, ExposedInv, IssuedInv, Enabled, Apply, ReplySettled;
    if es != [] {
      StepKeeps(su, w, es[0]);
      if ExposedInv(w) && IssuedInv(su, w) && RepliesSettled(su, w, es) {
        ReplyKeepsRecord(su, w, es[0]);
      }
      RunKeeps(su, Apply(su, w, es[0]), es[1..]);
    }
  }

  // ----- the theorems -----

  /** Everything a set of receipts says when it is of one hash chain per system. */
  ghost predicate OneChain(su: Setup, exposed: set<Receipt>) {
    && (forall a, b :: a in exposed && b in exposed && a.body.systemId == b.body.systemId ==>
          a.body.seq_ == b.body.seq_ ==> a == b)
    && (forall a, b :: a in exposed && b in exposed && a.body.systemId == b.body.systemId ==>
          b.body.seq_ == a.body.seq_ + 1 ==>
          b.body.prevHash == ReceiptHash(a.body)
          && (b.body.seq_ >= |Migrated(su, b.body.systemId)| ==> a.body.tsReceived <= b.body.tsReceived))
    && (forall a :: a in exposed ==> a.body.systemId !in su.retired)
  }

  /**
   * No fork. Over every run from what the migration left, however often the
   * process is killed or the power cut, and at whatever step: of all the receipts
   * ever replied there is one per system and position, each linked to the one
   * before and not received before it; and a retired system has none.
   */
  lemma {:induction false} NoFork(su: Setup, w: World, es: seq<Event>)
    requires JsonLines() && Initial(su, w) && Admissible(su, w, es) && RepliesSettled(su, w, es)
    ensures OneChain(su, Run(su, w, es).exposed)
  {
    InitialInv(su, w);
    RunKeeps(su, w, es);
    RecordIsOneChain(su, Run(su, w, es));
  }

  lemma {:induction false} OneLink(su: Setup, v: World, a: Receipt, b: Receipt)
    requires Inv(su, v) && Remembered(v, a) && Remembered(v, b)
    requires a.body.systemId == b.body.systemId && b.body.seq_ == a.body.seq_ + 1
    ensures b.body.prevHash == ReceiptHash(a.body)
    ensures b.body.seq_ >= |Migrated(su, b.body.systemId)| ==> a.body.tsReceived <= b.body.tsReceived
  {
    hide Inv, Durable, ReceiptHash;
    DurableIsChain(su, v, a.body.systemId);
    var d := Durable(v, a.body.systemId);
    assert d[b.body.seq_].body.prevHash == ExpectedPrev(d, b.body.seq_);
  }

  lemma {:induction false} NotRetired(su: Setup, v: World, a: Receipt)
    requires Inv(su, v) && Remembered(v, a)
    ensures a.body.systemId !in su.retired
  {
    hide Inv, Durable;
    DurableIsChain(su, v, a.body.systemId);
  }

  lemma {:induction false} RecordIsOneChain(su: Setup, v: World)
    requires Inv(su, v) && ExposedInv(v)
    ensures OneChain(su, v.exposed)
  {
    hide Inv, Durable;
    forall a, b | a in v.exposed && b in v.exposed && a.body.systemId == b.body.systemId
        && b.body.seq_ == a.body.seq_ + 1
      ensures b.body.prevHash == ReceiptHash(a.body)
      ensures b.body.seq_ >= |Migrated(su, b.body.systemId)| ==> a.body.tsReceived <= b.body.tsReceived
    {
      OneLink(su, v, a, b);
    }
    forall a | a in v.exposed
      ensures a.body.systemId !in su.retired
    {
      NotRetired(su, v, a);
    }
  }

  lemma {:induction false} DurableIsChain(su: Setup, v: World, id: SystemId)
    requires Inv(su, v)
    ensures ChainInv(su, id, Durable(v, id)) && Durable(v, id) <= ChainIn(v, id)
  {
    assert FilesInv(su, id, FilesOf(v.dir, id), ChainIn(v, id), Begun(su, v, id));
    ChainInvPrefix(su, id, ChainIn(v, id), |ChainIn(v, id)| - (|FilesOf(v.dir, id).versions| - 1));
  }

  lemma {:induction false} RestartHasTheRecord(su: Setup, w: World, r: Receipt)
    requires Inv(su, w) && ExposedInv(w) && w.process.Down? && r in w.exposed
    ensures HeadAtOrPast(Apply(su, w, Restart), r)
  {
    hide FilesInv, FrontierOf, Loaded, Durable, ChainInv;
    var id := r.body.systemId;
    RestartKeeps(su, w);
    RestartSucceeds(su, w);
    DurableIsChain(su, w, id);
    assert Remembered(w, r);
    assert Lookup(Loaded(w.dir), id) == Knows(id, ChainIn(w, id), su.retired);
  }

  /** The signer is up, with a head of the receipt's system at or past the receipt. */
  ghost predicate HeadAtOrPast(v: World, r: Receipt) {
    && v.process.Idle? && r.body.systemId in v.process.systems
    && (var known := v.process.systems[r.body.systemId];
        known.ChainState? && known.seq_ >= r.body.seq_ && (known.seq_ == r.body.seq_ ==> known.head == r))
  }

  /** After any crash, of any run, the signer starts, and its head is at or past
      every receipt it ever replied. */
  lemma {:induction false} RestartRemembers(su: Setup, w: World, es: seq<Event>, r: Receipt)
    requires JsonLines() && Initial(su, w) && Admissible(su, w, es) && RepliesSettled(su, w, es)
    requires Run(su, w, es).process.Down? && r in Run(su, w, es).exposed
    ensures Enabled(su, Run(su, w, es), Restart) && HeadAtOrPast(Apply(su, Run(su, w, es), Restart), r)
  {
    hide Inv, ExposedInv, HeadAtOrPast, Initial;
    InitialInv(su, w);
    RunKeeps(su, w, es);
    RestartHasTheRecord(su, Run(su, w, es), r);
  }

  /** Any two checkpoints ever issued for a system are over two beginnings of the one
      chain the signer keeps, as far as no power cut can shorten it. */
  lemma {:induction false} CheckpointsArePrefixes(
      su: Setup, w: World, es: seq<Event>, c: Checkpoint, d: Checkpoint)
    requires JsonLines() && Initial(su, w) && Admissible(su, w, es) && RepliesSettled(su, w, es)
    requires c in Run(su, w, es).issued && d in Run(su, w, es).issued && c.body.systemId == d.body.systemId
    ensures var chain := Durable(Run(su, w, es), c.body.systemId);
            && IsChain(c.body.systemId, chain)
            && 1 <= c.body.treeSize <= |chain| && c.body.rootHash == Root(Hashes(chain[..c.body.treeSize]))
            && 1 <= d.body.treeSize <= |chain| && d.body.rootHash == Root(Hashes(chain[..d.body.treeSize]))
  {
    hide Inv, Durable;
    InitialInv(su, w);
    RunKeeps(su, w, es);
    var v := Run(su, w, es);
    DurableIsChain(su, v, c.body.systemId);
    assert Covered(su, v, c) && Covered(su, v, d);
  }

  // ----- when a reply can be lost -----

  /**
   * The exact condition. A head read from memory survives every power cut that
   * may follow if, and only if, the rename that made it visible had been flushed
   * when it was read.
   */
  lemma {:induction false} HeadSurvivesIffSettled(su: Setup, w: World, id: SystemId)
    requires Inv(su, w) && w.process.Idle? && |ChainIn(w, id)| > 0
    ensures id in w.process.systems && w.process.systems[id].ChainState?
    ensures (forall left :: Enabled(su, w, PowerCut(left)) ==>
               Remembered(Apply(su, w, PowerCut(left)), w.process.systems[id].head))
            <==> Settled(w, id)
  {
    hide Inv, Enabled, Apply, Remembered, FrontierOf;
    ReplyFromMemory(su, w, id);
    if Settled(w, id) {
      HeadIsRemembered(su, w, id);
      forall left | Enabled(su, w, PowerCut(left))
        ensures Remembered(Apply(su, w, PowerCut(left)), w.process.systems[id].head)
      {
        DurableCut(su, w, left, id);
        RememberedGrows(w, Apply(su, w, PowerCut(left)), w.process.systems[id].head);
      }
    } else {
      UnflushedHeadIsLost(su, w, id);
    }
  }

  /** So does a checkpoint. */
  lemma {:induction false} CheckpointSurvivesIffSettled(su: Setup, w: World, id: SystemId, ts: int)
    requires Inv(su, w) && w.process.Idle? && |ChainIn(w, id)| > 0
    ensures id in w.process.systems && w.process.systems[id].ChainState?
    ensures (forall left :: Enabled(su, w, PowerCut(left)) ==>
               Covered(su, Apply(su, w, PowerCut(left)), CheckpointOver(su.key, id, w.process.systems[id], ts)))
            <==> Settled(w, id)
  {
    hide Inv, Enabled, Apply, Covered, Knows, StateOf, CheckpointOver, ChainInv;
    ChainIsKnown(su, w, id);
    var c := CheckpointOver(su.key, id, w.process.systems[id], ts);
    if Settled(w, id) {
      CheckpointIsCovered(su, w, id, ts);
      forall left | Enabled(su, w, PowerCut(left))
        ensures Covered(su, Apply(su, w, PowerCut(left)), c)
      {
        CheckpointIsFor(su.key, id, w.process.systems[id], ts);
        DurableCut(su, w, left, id);
        CoveredGrows(su, w, Apply(su, w, PowerCut(left)), c);
      }
    } else {
      UnflushedCheckpointIsLost(su, w, id, ts);
    }
  }

  lemma {:induction false} ChainIsKnown(su: Setup, w: World, id: SystemId)
    requires Inv(su, w) && w.process.Idle? && |ChainIn(w, id)| > 0
    ensures id in w.process.systems && w.process.systems[id] == StateOf(id, ChainIn(w, id))
    ensures w.process.systems[id].ChainState?
  {
    hide Inv, ChainInv;
    ReplyFromMemory(su, w, id);
  }

  lemma {:induction false} CheckpointIsFor(key: SignerKey, id: SystemId, known: SystemState, ts: int)
    requires known.ChainState?
    ensures CheckpointOver(key, id, known, ts).body.systemId == id
  {
  }

  lemma {:induction false} UnflushedCheckpointIsLost(su: Setup, w: World, id: SystemId, ts: int)
    requires Inv(su, w) && w.process.Idle? && |ChainIn(w, id)| > 0 && !Settled(w, id)
    requires id in w.process.systems && w.process.systems[id].ChainState?
    ensures Enabled(su, w, PowerCut(map[]))
    ensures !Covered(su, Apply(su, w, PowerCut(map[])), CheckpointOver(su.key, id, w.process.systems[id], ts))
  {
    hide Inv, Enabled, Apply, StateOf, Durable, CheckpointOver;
    ChainIsKnown(su, w, id);
    CheckpointCoversChain(su.key, id, ChainIn(w, id), ts);
    LoseUnflushed(su, w, id);
  }

  /** Receipts read from the journal survive every power cut exactly when the window
      answered stays within the part that is flushed. */
  lemma {:induction false} ReceiptsSurviveIffSettled(su: Setup, w: World, id: SystemId, from: nat, limit: nat)
    requires Inv(su, w) && w.process.Idle?
    ensures (forall left, r :: Enabled(su, w, PowerCut(left)) && r in Found(w, id, from, limit) ==>
               Remembered(Apply(su, w, PowerCut(left)), r))
            <==> ReplySettled(w, GetReceipts(id, from, limit))
  {
    hide Inv, Enabled, Apply, Remembered, Found, Durable;
    var found := Found(w, id, from, limit);
    if ReplySettled(w, GetReceipts(id, from, limit)) {
      forall left, r | Enabled(su, w, PowerCut(left)) && r in found
        ensures Remembered(Apply(su, w, PowerCut(left)), r)
      {
        var k :| 0 <= k < |found| && found[k] == r;
        FoundIsOfChain(su, w, id, from, limit, k);
        FoundIsRemembered(su, w, id, from, limit, r);
        DurableCut(su, w, left, id);
        RememberedGrows(w, Apply(su, w, PowerCut(left)), r);
      }
    } else {
      LastFoundIsLost(su, w, id, from, limit);
      assert found[|found| - 1] in found;
    }
  }

  lemma {:induction false} LastFoundIsLost(su: Setup, w: World, id: SystemId, from: nat, limit: nat)
    requires Inv(su, w) && w.process.Idle? && !ReplySettled(w, GetReceipts(id, from, limit))
    ensures Enabled(su, w, PowerCut(map[]))
    ensures var found := Found(w, id, from, limit);
            |found| > 0 && !Remembered(Apply(su, w, PowerCut(map[])), found[|found| - 1])
  {
    hide Inv, Enabled, Apply, Found, Durable;
    FoundIsOfChain(su, w, id, from, limit, |Found(w, id, from, limit)| - 1);
    LoseUnflushed(su, w, id);
  }

  lemma {:induction false} UnflushedHeadIsLost(su: Setup, w: World, id: SystemId)
    requires Inv(su, w) && w.process.Idle? && |ChainIn(w, id)| > 0 && !Settled(w, id)
    requires id in w.process.systems && w.process.systems[id].ChainState?
    ensures Enabled(su, w, PowerCut(map[]))
    ensures !Remembered(Apply(su, w, PowerCut(map[])), w.process.systems[id].head)
  {
    hide Inv, Enabled, Apply, FrontierOf, Durable;
    ReplyFromMemory(su, w, id);
    LoseUnflushed(su, w, id);
  }

  /** The power cut that keeps nothing that was not flushed. */
  lemma {:induction false} LoseUnflushed(su: Setup, w: World, id: SystemId)
    requires Inv(su, w)
    ensures Enabled(su, w, PowerCut(map[]))
    ensures var v := Apply(su, w, PowerCut(map[])); ChainIn(v, id) == Durable(v, id) == Durable(w, id)
    ensures !Settled(w, id) ==> |Durable(w, id)| < |ChainIn(w, id)|
  {
    hide ChainInv, ContentFor, JournalSays, MemoryInv, SigningInv;
    forall i | i in w.dir
      ensures LeftOk(w.dir[i], LeftOf(map[], i, w.dir[i]))
    {
      assert FilesInv(su, i, FilesOf(w.dir, i), ChainIn(w, i), Begun(su, w, i));
    }
    assert FilesInv(su, id, FilesOf(w.dir, id), ChainIn(w, id), Begun(su, w, id));
    DurableCut(su, w, map[], id);
    CutChainIn(su, w, map[], id);
  }

  // ----- how a fork comes about when the condition fails -----

  lemma {:induction false} RunAppend(su: Setup, w: World, es: seq<Event>, fs: seq<Event>)
    requires Admissible(su, w, es) && Admissible(su, Run(su, w, es), fs)
    ensures Admissible(su, w, es + fs) && Run(su, w, es + fs) == Run(su, Run(su, w, es), fs)
    decreases |es|
  {
    hide Enabled, Apply;
    if es == [] {
      assert es + fs == fs;
    } else {
      RunAppend(su, Apply(su, w, es[0]), es[1..], fs);
      assert (es + fs)[1..] == es[1..] + fs;
    }
  }

  lemma {:induction false} NextSeq(su: Setup, chain: seq<Receipt>, isRetired: bool, b: Body, clock: int)
    requires IsNext(chain, isRetired, su.key, b, clock, su.toleranceMs)
    ensures b.seq_ == |chain|
  {
  }

  /** The power cut that undoes the last rename and no other of the system. */
  lemma {:induction false} LoseLast(su: Setup, w: World, id: SystemId) returns (left: map<SystemId, Left>)
    requires Inv(su, w) && !Settled(w, id)
    ensures Enabled(su, w, PowerCut(left))
    ensures |ChainIn(w, id)| > 0
    ensures ChainIn(Apply(su, w, PowerCut(left)), id) == ChainIn(w, id)[..|ChainIn(w, id)| - 1]
  {
    hide ChainInv, ContentFor, JournalSays, MemoryInv, SigningInv;
    var f := FilesOf(w.dir, id);
    left := map[id := Left(f.journalSynced, true, |f.versions| - 2)];
    forall i | i in w.dir
      ensures LeftOk(w.dir[i], LeftOf(left, i, w.dir[i]))
    {
      assert FilesInv(su, i, FilesOf(w.dir, i), ChainIn(w, i), Begun(su, w, i));
    }
    assert FilesInv(su, id, f, ChainIn(w, id), Begun(su, w, id));
    CutChainIn(su, w, left, id);
  }

  lemma {:induction false} RunCons(su: Setup, w: World, e: Event, rest: seq<Event>)
    requires Enabled(su, w, e) && Admissible(su, Apply(su, w, e), rest)
    ensures Admissible(su, w, [e] + rest) && Run(su, w, [e] + rest) == Run(su, Apply(su, w, e), rest)
  {
    hide Enabled, Apply;
    assert ([e] + rest)[1..] == rest;
  }

  // ----- a signature, uninterrupted -----

  /** Writes to one system's files, one after the other, are the last of them. */
  lemma {:induction false} WrittenOver(dir: Directory, id: SystemId, f: SystemFiles, g: SystemFiles)
    ensures dir[id := f][id := g] == dir[id := g] && FilesOf(dir[id := f], id) == f
  {
  }

  /** The steps up to the temporary file are record, all of it. */
  lemma {:induction false} RecordSteps(su: Setup, w: World) returns (es: seq<Event>)
    requires w.process.Signing? && w.process.todo == WriteJournal
    ensures Admissible(su, w, es) && forall i :: 0 <= i < |es| ==> es[i] == Advance
    ensures var created := !FilesOf(w.dir, w.process.receipt.body.systemId).journalExists;
            Run(su, w, es) == w.(dir := RecordEffect(w.dir, w.process.receipt),
                                 process := w.process.(todo := WriteTemp, created := created))
  {
    hide Appended, FlushDirectory;
    var r := w.process.receipt;
    var id := r.body.systemId;
    var f := FilesOf(w.dir, id);
    var written := AppendText(f, Appended(f.journal, r));
    WrittenOver(w.dir, id, written, FlushJournal(written));
    var w1 := AdvanceFrom(w);
    var w2 := AdvanceFrom(w1);
    es := [];
    if w2.process.todo == LinkJournal {
      RunCons(su, w2, Advance, es);
      es := [Advance] + es;
    }
    RunCons(su, w1, Advance, es);
    RunCons(su, w, Advance, [Advance] + es);
    es := [Advance] + ([Advance] + es);
  }

  /** What put has of a system's files once it has renamed, before it flushes that. */
  function Replaced(f: SystemFiles, state: SystemState): SystemFiles {
    RenameTemporary(FlushTemporary(WriteTemporary(f, Serialize(state))))
  }

  lemma {:induction false} RenameSteps(su: Setup, w: World) returns (es: seq<Event>)
    requires w.process.Signing? && w.process.todo == WriteTemp
    ensures Admissible(su, w, es) && forall i :: 0 <= i < |es| ==> es[i] == Advance
    ensures var p := w.process; var id := p.receipt.body.systemId;
            Run(su, w, es) == w.(dir := w.dir[id := Replaced(FilesOf(w.dir, id), p.next)],
                                 process := p.(todo := SyncRename),
                                 chains := w.chains[id := ChainIn(w, id) + [p.receipt]])
  {
    hide Serialize, WriteTemporary, FlushTemporary, RenameTemporary;
    var id := w.process.receipt.body.systemId;
    var f := WriteTemporary(FilesOf(w.dir, id), Serialize(w.process.next));
    WrittenOver(w.dir, id, f, FlushTemporary(f));
    WrittenOver(w.dir, id, FlushTemporary(f), RenameTemporary(FlushTemporary(f)));
    var w1 := AdvanceFrom(w);
    var w2 := AdvanceFrom(w1);
    RunCons(su, w2, Advance, []);
    RunCons(su, w1, Advance, [Advance] + []);
    RunCons(su, w, Advance, [Advance] + ([Advance] + []));
    es := [Advance] + ([Advance] + ([Advance] + []));
  }

  /** The steps from the temporary file to the reply are put, all of it, and the reply. */
  lemma {:induction false} PutSteps(su: Setup, w: World) returns (es: seq<Event>)
    requires w.process.Signing? && w.process.todo == WriteTemp
    requires w.process.next.systemId == w.process.receipt.body.systemId
    ensures Admissible(su, w, es) && forall i :: 0 <= i < |es| ==> es[i] == Advance
    ensures var p := w.process; var id := p.receipt.body.systemId;
            Run(su, w, es) == World(PutEffect(w.dir, p.next), Idle(p.systems[id := p.next]),
                                    w.chains[id := ChainIn(w, id) + [p.receipt]], w.begun,
                                    w.exposed + {p.receipt}, w.issued)
  {
    hide Serialize, FlushDirectory, WriteTemporary, FlushTemporary, RenameTemporary, ChainIn;
    var first := RenameSteps(su, w);
    var w3 := Run(su, w, first);
    var w4 := AdvanceFrom(w3);
    RunCons(su, w4, Advance, []);
    RunCons(su, w3, Advance, [Advance] + []);
    RunAppend(su, w, first, [Advance] + ([Advance] + []));
    es := first + ([Advance] + ([Advance] + []));
  }

  /**
   * A signature that nothing interrupts does what the contract of SignReceipt
   * says: the machine whose runs are shown safe is the class run step by step.
   */
  lemma {:induction false} UninterruptedIsSignReceipt(su: Setup, w: World, b: Body, clock: int) returns (es: seq<Event>)
    requires Enabled(su, w, BeginSign(b, clock))
    ensures Admissible(su, w, [BeginSign(b, clock)] + es) && forall i :: 0 <= i < |es| ==> es[i] == Advance
    ensures var known := Lookup(w.process.systems, b.systemId);
            var r := SignedReceipt(su.key, b);
            var next := NextState(known, r).value;
            Run(su, w, [BeginSign(b, clock)] + es)
            == World(PutEffect(RecordEffect(w.dir, r), next), Idle(w.process.systems[b.systemId := next]),
                     w.chains[b.systemId := ChainIn(w, b.systemId) + [r]], w.begun, w.exposed + {r}, w.issued)
  {
    hide Decide, RecordEffect, PutEffect;
    var v := Apply(su, w, BeginSign(b, clock));
    var first := RecordSteps(su, v);
    var second := PutSteps(su, Run(su, v, first));
    RunAppend(su, v, first, second);
    es := first + second;
    RunCons(su, w, BeginSign(b, clock), es);
  }

  /** An idle signer asked for the next receipt of a chain ends by replying it. */
  lemma {:induction false} SignsTheNext(su: Setup, w: World, b: Body, clock: int) returns (es: seq<Event>)
    requires Inv(su, w) && w.process.Idle?
    requires IsNext(ChainIn(w, b.systemId), b.systemId in su.retired, su.key, b, clock, su.toleranceMs)
    ensures Admissible(su, w, es)
    ensures Run(su, w, es).exposed == w.exposed + {SignedReceipt(su.key, b)}
  {
    hide Inv, IsNext, Knows, Decide, NextState, Apply, RecordEffect, PutEffect, ChainInv;
    var id := b.systemId;
    ReplyFromMemory(su, w, id);
    AcceptsExactlyTheNext(id, ChainIn(w, id), su.retired, su.key, b, clock, su.toleranceMs);
    AcceptedIsNext(su, id, ChainIn(w, id), b, clock);
    var rest := UninterruptedIsSignReceipt(su, w, b, clock);
    es := [BeginSign(b, clock)] + rest;
  }

  /** A power cut and a restart leave the signer idle, with the chain the cut left. */
  lemma {:induction false} CutAndRestart(su: Setup, w: World, left: map<SystemId, Left>, id: SystemId)
    requires JsonLines() && Inv(su, w) && Enabled(su, w, PowerCut(left))
    ensures Enabled(su, Apply(su, w, PowerCut(left)), Restart)
    ensures var cut := Apply(su, w, PowerCut(left)); var v := Apply(su, cut, Restart);
            Inv(su, v) && v.process.Idle? && v.exposed == w.exposed && ChainIn(v, id) == ChainIn(cut, id)
  {
    hide Inv, Cut, CutChain, Loaded, Loadable, LeftOk, LeftOf;
    StepKeeps(su, w, PowerCut(left));
    RestartKeeps(su, Apply(su, w, PowerCut(left)));
  }

  /**
   * The condition is needed. The signer idle with a rename not yet flushed (as
   * after a kill right after it), reading the head for a reply, can go on to sign
   * any other receipt that is next after what a power cut leaves: two different
   * receipts of one system at one position, both replied.
   */
  lemma {:induction false} UnsettledReplyCanFork(
      su: Setup, w: World, id: SystemId, b: Body, clock: int) returns (es: seq<Event>)
    requires JsonLines() && Inv(su, w) && w.process.Idle? && !Settled(w, id)
    requires b.systemId == id && |ChainIn(w, id)| > 0 && b != ChainIn(w, id)[|ChainIn(w, id)| - 1].body
    requires IsNext(ChainIn(w, id)[..|ChainIn(w, id)| - 1], id in su.retired, su.key, b, clock, su.toleranceMs)
    ensures Admissible(su, w, es) && |es| > 0 && es[0] == GetHead(id)
    ensures !OneChain(su, Run(su, w, es).exposed)
  {
    hide Inv, IsNext, Decide, NextState, FrontierOf, Cut, CutChain, Loaded, Loadable, ChainInv, LeftOk, LeftOf;
    var chain := ChainIn(w, id);
    var head := chain[|chain| - 1];
    ReplyFromMemory(su, w, id);
    var w1 := Apply(su, w, GetHead(id));
    assert head in w1.exposed;
    StepKeeps(su, w, GetHead(id));
    var left := LoseLast(su, w1, id);
    CutAndRestart(su, w1, left, id);
    var w2 := Apply(su, w1, PowerCut(left));
    var w3 := Apply(su, w2, Restart);
    var rest := SignsTheNext(su, w3, b, clock);
    RunCons(su, w2, Restart, rest);
    RunCons(su, w1, PowerCut(left), [Restart] + rest);
    RunCons(su, w, GetHead(id), [PowerCut(left)] + ([Restart] + rest));
    es := [GetHead(id)] + ([PowerCut(left)] + ([Restart] + rest));
    var exposed := Run(su, w, es).exposed;
    assert head in exposed && SignedReceipt(su.key, b) in exposed;
    NextSeq(su, chain[..|chain| - 1], id in su.retired, b, clock);
  }

  /** The process is between a rename and its flush. */
  ghost predicate OneRenameAhead(su: Setup, v: World, r: Receipt, before: seq<Receipt>) {
    var id := r.body.systemId;
    && Inv(su, v) && v.process.Signing?
    && |FilesOf(v.dir, id).versions| == 2
    && ChainIn(v, id) == before + [r]
  }

  /** A signature just begun, followed up to its rename. */
  lemma {:induction false} UpToRename(su: Setup, w: World) returns (es: seq<Event>)
    requires JsonLines() && Inv(su, w) && w.process.Signing? && w.process.todo == WriteJournal
    requires Settled(w, w.process.receipt.body.systemId)
    ensures Admissible(su, w, es)
    ensures OneRenameAhead(su, Run(su, w, es), w.process.receipt, ChainIn(w, w.process.receipt.body.systemId))
  {
    hide Inv, Appended, RecordEffect, Replaced, FlushDirectory;
    var first := RecordSteps(su, w);
    var v := Run(su, w, first);
    var second := RenameSteps(su, v);
    RunAppend(su, w, first, second);
    es := first + second;
    RunKeeps(su, w, es);
    OneVersionMore(w.dir, w.process.receipt, w.process.next);
  }

  lemma {:induction false} OneVersionMore(dir: Directory, r: Receipt, next: SystemState)
    requires |FilesOf(dir, r.body.systemId).versions| == 1
    ensures |Replaced(FilesOf(RecordEffect(dir, r), r.body.systemId), next).versions| == 2
  {
  }

  lemma {:induction false} SignUpToRename(su: Setup, w: World, b: Body, clock: int) returns (es: seq<Event>)
    requires JsonLines() && Inv(su, w) && w.process.Idle? && Settled(w, b.systemId)
    requires IsNext(ChainIn(w, b.systemId), b.systemId in su.retired, su.key, b, clock, su.toleranceMs)
    ensures Admissible(su, w, es)
    ensures OneRenameAhead(su, Run(su, w, es), SignedReceipt(su.key, b), ChainIn(w, b.systemId))
  {
    hide Inv, IsNext, Decide, NextState, Knows, OneRenameAhead, ChainInv;
    var id := b.systemId;
    ReplyFromMemory(su, w, id);
    AcceptsExactlyTheNext(id, ChainIn(w, id), su.retired, su.key, b, clock, su.toleranceMs);
    AcceptedIsNext(su, id, ChainIn(w, id), b, clock);
    StepKeeps(su, w, BeginSign(b, clock));
    var up := UpToRename(su, Apply(su, w, BeginSign(b, clock)));
    RunCons(su, w, BeginSign(b, clock), up);
    es := [BeginSign(b, clock)] + up;
  }

  lemma {:induction false} KillAndRestart(
      su: Setup, w: World, r: Receipt, before: seq<Receipt>) returns (es: seq<Event>)
    requires JsonLines() && OneRenameAhead(su, w, r, before)
    ensures Admissible(su, w, es)
    ensures var v := Run(su, w, es); var id := r.body.systemId;
            Inv(su, v) && v.process.Idle? && |FilesOf(v.dir, id).versions| == 2 && ChainIn(v, id) == before + [r]
  {
    hide Inv, Loadable, Loaded;
    StepKeeps(su, w, Kill);
    var down := Apply(su, w, Kill);
    RestartKeeps(su, down);
    RestartFiles(su, down, r.body.systemId);
    RunCons(su, down, Restart, []);
    RunCons(su, w, Kill, [Restart] + []);
    es := [Kill] + ([Restart] + []);
  }

  /** Signing one receipt and killed right after the rename, then started again. */
  lemma {:induction false} KilledAfterRename(su: Setup, w: World, b: Body, clock: int) returns (es: seq<Event>)
    requires JsonLines() && Inv(su, w) && w.process.Idle? && Settled(w, b.systemId)
    requires IsNext(ChainIn(w, b.systemId), b.systemId in su.retired, su.key, b, clock, su.toleranceMs)
    ensures Admissible(su, w, es)
    ensures var v := Run(su, w, es);
            Inv(su, v) && v.process.Idle? && |FilesOf(v.dir, b.systemId).versions| == 2
            && ChainIn(v, b.systemId) == ChainIn(w, b.systemId) + [SignedReceipt(su.key, b)]
  {
    hide Inv, IsNext, OneRenameAhead, Enabled, Apply;
    var up := SignUpToRename(su, w, b, clock);
    var down := KillAndRestart(su, Run(su, w, up), SignedReceipt(su.key, b), ChainIn(w, b.systemId));
    RunAppend(su, w, up, down);
    es := up + down;
  }

  lemma {:induction false} RestartFiles(su: Setup, w: World, id: SystemId)
    requires Inv(su, w) && w.process.Down?
    ensures var v := Apply(su, w, Restart);
            FilesOf(v.dir, id) == ClearTemporary(FilesOf(w.dir, id)) && ChainIn(v, id) == ChainIn(w, id)
  {
    hide Inv, Loadable, Loaded;
    RestartKeeps(su, w);
  }

  /**
   * So without the condition a fork is within reach of every idle signer: whatever
   * two different receipts are both next, a run of one kill, one head read and one
   * power cut has both replied.
   */
  lemma {:induction false} ForkWithinReach(su: Setup, w: World, a: Body, b: Body, clock: int) returns (es: seq<Event>)
    requires JsonLines() && Inv(su, w) && w.process.Idle? && Settled(w, a.systemId)
    requires a != b && a.systemId == b.systemId
    requires IsNext(ChainIn(w, a.systemId), a.systemId in su.retired, su.key, a, clock, su.toleranceMs)
    requires IsNext(ChainIn(w, b.systemId), b.systemId in su.retired, su.key, b, clock, su.toleranceMs)
    ensures Admissible(su, w, es) && !OneChain(su, Run(su, w, es).exposed)
  {
    hide Inv, IsNext, OneChain, Enabled, Apply;
    var first := KilledAfterRename(su, w, a, clock);
    var v := Run(su, w, first);
    var chain := ChainIn(w, a.systemId);
    assert (chain + [SignedReceipt(su.key, a)])[..|chain|] == chain;
    var second := UnsettledReplyCanFork(su, v, a.systemId, b, clock);
    RunAppend(su, w, first, second);
    es := first + second;
  }

  // ----- when the condition holds by itself -----

  /** Where only the power fails, never the process alone, every reply is settled:
      the signer is idle only when nothing is left to flush. */
  ghost predicate QuietInv(w: World) {
    !(w.process.Signing? && w.process.todo == SyncRename) ==> forall id :: Settled(w, id)
  }

  predicate NoKill(e: Event) { !e.Kill? && !e.KillInWrite? }

  lemma {:induction false} QuietReply(su: Setup, w: World, e: Event)
    requires Inv(su, w) && QuietInv(w) && Enabled(su, w, e)
    ensures ReplySettled(w, e)
  {
    hide Inv, Decide, NextState, Appended, Found, Durable;
    match e
    case GetReceipts(id, from, limit) =>
      var found := Found(w, id, from, limit);
      if found != [] {
        FoundIsOfChain(su, w, id, from, limit, 0);
        IdleIsDurable(su, w, id);
      }
    case _ =>
  }

  lemma {:induction false} IdleIsDurable(su: Setup, w: World, id: SystemId)
    requires Inv(su, w) && Settled(w, id)
    ensures Durable(w, id) == ChainIn(w, id)
  {
    SettledIsDurable(su, w, id);
  }

  lemma {:induction false} QuietStep(su: Setup, w: World, e: Event)
    requires Inv(su, w) && QuietInv(w) && Enabled(su, w, e) && NoKill(e)
    ensures QuietInv(Apply(su, w, e))
  {
    hide DiskInv, MemoryInv, SigningInv, Settled, Decide, NextState, SignedReceipt, AdvanceFrom, Loadable, Loaded,
        CutChain,
      Cut, CutBegun, LeftOk, LeftOf, Entries, ReceiptsOf, CheckpointOver;
    var v := Apply(su, w, e);
    if e.Advance? {
      QuietAdvance(su, w);
    } else if e.PowerCut? {
      forall id
        ensures Settled(v, id)
      {
        CutSettles(su, w, e.left, id);
      }
    } else {
      RestartSucceeds(su, w);
      forall id | Settled(w, id)
        ensures Settled(v, id)
      {
        SettledSame(w, v, id);
      }
    }
  }

  lemma {:induction false} SettledSame(w: World, v: World, id: SystemId)
    requires Settled(w, id) && (v.dir == w.dir || v.dir == map i | i in w.dir :: ClearTemporary(w.dir[i]))
    ensures Settled(v, id)
  {
  }

  lemma {:induction false} QuietAdvance(su: Setup, w: World)
    requires DiskInv(su, w) && QuietInv(w) && w.process.Signing?
    ensures QuietInv(AdvanceFrom(w))
  {
    hide DiskInv, Serialize, Appended, FlushDirectory;
    var v := AdvanceFrom(w);
    FlushDirectoryKeeps(su, w);
    if v.process.Idle? || v.process.todo != SyncRename {
      forall id
        ensures Settled(v, id)
      {
        assert Settled(w.(dir := FlushDirectory(w.dir)), id);
        assert w.process.todo != SyncRename ==> Settled(w, id);
      }
    }
  }

  lemma {:induction false} PowerCutsAloneAreSettled(su: Setup, w: World, es: seq<Event>)
    requires JsonLines() && Inv(su, w) && QuietInv(w) && Admissible(su, w, es)
    requires forall i :: 0 <= i < |es| ==> NoKill(es[i])
    ensures RepliesSettled(su, w, es)
    decreases |es|
  {
    hide Inv, QuietInv, Enabled, Apply;
    if es != [] {
      QuietReply(su, w, es[0]);
      QuietStep(su, w, es[0]);
      StepKeeps(su, w, es[0]);
      PowerCutsAloneAreSettled(su, Apply(su, w, es[0]), es[1..]);
    }
  }

  /** No fork, without a condition, over runs in which the process is never killed
      by itself. */
  lemma {:induction false} NoForkUnderPowerCuts(su: Setup, w: World, es: seq<Event>)
    requires JsonLines() && Initial(su, w) && Admissible(su, w, es)
    requires forall i :: 0 <= i < |es| ==> NoKill(es[i])
    ensures OneChain(su, Run(su, w, es).exposed)
  {
    InitialInv(su, w);
    forall id
      ensures Settled(w, id)
    {
      assert FilesOf(w.dir, id) == InitialFiles(su, id);
    }
    PowerCutsAloneAreSettled(su, w, es);
    NoFork(su, w, es);
  }
}
