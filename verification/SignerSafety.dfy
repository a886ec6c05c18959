/** Every step of every run keeps the invariant of SignerRuns; and what follows. */
module SignerSafety {
  import opened Prelude
  import opened Receipts
  import opened Journal
  import opened StateDirectory
  import opened Signer
  import opened SignerRuns

  // ----- loading -----

  lemma {:induction false} VisibleIsContent(su: Setup, id: SystemId, f: SystemFiles, chain: seq<Receipt>)
    requires VersionsInv(su, id, f.versions, chain)
    ensures Visible(f) == ContentFor(su, id, chain)
  {
    var last := |f.versions| - 1;
    assert f.versions[last] == ContentFor(su, id, chain[..|chain| - (|f.versions| - 1 - last)]);
    assert chain[..|chain|] == chain;
  }

  /** open never rejects a file that put wrote, and finds the chain's state in it. */
  lemma {:induction false} LoadOneIsKnown(su: Setup, id: SystemId, f: SystemFiles, chain: seq<Receipt>, begun: nat)
    requires FilesInv(su, id, f, chain, begun)
    ensures LoadOne(id, f) == Ok(Knows(id, chain, su.retired))
  {
    hide ParseStateFile, Serialize, JournalInv, IsChain, ClockOrdered, Hashes;
    VisibleIsContent(su, id, f, chain);
    if |chain| > 0 {
      ChainStateRoundTrip(id, chain);
    } else if id in su.retired {
      StateFileRoundTrip(RetiredSystem(id, su.retired[id]));
    }
  }

  lemma {:induction false} RestartSucceeds(su: Setup, w: World)
    requires DiskInv(su, w)
    ensures Loadable(w.dir)
    ensures forall id :: Lookup(Loaded(w.dir), id) == Knows(id, ChainIn(w, id), su.retired)
  {
    forall id
      ensures LoadOne(id, FilesOf(w.dir, id)) == Ok(Knows(id, ChainIn(w, id), su.retired))
    {
      assert FilesInv(su, id, FilesOf(w.dir, id), ChainIn(w, id), Begun(su, w, id));
      LoadOneIsKnown(su, id, FilesOf(w.dir, id), ChainIn(w, id), Begun(su, w, id));
    }
    forall id | id in w.dir
      ensures LoadOne(id, w.dir[id]).Ok?
    {
      assert FilesOf(w.dir, id) == w.dir[id];
    }
    forall id
      ensures Lookup(Loaded(w.dir), id) == Knows(id, ChainIn(w, id), su.retired)
    {
      assert LoadOne(id, FilesOf(w.dir, id)) == Ok(Knows(id, ChainIn(w, id), su.retired));
    }
  }

  // ----- what each action on files keeps -----

  lemma {:induction false} FlushEntriesKeeps(su: Setup, id: SystemId, f: SystemFiles, chain: seq<Receipt>, begun: nat)
    requires FilesInv(su, id, f, chain, begun)
    ensures FilesInv(su, id, FlushEntries(f), chain, begun)
  {
    hide ChainInv, ContentFor, JournalSays;
    VisibleIsContent(su, id, f, chain);
    assert chain[..|chain|] == chain;
    if !f.journalExists {
      JournalMissing(id, f, chain, begun);
    }
  }

  /** Without a journal nothing has been signed since the migration. */
  lemma {:induction false} JournalMissing(id: SystemId, f: SystemFiles, chain: seq<Receipt>, begun: nat)
    requires JournalInv(id, f, chain, begun) && !f.journalExists && begun <= |chain|
    ensures |chain| == begun
  {
    assert f.journal[..0] == "";
    assert JournalSays(id, "", chain, begun);
    assert Entries(id, "") == [] && LastAt([], begun) == None;
  }

  lemma {:induction false} FlushDirectoryKeeps(su: Setup, w: World)
    requires DiskInv(su, w)
    ensures DiskInv(su, w.(dir := FlushDirectory(w.dir)))
    ensures forall id :: FilesOf(FlushDirectory(w.dir), id) == FlushEntries(FilesOf(w.dir, id))
    ensures forall id :: Settled(w.(dir := FlushDirectory(w.dir)), id)
  {
    forall id
      ensures FilesOf(FlushDirectory(w.dir), id) == FlushEntries(FilesOf(w.dir, id))
    {
    }
    forall id
      ensures FilesInv(su, id, FilesOf(FlushDirectory(w.dir), id), ChainIn(w, id), Begun(su, w, id))
    {
      assert FilesInv(su, id, FilesOf(w.dir, id), ChainIn(w, id), Begun(su, w, id));
      FlushEntriesKeeps(su, id, FilesOf(w.dir, id), ChainIn(w, id), Begun(su, w, id));
    }
    var v := w.(dir := FlushDirectory(w.dir));
    forall id
      ensures FilesInv(su, id, FilesOf(v.dir, id), ChainIn(v, id), Begun(su, v, id))
    {
      assert ChainIn(v, id) == ChainIn(w, id);
    }
  }

  /** A line or part of one appended to the journal is of the next receipt, so
      it says nothing about those before. */
  lemma {:induction false} AppendKeeps(
      su: Setup, id: SystemId, f: SystemFiles, chain: seq<Receipt>, begun: nat, r: Receipt, n: nat)
    requires JsonLines() && FilesInv(su, id, f, chain, begun)
    requires r.body.systemId == id && r.body.seq_ == |chain|
    requires n <= |Appended(f.journal, r)|
    ensures FilesInv(su, id, AppendText(f, Appended(f.journal, r)[..n]), chain, begun)
    ensures n == |Appended(f.journal, r)| ==>
              JournalSays(id, f.journal + Appended(f.journal, r)[..n], chain + [r], begun)
  {
    hide ChainInv, VersionsInv, JournalSays, Appended;
    var now := f.journal + Appended(f.journal, r)[..n];
    forall m | f.journalSynced <= m <= |now|
      ensures JournalSays(id, now[..m], chain, begun)
    {
      if m <= |f.journal| {
        assert now[..m] == f.journal[..m];
      } else {
        assert now[..m] == f.journal + Appended(f.journal, r)[..m - |f.journal|];
        AppendedSays(id, f.journal, chain, begun, r, m - |f.journal|, f.journalSynced);
      }
    }
    if n == |Appended(f.journal, r)| {
      AppendedSays(id, f.journal, chain, begun, r, n, f.journalSynced);
    }
  }

  lemma {:induction false} AppendedSays(
      id: SystemId, text: string, chain: seq<Receipt>, begun: nat, r: Receipt, n: nat, synced: nat)
    requires JsonLines() && r.body.systemId == id && r.body.seq_ == |chain| >= begun
    requires n <= |Appended(text, r)| && synced <= |text|
    requires forall m :: synced <= m <= |text| ==> JournalSays(id, text[..m], chain, begun)
    ensures JournalSays(id, text + Appended(text, r)[..n], chain, begun)
    ensures n == |Appended(text, r)| ==> JournalSays(id, text + Appended(text, r)[..n], chain + [r], begun)
  {
    assert text[..|text|] == text;
    assert JournalSays(id, text, chain, begun);
    PartialAppend(id, text, r, n);
    HoldsUnderAppend(Entries(id, text), chain, begun, r);
  }

  /** The rename adds a version, of the chain one longer. */
  lemma {:induction false} RenameKeeps(
      su: Setup, id: SystemId, f: SystemFiles, chain: seq<Receipt>, begun: nat, r: Receipt, next: SystemState)
    requires FilesInv(su, id, f, chain, begun) && r.body.systemId == id
    requires NextInv(su, chain, r, next) && StageInv(f, chain, begun, r, next, Rename)
    ensures FilesInv(su, id, RenameTemporary(f), chain + [r], begun)
  {
    hide StateOf, Serialize, JournalSays, IsChain, ClockOrdered;
    var longer := chain + [r];
    var g := RenameTemporary(f);
    assert g.versions == f.versions + [Text(Serialize(next))];
    forall i | 0 <= i < |g.versions|
      ensures g.versions[i] == ContentFor(su, id, longer[..|longer| - (|g.versions| - 1 - i)])
    {
      if i < |f.versions| {
        assert f.versions[i] == ContentFor(su, id, chain[..|chain| - (|f.versions| - 1 - i)]);
        assert longer[..|longer| - (|g.versions| - 1 - i)] == chain[..|chain| - (|f.versions| - 1 - i)];
      } else {
        assert longer[..|longer|] == longer;
      }
    }
    assert f.journal[..|f.journal|] == f.journal;
  }

  lemma {:induction false} SaysPrefix(id: SystemId, text: string, chain: seq<Receipt>, begun: nat, n: nat)
    requires JournalSays(id, text, chain, begun) && n <= |chain|
    ensures JournalSays(id, text, chain[..n], begun)
  {
    var entries := Entries(id, text);
    forall s: nat
      ensures LastAt(entries, s) == None || s >= n || (begun <= s && LastAt(entries, s) == Some(chain[..n][s]))
    {
      assert LastAt(entries, s) == None || s >= |chain| || (begun <= s && LastAt(entries, s) == Some(chain[s]));
    }
  }

  lemma {:induction false} EmptySays(id: SystemId, chain: seq<Receipt>, begun: nat)
    requires |chain| == begun
    ensures JournalSays(id, "", chain, begun)
  {
    assert Entries(id, "") == [];
  }

  lemma {:induction false} ChainInvPrefix(su: Setup, id: SystemId, chain: seq<Receipt>, n: nat)
    requires ChainInv(su, id, chain) && |Migrated(su, id)| <= n <= |chain|
    ensures ChainInv(su, id, chain[..n])
  {
    ChainPrefix(id, chain, n);
    var begun := |Migrated(su, id)|;
    forall i | 1 <= i < n && begun <= i
      ensures chain[..n][i - 1].body.tsReceived <= chain[..n][i].body.tsReceived
    {
      assert chain[i - 1].body.tsReceived <= chain[i].body.tsReceived;
    }
  }

  /** Whatever a power cut leaves of one system's files stands for a chain that is
      at least the durable one, and no more than the visible one. */
  lemma {:induction false} CutKeeps(
      su: Setup, id: SystemId, f: SystemFiles, chain: seq<Receipt>, begun: nat, l: Left)
    requires FilesInv(su, id, f, chain, begun) && LeftOk(f, l)
    ensures var lost := |f.versions| - 1 - l.version;
            0 <= lost <= |chain|
            && FilesInv(su, id, Cut(f, l), chain[..|chain| - lost], if JournalKept(f, l) then begun else |chain| - lost)
  {
    hide ChainInv, ContentFor, Holds, Complete;
    var lost := |f.versions| - 1 - l.version;
    var shorter := chain[..|chain| - lost];
    var g := Cut(f, l);
    ChainInvPrefix(su, id, chain, |shorter|);
    assert f.versions[l.version] == ContentFor(su, id, shorter);
    assert shorter[..|shorter|] == shorter;
    assert g.journal[..|g.journal|] == g.journal;
    if g.journalExists {
      assert JournalSays(id, f.journal[..l.journalChars], chain, begun);
      SaysPrefix(id, g.journal, chain, begun, |shorter|);
    } else {
      EmptySays(id, shorter, |shorter|);
    }
  }

  // ----- the events, one by one -----

  lemma {:induction false} RestartKeeps(su: Setup, w: World)
    requires Inv(su, w) && Enabled(su, w, Restart)
    ensures Inv(su, Apply(su, w, Restart)) && Apply(su, w, Restart).process.Idle?
  {
    hide ChainInv, VersionsInv, Knows, LoadOne, Loadable, JournalSays;
    RestartSucceeds(su, w);
    var v := Apply(su, w, Restart);
    forall id
      ensures FilesInv(su, id, FilesOf(v.dir, id), ChainIn(v, id), Begun(su, v, id))
    {
      assert FilesInv(su, id, FilesOf(w.dir, id), ChainIn(w, id), Begun(su, w, id));
      assert FilesOf(v.dir, id) == ClearTemporary(FilesOf(w.dir, id));
    }
    assert MemoryInv(su, v);
  }

  lemma {:induction false} AcceptedIsNext(su: Setup, id: SystemId, chain: seq<Receipt>, b: Body, clock: int)
    requires b.systemId == id && ChainInv(su, id, chain)
    requires Decide(Knows(id, chain, su.retired), su.key.keyId, b, clock, su.toleranceMs).None?
    ensures var r := SignedReceipt(su.key, b); var next := NextState(Knows(id, chain, su.retired), r);
            next.Some? && NextInv(su, chain, r, next.value)
  {
    hide Decide, NextState, Knows, StateOf, IsChain, ClockOrdered, ReceiptHash, Sign;
    var r := SignedReceipt(su.key, b);
    AcceptsExactlyTheNext(id, chain, su.retired, su.key, b, clock, su.toleranceMs);
    NextIsStateOfLonger(id, chain, su.retired, r);
    ClockOrderKept(chain, |Migrated(su, id)|, r);
  }

  lemma {:induction false} BeginSignKeeps(su: Setup, w: World, b: Body, clock: int)
    requires Inv(su, w) && Enabled(su, w, BeginSign(b, clock))
    ensures Inv(su, Apply(su, w, BeginSign(b, clock)))
  {
    hide VersionsInv, JournalInv, Knows, StateOf, Decide, NextState, IsChain, ClockOrdered, IsNext;
    var id := b.systemId;
    var chain := ChainIn(w, id);
    var r := SignedReceipt(su.key, b);
    var v := Apply(su, w, BeginSign(b, clock));
    assert FilesInv(su, id, FilesOf(w.dir, id), chain, Begun(su, w, id));
    assert Lookup(w.process.systems, id) == Knows(id, InMemory(w, id), su.retired);
    AcceptedIsNext(su, id, chain, b, clock);
    DiskSame(su, w, v);
    MemorySame(su, w, v);
  }

  lemma {:induction false} DiskSame(su: Setup, w: World, v: World)
    requires DiskInv(su, w) && v.dir == w.dir && v.chains == w.chains && v.begun == w.begun
    ensures DiskInv(su, v)
  {
    forall id
      ensures FilesInv(su, id, FilesOf(v.dir, id), ChainIn(v, id), Begun(su, v, id))
    {
      assert FilesInv(su, id, FilesOf(w.dir, id), ChainIn(w, id), Begun(su, w, id));
    }
  }

  lemma {:induction false} MemorySame(su: Setup, w: World, v: World)
    requires !w.process.Down? && !v.process.Down? && MemoryInv(su, w) && v.process.systems == w.process.systems
    requires forall id :: InMemory(v, id) == InMemory(w, id)
    ensures MemoryInv(su, v)
  {
    forall id
      ensures Lookup(v.process.systems, id) == Knows(id, InMemory(v, id), su.retired)
    {
      assert Lookup(w.process.systems, id) == Knows(id, InMemory(w, id), su.retired);
    }
  }

  /** A step on one system's files leaves the other systems alone. */
  lemma {:induction false} DiskStep(su: Setup, w: World, v: World, id: SystemId)
    requires DiskInv(su, w)
    requires v.begun == w.begun
    requires forall i :: i != id ==> FilesOf(v.dir, i) == FilesOf(w.dir, i) && ChainIn(v, i) == ChainIn(w, i)
    requires FilesInv(su, id, FilesOf(v.dir, id), ChainIn(v, id), Begun(su, v, id))
    ensures DiskInv(su, v)
  {
    forall i
      ensures FilesInv(su, i, FilesOf(v.dir, i), ChainIn(v, i), Begun(su, v, i))
    {
      assert FilesInv(su, i, FilesOf(w.dir, i), ChainIn(w, i), Begun(su, w, i));
    }
  }

  lemma {:induction false} WriteJournalKeeps(su: Setup, w: World)
    requires JsonLines() && Inv(su, w) && w.process.Signing? && w.process.todo == WriteJournal
    ensures Inv(su, AdvanceFrom(w))
  {
    hide ChainInv, VersionsInv, JournalSays, Knows, StateOf, Serialize, Appended;
    var r := w.process.receipt;
    var id := r.body.systemId;
    var f := FilesOf(w.dir, id);
    var v := AdvanceFrom(w);
    assert FilesInv(su, id, f, ChainIn(w, id), Begun(su, w, id));
    assert Appended(f.journal, r)[..|Appended(f.journal, r)|] == Appended(f.journal, r);
    AppendKeeps(su, id, f, ChainIn(w, id), Begun(su, w, id), r, |Appended(f.journal, r)|);
    DiskStep(su, w, v, id);
    MemorySame(su, w, v);
  }

  lemma {:induction false} KillInWriteKeeps(su: Setup, w: World, n: nat)
    requires JsonLines() && Inv(su, w) && Enabled(su, w, KillInWrite(n))
    ensures Inv(su, Apply(su, w, KillInWrite(n)))
  {
    hide ChainInv, VersionsInv, JournalSays, Knows, StateOf, Serialize, Appended;
    var r := w.process.receipt;
    var id := r.body.systemId;
    assert FilesInv(su, id, FilesOf(w.dir, id), ChainIn(w, id), Begun(su, w, id));
    AppendKeeps(su, id, FilesOf(w.dir, id), ChainIn(w, id), Begun(su, w, id), r, n);
    DiskStep(su, w, Apply(su, w, KillInWrite(n)), id);
  }

  lemma {:induction false} SyncJournalKeeps(su: Setup, w: World)
    requires Inv(su, w) && w.process.Signing? && w.process.todo == SyncJournal
    ensures Inv(su, AdvanceFrom(w))
  {
    hide ChainInv, VersionsInv, JournalSays, Knows, StateOf, Serialize, Appended;
    var id := w.process.receipt.body.systemId;
    assert FilesInv(su, id, FilesOf(w.dir, id), ChainIn(w, id), Begun(su, w, id));
    DiskStep(su, w, AdvanceFrom(w), id);
    MemorySame(su, w, AdvanceFrom(w));
  }

  lemma {:induction false} TemporaryKeeps(su: Setup, w: World)
    requires Inv(su, w) && w.process.Signing? && w.process.todo in {WriteTemp, SyncTemp}
    ensures Inv(su, AdvanceFrom(w))
  {
    hide ChainInv, VersionsInv, JournalSays, Knows, StateOf, Serialize, Appended;
    var id := w.process.receipt.body.systemId;
    assert FilesInv(su, id, FilesOf(w.dir, id), ChainIn(w, id), Begun(su, w, id));
    DiskStep(su, w, AdvanceFrom(w), id);
    MemorySame(su, w, AdvanceFrom(w));
  }

  lemma {:induction false} DirectoryFlushKeeps(su: Setup, w: World)
    requires Inv(su, w) && w.process.Signing? && w.process.todo in {LinkJournal, SyncRename}
    ensures Inv(su, AdvanceFrom(w))
  {
    hide FilesInv, Knows, StateOf, Serialize, FlushDirectory, JournalSays, ChainInv;
    FlushDirectoryKeeps(su, w);
    var v := AdvanceFrom(w);
    DiskSame(su, w.(dir := FlushDirectory(w.dir)), v);
    MemorySame(su, w, v);
    var id := w.process.receipt.body.systemId;
    assert FilesOf(v.dir, id) == FlushEntries(FilesOf(w.dir, id));
    if v.process.todo == Reply {
      forall i
        ensures Settled(v, i)
      {
        assert Settled(w.(dir := FlushDirectory(w.dir)), i);
      }
    }
  }

  lemma {:induction false} RenameStepKeeps(su: Setup, w: World)
    requires Inv(su, w) && w.process.Signing? && w.process.todo == Rename
    ensures Inv(su, AdvanceFrom(w))
  {
    hide FilesInv, Knows, StateOf, Serialize, JournalSays, ChainInv;
    var p := w.process;
    var id := p.receipt.body.systemId;
    var chain := ChainIn(w, id);
    var v := AdvanceFrom(w);
    assert FilesInv(su, id, FilesOf(w.dir, id), chain, Begun(su, w, id));
    RenameKeeps(su, id, FilesOf(w.dir, id), chain, Begun(su, w, id), p.receipt, p.next);
    DiskStep(su, w, v, id);
    assert (chain + [p.receipt])[..|chain|] == chain;
    forall i
      ensures InMemory(v, i) == InMemory(w, i)
    {
    }
    MemorySame(su, w, v);
  }

  lemma {:induction false} ReplyKeeps(su: Setup, w: World)
    requires Inv(su, w) && w.process.Signing? && w.process.todo == Reply
    ensures Inv(su, AdvanceFrom(w))
  {
    hide FilesInv, ChainInv, StageInv, DiskInv, Settled, StateOf, Serialize, JournalSays;
    var p := w.process;
    var id := p.receipt.body.systemId;
    var v := AdvanceFrom(w);
    DiskSame(su, w, v);
    assert ChainIn(w, id) == InMemory(w, id) + [p.receipt];
    assert p.next == StateOf(id, InMemory(w, id) + [p.receipt]);
    forall i
      ensures Lookup(v.process.systems, i) == Knows(i, InMemory(v, i), su.retired)
    {
      assert InMemory(v, i) == ChainIn(w, i);
      assert Lookup(p.systems, i) == Knows(i, InMemory(w, i), su.retired);
      if i != id {
        assert InMemory(w, i) == ChainIn(w, i);
      }
    }
  }

  lemma {:induction false} CutSystem(su: Setup, w: World, left: map<SystemId, Left>, id: SystemId)
    requires DiskInv(su, w) && Enabled(su, w, PowerCut(left))
    ensures var v := Apply(su, w, PowerCut(left));
            FilesInv(su, id, FilesOf(v.dir, id), ChainIn(v, id), Begun(su, v, id))
  {
    hide FilesInv, CutChain, ChainIn, Cut, LeftOk, Begun;
    var f, chain := FilesOf(w.dir, id), ChainIn(w, id);
    assert FilesInv(su, id, f, chain, Begun(su, w, id));
    CutChainIn(su, w, left, id);
    CutBegunIn(su, w, left, id);
    if id in w.dir {
      CutKeeps(su, id, f, chain, Begun(su, w, id), LeftOf(left, id, f));
    }
  }

  lemma {:induction false} PowerCutKeeps(su: Setup, w: World, left: map<SystemId, Left>)
    requires Inv(su, w) && Enabled(su, w, PowerCut(left))
    ensures Inv(su, Apply(su, w, PowerCut(left)))
  {
    var v := Apply(su, w, PowerCut(left));
    forall id
      ensures FilesInv(su, id, FilesOf(v.dir, id), ChainIn(v, id), Begun(su, v, id))
    {
      CutSystem(su, w, left, id);
    }
  }

  lemma {:induction false} CutChainIn(su: Setup, w: World, left: map<SystemId, Left>, id: SystemId)
    requires DiskInv(su, w) && Enabled(su, w, PowerCut(left))
    ensures var f, chain := FilesOf(w.dir, id), ChainIn(w, id);
            var v := Apply(su, w, PowerCut(left));
            if id in w.dir then ChainIn(v, id) == chain[..|chain| - (|f.versions| - 1 - LeftOf(left, id, f).version)]
            else ChainIn(v, id) == chain == []
  {
    hide ChainInv, JournalInv, Cut, CutBegun, Begun, JournalKept, ContentFor, LeftOf;
    assert FilesInv(su, id, FilesOf(w.dir, id), ChainIn(w, id), Begun(su, w, id));
    if id !in w.dir {
      NoFilesNoChain(su, w, id);
    }
  }

  lemma {:induction false} NoFilesNoChain(su: Setup, w: World, id: SystemId)
    requires DiskInv(su, w) && id !in w.dir
    ensures ChainIn(w, id) == []
  {
    hide ChainInv, JournalInv, Serialize;
    assert FilesInv(su, id, FilesOf(w.dir, id), ChainIn(w, id), Begun(su, w, id));
    VisibleIsContent(su, id, FilesOf(w.dir, id), ChainIn(w, id));
  }

  /** A journal that is lost begins anew after the chain that is left. */
  lemma {:induction false} CutBegunIn(su: Setup, w: World, left: map<SystemId, Left>, id: SystemId)
    requires DiskInv(su, w) && Enabled(su, w, PowerCut(left))
    ensures var f, v := FilesOf(w.dir, id), Apply(su, w, PowerCut(left));
            var lost := id in w.dir && !JournalKept(f, LeftOf(left, id, f));
            Begun(su, v, id) == if lost then |ChainIn(v, id)| else Begun(su, w, id)
  {
    hide FilesInv, Cut, JournalKept, LeftOf, LeftOk;
  }

  /** Every step keeps the invariant. */
  lemma {:induction false} StepKeeps(su: Setup, w: World, e: Event)
    requires JsonLines() && Inv(su, w) && Enabled(su, w, e)
    ensures Inv(su, Apply(su, w, e))
  {
    hide JsonLines, Inv, AdvanceFrom, Decide, NextState, LeftOk, Loadable, Loaded, CutChain, CutBegun, Cut, Appended;
    match e
    case Restart => RestartKeeps(su, w);
    case BeginSign(b, clock) => BeginSignKeeps(su, w, b, clock);
    case Advance => AdvanceKeeps(su, w);
    case GetHead(_) => ReadKeeps(su, w, Apply(su, w, e));
    case GetReceipts(_, _, _) => ReadKeeps(su, w, Apply(su, w, e));
    case GetCheckpoint(_, _) => ReadKeeps(su, w, Apply(su, w, e));
    case KillInWrite(n) => KillInWriteKeeps(su, w, n);
    case Kill => KillKeeps(su, w);
    case PowerCut(left) => PowerCutKeeps(su, w, left);
  }

  lemma {:induction false} KillKeeps(su: Setup, w: World)
    requires Inv(su, w)
    ensures Inv(su, w.(process := Down))
  {
    hide FilesInv;
    DiskSame(su, w, w.(process := Down));
  }

  lemma {:induction false} ReadKeeps(su: Setup, w: World, v: World)
    requires Inv(su, w) && w.process.Idle? && v == w.(exposed := v.exposed, issued := v.issued)
    ensures Inv(su, v)
  {
    hide FilesInv, Knows;
    DiskSame(su, w, v);
    MemorySame(su, w, v);
  }

  lemma {:induction false} AdvanceKeeps(su: Setup, w: World)
    requires JsonLines() && Inv(su, w) && w.process.Signing?
    ensures Inv(su, AdvanceFrom(w))
  {
    hide JsonLines, Inv, AdvanceFrom;
    match w.process.todo
    case WriteJournal => WriteJournalKeeps(su, w);
    case SyncJournal => SyncJournalKeeps(su, w);
    case LinkJournal => DirectoryFlushKeeps(su, w);
    case WriteTemp => TemporaryKeeps(su, w);
    case SyncTemp => TemporaryKeeps(su, w);
    case Rename => RenameStepKeeps(su, w);
    case SyncRename => DirectoryFlushKeeps(su, w);
    case Reply => ReplyKeeps(su, w);
  }
}
