/**
 * The class that is the signer and the machine whose runs are shown safe are one:
 * what a call answers and leaves behind is what the events it stands for do.
 */
module SignerRefines {
  import opened Prelude
  import opened Receipts
  import opened Journal
  import opened StateDirectory
  import opened Signer
  import opened SignerRuns
  import opened SignerSafety
  import opened SignerTheorems

  /** The world in which the signer, idle, is this object. */
  ghost predicate IsOf(s: Signer, su: Setup, w: World)
    reads s.state
  {
    && s.key == su.key && s.toleranceMs == su.toleranceMs
    && w.dir == s.state.dir && w.process == Idle(s.state.systems)
  }

  lemma {:induction false} AcceptedIsEnabled(su: Setup, w: World, b: Body, clock: int)
    requires Inv(su, w) && w.process.Idle?
    requires Decide(Lookup(w.process.systems, b.systemId), su.key.keyId, b, clock, su.toleranceMs).None?
    ensures Enabled(su, w, BeginSign(b, clock))
  {
    hide Inv, Decide, NextState, Knows, ChainInv;
    ReplyFromMemory(su, w, b.systemId);
    AcceptedIsNext(su, b.systemId, ChainIn(w, b.systemId), b, clock);
  }

  /**
   * A call of signReceipt is a run of the machine: no event at all where it
   * refuses, and otherwise a signature begun and carried through to its reply. It
   * never fails, and the invariant and the record of replies hold after it.
   */
  method SignReceiptIsARun(s: Signer, ghost su: Setup, ghost w: World, b: Body, clock: int)
    returns (reply: SignReply, ghost es: seq<Event>)
    requires JsonLines() && Inv(su, w) && IsOf(s, su, w)
    modifies s.state
    ensures Admissible(su, w, es) && RepliesSettled(su, w, es)
    ensures IsOf(s, su, Run(su, w, es)) && Inv(su, Run(su, w, es))
    ensures !reply.Failed? && (reply.Refused? <==> es == [])
    ensures reply.Signed? ==>
              reply.hash == ReceiptHash(b) && Receipt(b, reply.sig) in Run(su, w, es).exposed
  {
    hide Inv, JsonLines, Decide, NextState, RecordEffect, PutEffect, Enabled, Apply;
    ghost var systems := s.state.systems;
    reply := s.SignReceipt(b, clock);
    if reply.Refused? {
      es := [];
    } else {
      AcceptedIsEnabled(su, w, b, clock);
      EnabledHasNext(su, w, b, clock);
      es := UninterruptedIsSignReceipt(su, w, b, clock);
      es := [BeginSign(b, clock)] + es;
      RunKeeps(su, w, es);
      SigningIsSettled(su, w, es);
    }
  }

  lemma {:induction false} EnabledHasNext(su: Setup, w: World, b: Body, clock: int)
    requires w.process.Idle? && Enabled(su, w, BeginSign(b, clock))
    ensures NextState(Lookup(w.process.systems, b.systemId), SignedReceipt(su.key, b)).Some?
  {
  }

  lemma {:induction false} SigningIsSettled(su: Setup, w: World, es: seq<Event>)
    requires Admissible(su, w, es) && forall i :: 0 <= i < |es| ==> es[i].BeginSign? || es[i].Advance?
    ensures RepliesSettled(su, w, es)
    decreases |es|
  {
    hide Enabled, Apply;
    if es != [] {
      SigningIsSettled(su, Apply(su, w, es[0]), es[1..]);
    }
  }

  /** A call that only reads is the event of its name: what it answers is exposed by it. */
  method HeadIsARun(s: Signer, ghost su: Setup, ghost w: World, id: SystemId) returns (head: Option<Receipt>)
    requires IsOf(s, su, w)
    ensures Enabled(su, w, GetHead(id)) && IsOf(s, su, Apply(su, w, GetHead(id)))
    ensures Apply(su, w, GetHead(id)).exposed == w.exposed + (if head.Some? then {head.value} else {})
  {
    head := s.Head(id);
  }

  method GetReceiptsIsARun(s: Signer, ghost su: Setup, ghost w: World, id: SystemId, fromSeq: nat, limit: nat)
    returns (r: Result<seq<Receipt>, RefusalCode>)
    requires IsOf(s, su, w)
    ensures Enabled(su, w, GetReceipts(id, fromSeq, limit))
              && IsOf(s, su, Apply(su, w, GetReceipts(id, fromSeq, limit)))
    ensures Apply(su, w, GetReceipts(id, fromSeq, limit)).exposed
            == w.exposed + (if r.Ok? then set x | x in r.value else {})
  {
    hide ReceiptsOf, Entries;
    r := s.GetReceipts(id, fromSeq, limit);
  }

  method CheckpointIsARun(s: Signer, ghost su: Setup, ghost w: World, id: SystemId, ts: int)
    returns (r: Result<Receipts.Checkpoint, RefusalCode>)
    requires IsOf(s, su, w)
    ensures Enabled(su, w, GetCheckpoint(id, ts)) && IsOf(s, su, Apply(su, w, GetCheckpoint(id, ts)))
    ensures Apply(su, w, GetCheckpoint(id, ts)).issued == w.issued + (if r.Ok? then {r.value} else {})
  {
    hide CheckpointOver;
    r := s.Checkpoint(id, ts);
  }

  lemma {:induction false} RestartIsDefined(su: Setup, w: World)
    requires Inv(su, w)
    ensures Loadable(w.dir)
  {
    hide FilesInv, Loadable, LoadOne;
    RestartSucceeds(su, w);
  }

  /** Opening what a crash left is the event Restart; it is never refused. */
  method OpenIsRestart(ghost su: Setup, ghost w: World, dir: Directory, key: SignerKey, toleranceMs: nat)
    returns (s: Signer)
    requires Inv(su, w) && w.process.Down? && dir == w.dir && key == su.key && toleranceMs == su.toleranceMs
    ensures fresh(s) && fresh(s.state)
    ensures IsOf(s, su, Apply(su, w, Restart)) && Inv(su, Apply(su, w, Restart))
  {
    hide Inv, Loaded, Loadable, LoadOne;
    RestartIsDefined(su, w);
    RestartKeeps(su, w);
    var directory := StateDirectory.Open(dir);
    s := new Signer(key, directory.value, toleranceMs);
  }
}
