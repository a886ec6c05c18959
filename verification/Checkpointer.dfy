/**
 * apps/server/src/checkpoint/checkpointer.ts: the class, with the chain of promises
 * by which serially makes each piece of work wait for the one before it. Nothing
 * but that chain keeps two runs from executing at once.
 */
module Checkpointer {
  import opened Prelude
  import opened RunQueue

  /** A piece of work given to serially: not called yet, asleep for the gap, at work,
      a requested one at work on its `finally`, or over, fulfilled or rejected. */
  datatype Phase = Pending | Asleep(until: int) | AtWork | Noting(fulfilled: bool) | Settled(fulfilled: bool)

  /** `after` is the promise that was `lock` when the work was given. */
  datatype Job = Job(kind: Kind, after: Option<nat>, phase: Phase)

  /** The fields, with every piece of work ever given, in order; `lock` is the promise
      of the last. The rest as in RunQueue. */
  datatype Chain = Chain(
    timer: bool, retryTimer: Option<nat>, running: bool, work: seq<Job>, lock: Option<nat>,
    requested: Option<nat>, requestedEndedAt: int, finished: seq<nat>,
    live: set<nat>, timers: nat, jobs: nat, clock: int, asks: seq<Ask>, runs: seq<Run>)

  const EMPTY_CHAIN := Chain(false, None, false, [], None, None, 0, [], {}, 0, 0, 0, [], [])

  /** What may happen to which piece of work, k, is not settled beforehand. */
  datatype Happening =
    | Starting | TimerFiring | RetryFiring(t: nat) | Requesting
    | Called(k: nat, now: int) | Woken(k: nat, now: int) | Ended(k: nat, outcome: Option<nat>) | Noted(k: nat, now: int)
    | Resumed | Stopping

  /** then(work, work): called once the promise before it has settled, either way. */
  predicate IsDue(c: Chain, k: nat) {
    && k < |c.work| && c.work[k].phase == Pending
    && (c.work[k].after.Some? ==>
          c.work[k].after.value < |c.work| && c.work[c.work[k].after.value].phase.Settled?)
  }

  predicate MayHappen(c: Chain, h: Happening) {
    match h
    case Starting => true
    case TimerFiring => c.timer
    case RetryFiring(t) => t in c.live
    case Requesting => true
    case Called(k, now) => IsDue(c, k) && now >= c.clock
    case Woken(k, now) =>
      k < |c.work| && c.work[k].phase.Asleep? && now >= c.clock && now >= c.work[k].phase.until
    case Ended(k, _) => k < |c.work| && c.work[k].phase == AtWork
    case Noted(k, now) => k < |c.work| && c.work[k].phase.Noting? && now >= c.clock
    case Resumed => c.finished != []
    case Stopping => true
  }

  // ----- the steps -----

  /** serially */
  function Serially(c: Chain, kind: Kind): Chain {
    c.(work := c.work + [Job(kind, c.lock, Pending)], lock := Some(|c.work|))
  }

  /** exclusively, up to its first await. */
  function UnlessRunning(c: Chain, kind: Kind): Chain { if c.running then c else Serially(c, kind) }

  function Put(c: Chain, k: nat, phase: Phase): Chain
    requires k < |c.work|
  {
    c.(work := c.work[k := c.work[k].(phase := phase)])
  }

  function IdOf(kind: Kind): nat { if kind.RequestedRun? then kind.id else 0 }

  /** A requested run begins: from here on a new request needs a run of its own. */
  function BeginAt(c: Chain, k: nat, now: int): Chain
    requires k < |c.work|
  {
    Put(c, k, AtWork).(requested := None, running := true, clock := now,
                       runs := c.runs + [Run(IdOf(c.work[k].kind), now, None)])
  }

  function Do(gapMs: nat, c: Chain, h: Happening): Chain
    requires MayHappen(c, h)
  {
    match h
    case Starting => if c.timer then c else UnlessRunning(c.(timer := true), TickRun)
    case TimerFiring => UnlessRunning(c, TickRun)
    case RetryFiring(t) => UnlessRunning(c.(retryTimer := None, live := c.live - {t}), RetryRun)
    case Requesting =>
      if c.requested.Some? then c.(asks := c.asks + [Ask(c.requested.value, |c.runs|)])
      else Serially(c, RequestedRun(c.jobs)).(requested := Some(c.jobs), jobs := c.jobs + 1,
                                              asks := c.asks + [Ask(c.jobs, |c.runs|)])
    case Called(k, now) =>
      if !c.work[k].kind.RequestedRun? then Put(c, k, AtWork).(running := true, clock := now)
      else
        var wait := c.requestedEndedAt + gapMs - now;
        if wait > 0 then Put(c, k, Asleep(now + wait)).(clock := now) else BeginAt(c, k, now)
    case Woken(k, now) => BeginAt(c, k, now)
    case Ended(k, outcome) =>
      var pending := if outcome.Some? then outcome.value else 0;
      if c.work[k].kind.RequestedRun? then Put(c, k, Noting(outcome.Some?)).(running := false)
      else Put(c, k, Settled(outcome.Some?)).(running := false, finished := c.finished + [pending])
    case Noted(k, now) =>
      Put(c, k, Settled(c.work[k].phase.fulfilled)).(
        requestedEndedAt := now, clock := now,
        runs := if c.runs == [] then [] else c.runs[|c.runs| - 1 := c.runs[|c.runs| - 1].(end := Some(now))])
    case Resumed =>
      var d := c.(finished := c.finished[1..]);
      if c.finished[0] > 0 && c.timer && c.retryTimer.None?
      then d.(retryTimer := Some(c.timers), live := c.live + {c.timers}, timers := c.timers + 1) else d
    case Stopping =>
      var live := if c.retryTimer.Some? then c.live - {c.retryTimer.value} else c.live;
      c.(timer := false, retryTimer := None, live := live)
  }

  // ----- the chain is a queue with one holder of the lock -----

  function HolderOf(job: Job): Current {
    match job.phase
    case Pending => NoJob
    case Asleep(until) => Sleeping(IdOf(job.kind), until)
    case AtWork => Executing(job.kind)
    case Noting(_) => Settling(IdOf(job.kind))
    case Settled(_) => NoJob
  }

  function QueueOf(work: seq<Job>): seq<Kind> {
    if work == [] then []
    else
      var last := work[|work| - 1];
      if last.phase == Pending then QueueOf(work[..|work| - 1]) + [last.kind] else QueueOf(work[..|work| - 1])
  }

  function CurrentOf(work: seq<Job>): Current {
    if work == [] then NoJob
    else if HolderOf(work[|work| - 1]) != NoJob then HolderOf(work[|work| - 1])
    else CurrentOf(work[..|work| - 1])
  }

  function AsQueue(c: Chain): State {
    State(c.timer, c.retryTimer, c.running, QueueOf(c.work), CurrentOf(c.work), c.requested, c.requestedEndedAt,
          c.finished, c.live, c.timers, c.jobs, c.clock, c.asks, c.runs)
  }

  function AsEvent(h: Happening): Event {
    match h
    case Starting => Start
    case TimerFiring => TimerFires
    case RetryFiring(t) => RetryFires(t)
    case Requesting => RequestRun
    case Called(_, now) => JobStarts(now)
    case Woken(_, now) => Wakes(now)
    case Ended(_, outcome) => RunEnds(outcome)
    case Noted(_, now) => Settles(now)
    case Resumed => AfterRun
    case Stopping => Stop
  }

  /** Each piece of work waits for the one given before it, and none has been called
      before all those had settled; only a requested one sleeps or notes its end. */
  ghost predicate InTurn(work: seq<Job>, lock: Option<nat>) {
    && lock == (if work == [] then None else Some(|work| - 1))
    && (forall k :: 0 <= k < |work| ==> work[k].after == if k == 0 then None else Some(k - 1))
    && (forall i, j :: 0 <= i < j < |work| && work[j].phase != Pending ==> work[i].phase.Settled?)
    && (forall k :: 0 <= k < |work| && (work[k].phase.Asleep? || work[k].phase.Noting?) ==> work[k].kind.RequestedRun?)
  }

  /** All before k are settled, and none after it is called. */
  ghost predicate IsTurnOf(work: seq<Job>, k: nat) {
    && k < |work|
    && (forall i :: 0 <= i < k ==> work[i].phase.Settled?)
    && (forall i :: k < i < |work| ==> work[i].phase == Pending)
  }

  function Kinds(work: seq<Job>): seq<Kind> {
    if work == [] then [] else Kinds(work[..|work| - 1]) + [work[|work| - 1].kind]
  }

  lemma {:induction false} SettledAreNone(work: seq<Job>)
    requires forall i :: 0 <= i < |work| ==> work[i].phase.Settled?
    ensures QueueOf(work) == [] && CurrentOf(work) == NoJob
    decreases |work|
  {
    if work != [] {
      SettledAreNone(work[..|work| - 1]);
    }
  }

  lemma {:induction false} AtTurn(work: seq<Job>, k: nat)
    requires IsTurnOf(work, k)
    ensures QueueOf(work) == (if work[k].phase == Pending then [work[k].kind] else []) + Kinds(work[k + 1..])
    ensures CurrentOf(work) == HolderOf(work[k])
    decreases |work|
  {
    var front, last := work[..|work| - 1], work[|work| - 1];
    if k == |work| - 1 {
      SettledAreNone(front);
      assert work[k + 1..] == [];
    } else {
      AtTurn(front, k);
      assert work[k + 1..][..|work| - k - 2] == front[k + 1..];
      assert work[k + 1..][|work| - k - 2] == last;
    }
  }

  /** Whoever is due, asleep, at work or noting is the one whose turn it is. */
  lemma {:induction false} ItsTurn(c: Chain, k: nat)
    requires InTurn(c.work, c.lock) && k < |c.work|
    requires IsDue(c, k) || (c.work[k].phase != Pending && !c.work[k].phase.Settled?)
    ensures IsTurnOf(c.work, k)
    ensures QueueOf(c.work) == (if c.work[k].phase == Pending then [c.work[k].kind] else []) + Kinds(c.work[k + 1..])
    ensures CurrentOf(c.work) == HolderOf(c.work[k])
    ensures c.work[k].phase.Asleep? || c.work[k].phase.Noting? ==> c.work[k].kind.RequestedRun?
  {
    forall i | 0 <= i < k
      ensures c.work[i].phase.Settled?
    {
      if i < k - 1 {
        assert c.work[k - 1].phase.Settled?;
      }
    }
    forall i | k < i < |c.work|
      ensures c.work[i].phase == Pending
    {
    }
    AtTurn(c.work, k);
  }

  /** Work called at its turn leaves the others as they are, and in turn. */
  lemma {:induction false} PutInTurn(c: Chain, k: nat, phase: Phase)
    requires InTurn(c.work, c.lock) && IsTurnOf(c.work, k) && phase != Pending
    requires phase.Asleep? || phase.Noting? ==> c.work[k].kind.RequestedRun?
    ensures InTurn(Put(c, k, phase).work, c.lock)
    ensures CurrentOf(Put(c, k, phase).work) == HolderOf(c.work[k].(phase := phase))
    ensures QueueOf(Put(c, k, phase).work) == Kinds(c.work[k + 1..])
  {
    hide QueueOf, CurrentOf, Kinds;
    var work := Put(c, k, phase).work;
    assert IsTurnOf(work, k);
    AtTurn(work, k);
    assert work[k + 1..] == c.work[k + 1..];
    assert [] + Kinds(work[k + 1..]) == Kinds(work[k + 1..]);
  }

  lemma {:induction false} GivenInTurn(c: Chain, kind: Kind)
    requires InTurn(c.work, c.lock)
    ensures InTurn(Serially(c, kind).work, Serially(c, kind).lock)
    ensures QueueOf(Serially(c, kind).work) == QueueOf(c.work) + [kind]
    ensures CurrentOf(Serially(c, kind).work) == CurrentOf(c.work)
  {
    var work := Serially(c, kind).work;
    assert work[..|work| - 1] == c.work;
  }

  /** What may happen to the chain may happen to the queue it stands for, and does the
      same to it; and the chain stays in turn. */
  ghost predicate Refines(gapMs: nat, c: Chain, h: Happening)
    requires MayHappen(c, h)
  {
    var d := Do(gapMs, c, h);
    && Enabled(AsQueue(c), AsEvent(h)) && AsQueue(d) == Apply(gapMs, AsQueue(c), AsEvent(h))
    && InTurn(d.work, d.lock)
  }

  /** The chain of promises refines the queue. */
  lemma {:induction false} ChainRefinesQueue(gapMs: nat, c: Chain, h: Happening)
    requires InTurn(c.work, c.lock) && MayHappen(c, h)
    ensures Refines(gapMs, c, h)
  {
    hide InTurn, IsDue, Refines, Do;
    match h
    case Called(k, now) => CalledRefines(gapMs, c, k, now);
    case Woken(k, now) => WokenRefines(gapMs, c, k, now);
    case Ended(k, outcome) => EndedRefines(gapMs, c, k, outcome);
    case Noted(k, now) => NotedRefines(gapMs, c, k, now);
    case Resumed => OthersRefine(gapMs, c, h);
    case Stopping => OthersRefine(gapMs, c, h);
    case _ => GivingRefines(gapMs, c, h);
  }

  lemma {:induction false} OthersRefine(gapMs: nat, c: Chain, h: Happening)
    requires InTurn(c.work, c.lock) && MayHappen(c, h) && (h.Resumed? || h.Stopping?)
    ensures Refines(gapMs, c, h)
  {
    hide QueueOf, CurrentOf, InTurn;
  }

  lemma {:induction false} GivingRefines(gapMs: nat, c: Chain, h: Happening)
    requires InTurn(c.work, c.lock) && MayHappen(c, h)
    requires h.Starting? || h.TimerFiring? || h.RetryFiring? || h.Requesting?
    ensures Refines(gapMs, c, h)
  {
    hide QueueOf, CurrentOf, InTurn;
    match h
    case Starting => GivenInTurn(c.(timer := true), TickRun);
    case TimerFiring => GivenInTurn(c, TickRun);
    case RetryFiring(t) => GivenInTurn(c.(retryTimer := None, live := c.live - {t}), RetryRun);
    case Requesting => GivenInTurn(c, RequestedRun(c.jobs));
  }

  lemma {:induction false} CalledRefines(gapMs: nat, c: Chain, k: nat, now: int)
    requires InTurn(c.work, c.lock) && MayHappen(c, Called(k, now))
    ensures Refines(gapMs, c, Called(k, now))
  {
    hide QueueOf, CurrentOf, InTurn, IsTurnOf, Kinds;
    ItsTurn(c, k);
    var kind, rest := c.work[k].kind, Kinds(c.work[k + 1..]);
    assert QueueOf(c.work) == [kind] + rest && ([kind] + rest)[1..] == rest;
    var wait := c.requestedEndedAt + gapMs - now;
    if kind.RequestedRun? && wait > 0 {
      PutInTurn(c, k, Asleep(now + wait));
    } else {
      PutInTurn(c, k, AtWork);
    }
  }

  lemma {:induction false} WokenRefines(gapMs: nat, c: Chain, k: nat, now: int)
    requires InTurn(c.work, c.lock) && MayHappen(c, Woken(k, now))
    ensures Refines(gapMs, c, Woken(k, now))
  {
    hide QueueOf, CurrentOf, InTurn, IsTurnOf, Kinds;
    ItsTurn(c, k);
    PutInTurn(c, k, AtWork);
  }

  lemma {:induction false} EndedRefines(gapMs: nat, c: Chain, k: nat, outcome: Option<nat>)
    requires InTurn(c.work, c.lock) && MayHappen(c, Ended(k, outcome))
    ensures Refines(gapMs, c, Ended(k, outcome))
  {
    hide QueueOf, CurrentOf, InTurn, IsTurnOf, Kinds;
    ItsTurn(c, k);
    if c.work[k].kind.RequestedRun? {
      PutInTurn(c, k, Noting(outcome.Some?));
    } else {
      PutInTurn(c, k, Settled(outcome.Some?));
    }
  }

  lemma {:induction false} NotedRefines(gapMs: nat, c: Chain, k: nat, now: int)
    requires InTurn(c.work, c.lock) && MayHappen(c, Noted(k, now))
    ensures Refines(gapMs, c, Noted(k, now))
  {
    hide QueueOf, CurrentOf, InTurn, IsTurnOf, Kinds;
    ItsTurn(c, k);
    PutInTurn(c, k, Settled(c.work[k].phase.fulfilled));
  }

  // ----- every interleaving -----

  ghost predicate Safe(gapMs: nat, c: Chain) { InTurn(c.work, c.lock) && Inv(gapMs, AsQueue(c)) }

  lemma {:induction false} HappeningKeeps(gapMs: nat, c: Chain, h: Happening)
    requires Safe(gapMs, c) && MayHappen(c, h)
    ensures Safe(gapMs, Do(gapMs, c, h))
  {
    hide InTurn, Inv, MayHappen, Do, AsQueue, Enabled, Apply;
    ChainRefinesQueue(gapMs, c, h);
    StepKeeps(gapMs, AsQueue(c), AsEvent(h));
  }

  ghost predicate MayAllHappen(gapMs: nat, c: Chain, hs: seq<Happening>)
    decreases |hs|
  {
    hs == [] || (MayHappen(c, hs[0]) && MayAllHappen(gapMs, Do(gapMs, c, hs[0]), hs[1..]))
  }

  ghost function DoAll(gapMs: nat, c: Chain, hs: seq<Happening>): Chain
    requires MayAllHappen(gapMs, c, hs)
    decreases |hs|
  {
    if hs == [] then c else DoAll(gapMs, Do(gapMs, c, hs[0]), hs[1..])
  }

  /** All of it is one thing after the other. */
  lemma {:induction false} DoAllSnoc(gapMs: nat, c: Chain, hs: seq<Happening>, h: Happening)
    requires MayAllHappen(gapMs, c, hs) && MayHappen(DoAll(gapMs, c, hs), h)
    ensures MayAllHappen(gapMs, c, hs + [h])
    ensures DoAll(gapMs, c, hs + [h]) == Do(gapMs, DoAll(gapMs, c, hs), h)
    decreases |hs|
  {
    hide Do, MayHappen;
    if hs == [] {
      assert hs + [h] == [h] && [h][1..] == [];
    } else {
      assert (hs + [h])[1..] == hs[1..] + [h];
      DoAllSnoc(gapMs, Do(gapMs, c, hs[0]), hs[1..], h);
    }
  }

  lemma {:induction false} AllKeep(gapMs: nat, c: Chain, hs: seq<Happening>)
    requires Safe(gapMs, c) && MayAllHappen(gapMs, c, hs)
    ensures Safe(gapMs, DoAll(gapMs, c, hs))
    decreases |hs|
  {
    hide Safe, MayHappen, Do;
    if hs != [] {
      HappeningKeeps(gapMs, c, hs[0]);
      AllKeep(gapMs, Do(gapMs, c, hs[0]), hs[1..]);
    }
  }

  lemma {:induction false} EmptyIsSafe(gapMs: nat)
    ensures Safe(gapMs, EMPTY_CHAIN)
  {
    RunQueue.InitialInv(gapMs);
  }

  /** At most one run executes, and `running` says exactly when. */
  ghost predicate OneAtATime(c: Chain) {
    && (forall i, j :: 0 <= i < |c.work| && 0 <= j < |c.work| && c.work[i].phase == c.work[j].phase == AtWork ==>
        i == j)
    && (c.running <==> exists i :: 0 <= i < |c.work| && c.work[i].phase == AtWork)
  }

  lemma {:induction false} SafeIsOneAtATime(gapMs: nat, c: Chain)
    requires Safe(gapMs, c)
    ensures OneAtATime(c)
  {
    hide QueueOf, SharedOk, AsksServed, RunsDistinct, GapsKept, RetriesOk;
    assert RunningIsExact(AsQueue(c));
    if i :| 0 <= i < |c.work| && c.work[i].phase == AtWork {
      ItsTurn(c, i);
      AtTurn(c.work, i);
    } else {
      NoneAtWork(c.work);
    }
  }

  lemma {:induction false} NoneAtWork(work: seq<Job>)
    requires forall i :: 0 <= i < |work| ==> work[i].phase != AtWork
    ensures !CurrentOf(work).Executing?
    decreases |work|
  {
    if work != [] {
      NoneAtWork(work[..|work| - 1]);
    }
  }

  /**
   * Over all interleavings of ticks, retries, requests, failures and ends: one run
   * at a time and `running` exactly then; one retry at most, none once stopped; each
   * request served by a run that begins after it; waiting requests sharing one; and
   * requested runs the gap apart.
   */
  lemma {:induction false} QueueIsSafe(gapMs: nat, hs: seq<Happening>)
    requires MayAllHappen(gapMs, EMPTY_CHAIN, hs)
    ensures var c := DoAll(gapMs, EMPTY_CHAIN, hs);
            OneAtATime(c) && Inv(gapMs, AsQueue(c))
  {
    hide OneAtATime, Inv, InTurn;
    EmptyIsSafe(gapMs);
    AllKeep(gapMs, EMPTY_CHAIN, hs);
    SafeIsOneAtATime(gapMs, DoAll(gapMs, EMPTY_CHAIN, hs));
  }

  /** A rejected run holds nobody up: where none is asleep, at work or noting, the
      first that is pending is due. */
  lemma {:induction false} NoneIsStuck(c: Chain) returns (k: nat)
    requires InTurn(c.work, c.lock) && CurrentOf(c.work) == NoJob && QueueOf(c.work) != []
    ensures IsDue(c, k) && QueueOf(c.work)[0] == c.work[k].kind
  {
    k := 0;
    while k < |c.work| && c.work[k].phase.Settled?
      invariant k <= |c.work|
      invariant forall i :: 0 <= i < k ==> c.work[i].phase.Settled?
    {
      k := k + 1;
    }
    if k == |c.work| {
      SettledAreNone(c.work);
    } else {
      assert IsTurnOf(c.work, k);
      AtTurn(c.work, k);
    }
  }

  // ----- the class -----

  class Checkpointer {
    const requestGapMs: nat
    var timer: bool
    var retryTimer: Option<nat>
    var running: bool
    /** The promises of serially, and the calls still in flight. */
    var work: seq<Job>
    var lock: Option<nat>
    var requested: Option<nat>
    var requestedEndedAt: int
    var finished: seq<nat>
    ghost var live: set<nat>
    ghost var clock: int
    ghost var asks: seq<Ask>
    ghost var runs: seq<Run>
    var timers: nat
    var jobs: nat

    ghost function Fields(): Chain
      reads this
    {
      Chain(timer, retryTimer, running, work, lock, requested, requestedEndedAt, finished, live, timers, jobs, clock,
          asks, runs)
    }

    /** What QueueIsSafe says of every interleaving holds between any two calls. */
    ghost predicate Valid()
      reads this
    {
      Safe(requestGapMs, Fields())
    }

    constructor (requestGapMs: nat)
      ensures Valid() && Fields() == EMPTY_CHAIN && this.requestGapMs == requestGapMs
    {
      this.requestGapMs := requestGapMs;
      timer, retryTimer, running, requested, requestedEndedAt := false, None, false, None, 0;
      work, lock, finished, live, clock, asks, runs, timers, jobs := [], None, [], {}, 0, [], [], 0, 0;
      new;
      EmptyIsSafe(requestGapMs);
    }

    method StartTimer()
      requires Valid()
      modifies this
      ensures Fields() == Do(requestGapMs, old(Fields()), Starting)
      ensures Valid()
    {
      hide Safe;
      HappeningKeeps(requestGapMs, Fields(), Starting);
      if timer {
        return;
      }
      timer := true;
      Exclusively(TickRun);
    }

    method Tick()
      requires Valid() && MayHappen(Fields(), TimerFiring)
      modifies this
      ensures Fields() == Do(requestGapMs, old(Fields()), TimerFiring)
      ensures Valid()
    {
      hide Safe;
      HappeningKeeps(requestGapMs, Fields(), TimerFiring);
      Exclusively(TickRun);
    }

    /** exclusively, up to its first await. */
    method Exclusively(kind: Kind)
      modifies this
      ensures Fields() == UnlessRunning(old(Fields()), kind)
    {
      if running {
        return;
      }
      Enqueue(kind);
    }

    /** serially */
    method Enqueue(kind: Kind)
      modifies this
      ensures Fields() == Serially(old(Fields()), kind)
    {
      work := work + [Job(kind, lock, Pending)];
      lock := Some(|work| - 1);
    }

    method RetryDue(t: nat)
      requires Valid() && MayHappen(Fields(), RetryFiring(t))
      modifies this
      ensures Fields() == Do(requestGapMs, old(Fields()), RetryFiring(t))
      ensures Valid()
    {
      hide Safe;
      HappeningKeeps(requestGapMs, Fields(), RetryFiring(t));
      retryTimer := None;
      live := live - {t};
      Exclusively(RetryRun);
    }

    method Request() returns (job: nat)
      requires Valid()
      modifies this
      ensures Fields() == Do(requestGapMs, old(Fields()), Requesting)
      ensures Valid()
      ensures requested == Some(job)
    {
      hide Safe;
      HappeningKeeps(requestGapMs, Fields(), Requesting);
      if requested.Some? {
        asks := asks + [Ask(requested.value, |runs|)];
        return requested.value;
      }
      job := jobs;
      Enqueue(RequestedRun(job));
      jobs := jobs + 1;
      requested := Some(job);
      asks := asks + [Ask(job, |runs|)];
    }

    method CallWork(k: nat, now: int)
      requires Valid() && MayHappen(Fields(), Called(k, now))
      modifies this
      ensures Fields() == Do(requestGapMs, old(Fields()), Called(k, now))
      ensures Valid()
    {
      hide Safe;
      HappeningKeeps(requestGapMs, Fields(), Called(k, now));
      clock := now;
      if !work[k].kind.RequestedRun? {
        running := true;
        work := work[k := work[k].(phase := AtWork)];
        return;
      }
      var wait := requestedEndedAt + requestGapMs - now;
      if wait > 0 {
        work := work[k := work[k].(phase := Asleep(now + wait))];
        return;
      }
      BeginRun(k, now);
    }

    method BeginRun(k: nat, now: int)
      requires k < |work|
      modifies this
      ensures Fields() == BeginAt(old(Fields()), k, now)
    {
      requested := None;
      running := true;
      runs := runs + [Run(IdOf(work[k].kind), now, None)];
      work := work[k := work[k].(phase := AtWork)];
      clock := now;
    }

    method WakeUp(k: nat, now: int)
      requires Valid() && MayHappen(Fields(), Woken(k, now))
      modifies this
      ensures Fields() == Do(requestGapMs, old(Fields()), Woken(k, now))
      ensures Valid()
    {
      hide Safe;
      HappeningKeeps(requestGapMs, Fields(), Woken(k, now));
      BeginRun(k, now);
    }

    /** The work is over: with so many tokens missing, or thrown. */
    method WorkEnds(k: nat, outcome: Option<nat>)
      requires Valid() && MayHappen(Fields(), Ended(k, outcome))
      modifies this
      ensures Fields() == Do(requestGapMs, old(Fields()), Ended(k, outcome))
      ensures Valid()
    {
      hide Safe;
      HappeningKeeps(requestGapMs, Fields(), Ended(k, outcome));
      running := false;
      if work[k].kind.RequestedRun? {
        work := work[k := work[k].(phase := Noting(outcome.Some?))];
      } else {
        work := work[k := work[k].(phase := Settled(outcome.Some?))];
        finished := finished + [if outcome.Some? then outcome.value else 0];
      }
    }

    method NoteEnd(k: nat, now: int)
      requires Valid() && MayHappen(Fields(), Noted(k, now))
      modifies this
      ensures Fields() == Do(requestGapMs, old(Fields()), Noted(k, now))
      ensures Valid()
    {
      hide Safe;
      HappeningKeeps(requestGapMs, Fields(), Noted(k, now));
      requestedEndedAt := now;
      work := work[k := work[k].(phase := Settled(work[k].phase.fulfilled))];
      clock := now;
      runs := if runs == [] then [] else runs[|runs| - 1 := runs[|runs| - 1].(end := Some(now))];
    }

    /** exclusively, after its await: asks again for tokens that are missing. */
    method ScheduleRetry()
      requires Valid() && MayHappen(Fields(), Resumed)
      modifies this
      ensures Fields() == Do(requestGapMs, old(Fields()), Resumed)
      ensures Valid()
    {
      hide Safe;
      HappeningKeeps(requestGapMs, Fields(), Resumed);
      var pending := finished[0];
      finished := finished[1..];
      if pending > 0 && timer && retryTimer.None? {
        retryTimer := Some(timers);
        live := live + {timers};
        timers := timers + 1;
      }
    }

    method StopTimers()
      requires Valid()
      modifies this
      ensures Fields() == Do(requestGapMs, old(Fields()), Stopping)
      ensures Valid()
    {
      hide Safe;
      HappeningKeeps(requestGapMs, Fields(), Stopping);
      timer := false;
      if retryTimer.Some? {
        live := live - {retryTimer.value};
        retryTimer := None;
      }
    }
  }
}
