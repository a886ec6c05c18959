/**
 * apps/server/src/checkpoint/checkpointer.ts, as a queue of runs one of which may
 * hold the lock: what Checkpointer shows the chain of promises to be. What happens
 * between two awaits is one step; runs of the timer, retries, requests and failures
 * come in whatever order the event loop brings them. Times are milliseconds of a
 * clock that does not go back.
 */
module RunQueue {
  import opened Prelude

  datatype Kind = TickRun | RetryRun | RequestedRun(id: nat)

  /** The job that has the lock: waiting out the gap, running, or a requested one
      that has run and is about to note when. */
  datatype Current = NoJob | Sleeping(id: nat, until: int) | Executing(kind: Kind) | Settling(id: nat)

  /** One call of requestRun: the job that serves it, and how many had begun by then. */
  datatype Ask = Ask(job: nat, before: nat)

  /** One requested run: from when it begins to when it is over. */
  datatype Run = Run(job: nat, begin: int, end: Option<int>)

  /** The fields; the timeouts the platform still holds; and, as history, every call
      of requestRun and every requested run. `finished` are the missing tokens of
      ended runs whose caller has not resumed yet. */
  datatype State = State(
    timer: bool, retryTimer: Option<nat>, running: bool, queue: seq<Kind>, current: Current,
    requested: Option<nat>, requestedEndedAt: int, finished: seq<nat>,
    live: set<nat>, timers: nat, jobs: nat, clock: int, asks: seq<Ask>, runs: seq<Run>)

  const INITIAL := State(false, None, false, [], NoJob, None, 0, [], {}, 0, 0, 0, [], [])

  datatype Event =
    | Start | TimerFires | RetryFires(t: nat) | RequestRun
    | JobStarts(now: int) | Wakes(now: int) | RunEnds(outcome: Option<nat>) | Settles(now: int) | AfterRun | Stop

  predicate Enabled(s: State, e: Event) {
    match e
    case Start => true
    case TimerFires => s.timer
    case RetryFires(t) => t in s.live
    case RequestRun => true
    case JobStarts(now) => s.current.NoJob? && s.queue != [] && now >= s.clock
    case Wakes(now) => s.current.Sleeping? && now >= s.clock && now >= s.current.until
    case RunEnds(_) => s.current.Executing?
    case Settles(now) => s.current.Settling? && now >= s.clock
    case AfterRun => s.finished != []
    case Stop => true
  }

  /** exclusively: unless a run is going. */
  function Exclusively(s: State, kind: Kind): State {
    if s.running then s else s.(queue := s.queue + [kind])
  }

  /** A requested run begins: from here on a new request needs a run of its own. */
  function Begin(s: State, id: nat, now: int): State {
    s.(requested := None, running := true, current := Executing(RequestedRun(id)), clock := now,
       runs := s.runs + [Run(id, now, None)])
  }

  function Apply(gapMs: nat, s: State, e: Event): State
    requires Enabled(s, e)
  {
    match e
    case Start => if s.timer then s else Exclusively(s.(timer := true), TickRun)
    case TimerFires => Exclusively(s, TickRun)
    case RetryFires(t) => Exclusively(s.(retryTimer := None, live := s.live - {t}), RetryRun)
    case RequestRun =>
      if s.requested.Some? then s.(asks := s.asks + [Ask(s.requested.value, |s.runs|)])
      else s.(queue := s.queue + [RequestedRun(s.jobs)], requested := Some(s.jobs), jobs := s.jobs + 1,
              asks := s.asks + [Ask(s.jobs, |s.runs|)])
    case JobStarts(now) =>
      var job, t := s.queue[0], s.(queue := s.queue[1..], clock := now);
      if !job.RequestedRun? then t.(running := true, current := Executing(job))
      else
        var wait := s.requestedEndedAt + gapMs - now;
        if wait > 0 then t.(current := Sleeping(job.id, now + wait)) else Begin(t, job.id, now)
    case Wakes(now) => Begin(s, s.current.id, now)
    case RunEnds(outcome) =>
      var pending := if outcome.Some? then outcome.value else 0;
      if s.current.kind.RequestedRun? then s.(running := false, current := Settling(s.current.kind.id))
      else s.(running := false, current := NoJob, finished := s.finished + [pending])
    case Settles(now) =>
      s.(current := NoJob, requestedEndedAt := now, clock := now,
         runs := if s.runs == [] then [] else s.runs[|s.runs| - 1 := s.runs[|s.runs| - 1].(end := Some(now))])
    case AfterRun =>
      var t := s.(finished := s.finished[1..]);
      if s.finished[0] > 0 && s.timer && s.retryTimer.None?
      then t.(retryTimer := Some(s.timers), live := s.live + {s.timers}, timers := s.timers + 1) else t
    case Stop =>
      var live := if s.retryTimer.Some? then s.live - {s.retryTimer.value} else s.live;
      s.(timer := false, retryTimer := None, live := live)
  }

  // ----- what every interleaving keeps -----

  function RequestedIn(queue: seq<Kind>): seq<nat> {
    if queue == [] then []
    else
      var last := queue[|queue| - 1];
      RequestedIn(queue[..|queue| - 1]) + (if last.RequestedRun? then [last.id] else [])
  }

  /** The requested jobs that have not begun. */
  function Waiting(s: State): seq<nat> {
    (if s.current.Sleeping? then [s.current.id] else []) + RequestedIn(s.queue)
  }

  /** `running` says exactly when a run executes. */
  predicate RunningIsExact(s: State) { s.running <==> s.current.Executing? }

  /** At most one retry is armed, the one the field names, and none once stopped. */
  predicate RetriesOk(s: State) {
    && s.live == (if s.retryTimer.Some? then {s.retryTimer.value} else {})
    && (s.retryTimer.Some? ==> s.timer)
  }

  /** At most one requested job waits to begin: the one a new request would share. */
  predicate SharedOk(s: State) {
    Waiting(s) == if s.requested.Some? then [s.requested.value] else []
  }

  predicate HasBegun(s: State, job: nat) { exists j :: 0 <= j < |s.runs| && s.runs[j].job == job }

  /** Every call of requestRun is served by one run that begins after the call, and
      until it has begun it is the one that waits. */
  ghost predicate AsksServed(s: State) {
    forall k :: 0 <= k < |s.asks| ==>
      && s.asks[k].before <= |s.runs| && s.asks[k].job < s.jobs
      && (forall j :: 0 <= j < s.asks[k].before ==> s.runs[j].job != s.asks[k].job)
      && (HasBegun(s, s.asks[k].job) || s.requested == Some(s.asks[k].job))
  }

  /** No job begins twice. */
  ghost predicate RunsDistinct(s: State) {
    && (forall i, j :: 0 <= i < j < |s.runs| ==> s.runs[i].job != s.runs[j].job)
    && (forall j :: 0 <= j < |s.runs| ==> s.runs[j].job < s.jobs)
    && (s.requested.Some? ==> s.requested.value < s.jobs && !HasBegun(s, s.requested.value))
  }

  /** Whether the last requested run is still to be over. */
  predicate InRequested(s: State) { s.current.Settling? || (s.current.Executing? && s.current.kind.RequestedRun?) }

  /** A requested run begins at least the gap after the last one was over. */
  ghost predicate GapsKept(gapMs: nat, s: State) {
    && (forall j :: 0 <= j < |s.runs| ==> (s.runs[j].end.None? <==> (j == |s.runs| - 1 && InRequested(s))))
    && (forall j :: 1 <= j < |s.runs| && s.runs[j - 1].end.Some? ==> s.runs[j].begin >= s.runs[j - 1].end.value + gapMs)
    && (InRequested(s) ==> s.runs != [])
    && (!InRequested(s) && s.runs != [] ==> s.runs[|s.runs| - 1].end == Some(s.requestedEndedAt))
    && (s.current.Sleeping? ==> s.current.until >= s.requestedEndedAt + gapMs)
  }

  ghost predicate Inv(gapMs: nat, s: State) {
    RunningIsExact(s) && RetriesOk(s) && SharedOk(s) && AsksServed(s) && RunsDistinct(s) && GapsKept(gapMs, s)
  }

  lemma {:induction false} RequestedInSnoc(queue: seq<Kind>, kind: Kind)
    ensures RequestedIn(queue + [kind]) == RequestedIn(queue) + (if kind.RequestedRun? then [kind.id] else [])
  {
    assert (queue + [kind])[..|queue|] == queue;
  }

  lemma {:induction false} RequestedInCons(queue: seq<Kind>)
    requires queue != []
    ensures RequestedIn(queue) == (if queue[0].RequestedRun? then [queue[0].id] else []) + RequestedIn(queue[1..])
    decreases |queue|
  {
    if |queue| > 1 {
      RequestedInCons(queue[..|queue| - 1]);
      assert queue[..|queue| - 1][1..] == queue[1..][..|queue| - 2];
    }
  }

  lemma {:induction false} KeepsRunning(gapMs: nat, s: State, e: Event)
    requires Inv(gapMs, s) && Enabled(s, e)
    ensures RunningIsExact(Apply(gapMs, s, e)) && RetriesOk(Apply(gapMs, s, e))
  {
    hide SharedOk, AsksServed, RunsDistinct, GapsKept;
  }

  lemma {:induction false} KeepsShared(gapMs: nat, s: State, e: Event)
    requires Inv(gapMs, s) && Enabled(s, e)
    ensures SharedOk(Apply(gapMs, s, e))
  {
    hide RetriesOk, AsksServed, RunsDistinct, GapsKept, RequestedIn;
    match e
    case JobStarts(now) => JobKeepsShared(gapMs, s, now);
    case Wakes(now) => assert RequestedIn(s.queue) == Waiting(s)[1..];
    case RequestRun =>
      RequestedInSnoc(s.queue, RequestedRun(s.jobs));
      assert s.requested.None? ==> RequestedIn(s.queue) == Waiting(s)[..0] && !s.current.Sleeping?;
    case _ =>
      RequestedInSnoc(s.queue, TickRun);
      RequestedInSnoc(s.queue, RetryRun);
      assert RequestedIn(s.queue) + [] == RequestedIn(s.queue);
  }

  lemma {:induction false} JobKeepsShared(gapMs: nat, s: State, now: int)
    requires SharedOk(s) && Enabled(s, JobStarts(now))
    ensures SharedOk(Apply(gapMs, s, JobStarts(now)))
  {
    hide RequestedIn;
    RequestedInCons(s.queue);
    var rest := RequestedIn(s.queue[1..]);
    assert Waiting(s) == RequestedIn(s.queue);
    if s.queue[0].RequestedRun? {
      assert RequestedIn(s.queue)[1..] == rest;
      assert rest == [];
    } else {
      assert [] + rest == rest;
    }
  }

  /** What the front of the queue is, when a requested job is. */
  lemma {:induction false} FrontIsRequested(gapMs: nat, s: State, e: Event)
    requires Inv(gapMs, s) && Enabled(s, e)
    ensures e.JobStarts? && s.queue[0].RequestedRun? ==> s.requested == Some(s.queue[0].id)
    ensures e.Wakes? ==> s.requested == Some(s.current.id)
  {
    hide RetriesOk, AsksServed, RunsDistinct, GapsKept, RunningIsExact;
    if s.queue != [] {
      RequestedInCons(s.queue);
    }
    if e.JobStarts? && s.queue[0].RequestedRun? {
      assert Waiting(s)[0] == s.queue[0].id;
    }
    if e.Wakes? {
      assert Waiting(s)[0] == s.current.id;
    }
  }

  lemma {:induction false} BeginKeeps(s: State, id: nat, now: int)
    requires AsksServed(s) && RunsDistinct(s) && s.requested == Some(id)
    ensures AsksServed(Begin(s, id, now)) && RunsDistinct(Begin(s, id, now))
  {
    var t := Begin(s, id, now);
    assert t.runs[|s.runs|].job == id;
    forall job | HasBegun(s, job)
      ensures HasBegun(t, job)
    {
      var j :| 0 <= j < |s.runs| && s.runs[j].job == job;
      assert t.runs[j].job == job;
    }
  }

  /** Only the history of runs and the jobs asked for matter to these. */
  lemma {:induction false} SameRunsKeep(s: State, t: State)
    requires AsksServed(s) && RunsDistinct(s)
    requires t.runs == s.runs && t.asks == s.asks && t.jobs == s.jobs && t.requested == s.requested
    ensures AsksServed(t) && RunsDistinct(t)
  {
    assert forall job :: HasBegun(t, job) <==> HasBegun(s, job);
  }

  lemma {:induction false} AskKeeps(gapMs: nat, s: State)
    requires AsksServed(s) && RunsDistinct(s)
    ensures AsksServed(Apply(gapMs, s, RequestRun)) && RunsDistinct(Apply(gapMs, s, RequestRun))
  {
    var t := Apply(gapMs, s, RequestRun);
    assert forall job :: HasBegun(t, job) <==> HasBegun(s, job);
    assert forall k :: 0 <= k < |s.asks| ==> t.asks[k] == s.asks[k];
  }

  lemma {:induction false} SettleKeeps(gapMs: nat, s: State, now: int)
    requires AsksServed(s) && RunsDistinct(s) && Enabled(s, Settles(now))
    ensures AsksServed(Apply(gapMs, s, Settles(now))) && RunsDistinct(Apply(gapMs, s, Settles(now)))
  {
    var t := Apply(gapMs, s, Settles(now));
    assert |t.runs| == |s.runs| && forall j :: 0 <= j < |s.runs| ==> t.runs[j].job == s.runs[j].job;
    assert forall job :: HasBegun(t, job) <==> HasBegun(s, job) by {
      forall job
        ensures HasBegun(t, job) <==> HasBegun(s, job)
      {
        if j :| 0 <= j < |s.runs| && s.runs[j].job == job {
          assert t.runs[j].job == job;
        }
      }
    }
  }

  lemma {:induction false} KeepsAsks(gapMs: nat, s: State, e: Event)
    requires Inv(gapMs, s) && Enabled(s, e)
    ensures AsksServed(Apply(gapMs, s, e)) && RunsDistinct(Apply(gapMs, s, e))
  {
    hide RunningIsExact, RetriesOk, SharedOk, AsksServed, RunsDistinct, GapsKept, Begin;
    var t := Apply(gapMs, s, e);
    FrontIsRequested(gapMs, s, e);
    match e
    case RequestRun => AskKeeps(gapMs, s);
    case JobStarts(now) =>
      var u := s.(queue := s.queue[1..], clock := now);
      SameRunsKeep(s, u);
      if s.queue[0].RequestedRun? && s.requestedEndedAt + gapMs - now <= 0 {
        BeginKeeps(u, s.queue[0].id, now);
      } else {
        SameRunsKeep(s, t);
      }
    case Wakes(now) => BeginKeeps(s, s.current.id, now);
    case Settles(now) => SettleKeeps(gapMs, s, now);
    case _ => SameRunsKeep(s, t);
  }

  /** The gap is kept where a requested run begins late enough. */
  lemma {:induction false} BeginKeepsGaps(gapMs: nat, s: State, id: nat, now: int)
    requires GapsKept(gapMs, s) && !InRequested(s) && now >= s.requestedEndedAt + gapMs
    ensures GapsKept(gapMs, Begin(s, id, now))
  {
  }

  lemma {:induction false} SettleKeepsGaps(gapMs: nat, s: State, now: int)
    requires GapsKept(gapMs, s) && Enabled(s, Settles(now))
    ensures GapsKept(gapMs, Apply(gapMs, s, Settles(now)))
  {
    var t := Apply(gapMs, s, Settles(now));
    assert forall j :: 0 <= j < |s.runs| - 1 ==> t.runs[j] == s.runs[j];
  }

  lemma {:induction false} SameRunsKeepGaps(gapMs: nat, s: State, t: State)
    requires GapsKept(gapMs, s) && t.runs == s.runs && t.requestedEndedAt == s.requestedEndedAt
    requires InRequested(t) <==> InRequested(s)
    requires t.current.Sleeping? ==> t.current.until >= t.requestedEndedAt + gapMs
    ensures GapsKept(gapMs, t)
  {
  }

  lemma {:induction false} SleepsTheGap(gapMs: nat, s: State)
    requires GapsKept(gapMs, s)
    ensures s.current.Sleeping? ==> s.current.until >= s.requestedEndedAt + gapMs
  {
  }

  lemma {:induction false} KeepsGaps(gapMs: nat, s: State, e: Event)
    requires Inv(gapMs, s) && Enabled(s, e)
    ensures GapsKept(gapMs, Apply(gapMs, s, e))
  {
    hide RunningIsExact, RetriesOk, SharedOk, AsksServed, RunsDistinct, GapsKept, Begin;
    var t := Apply(gapMs, s, e);
    SleepsTheGap(gapMs, s);
    match e
    case JobStarts(now) =>
      var u := s.(queue := s.queue[1..], clock := now);
      SameRunsKeepGaps(gapMs, s, u);
      if s.queue[0].RequestedRun? && s.requestedEndedAt + gapMs - now <= 0 {
        BeginKeepsGaps(gapMs, u, s.queue[0].id, now);
      } else {
        SameRunsKeepGaps(gapMs, s, t);
      }
    case Wakes(now) => BeginKeepsGaps(gapMs, s, s.current.id, now);
    case Settles(now) => SettleKeepsGaps(gapMs, s, now);
    case _ => SameRunsKeepGaps(gapMs, s, t);
  }

  lemma {:induction false} StepKeeps(gapMs: nat, s: State, e: Event)
    requires Inv(gapMs, s) && Enabled(s, e)
    ensures Inv(gapMs, Apply(gapMs, s, e))
  {
    hide RunningIsExact, RetriesOk, SharedOk, AsksServed, RunsDistinct, GapsKept, Enabled, Apply;
    KeepsRunning(gapMs, s, e);
    KeepsShared(gapMs, s, e);
    KeepsAsks(gapMs, s, e);
    KeepsGaps(gapMs, s, e);
  }

  // ----- every interleaving -----

  predicate Admissible(gapMs: nat, s: State, es: seq<Event>)
    decreases |es|
  {
    es == [] || (Enabled(s, es[0]) && Admissible(gapMs, Apply(gapMs, s, es[0]), es[1..]))
  }

  function RunAll(gapMs: nat, s: State, es: seq<Event>): State
    requires Admissible(gapMs, s, es)
    decreases |es|
  {
    if es == [] then s else RunAll(gapMs, Apply(gapMs, s, es[0]), es[1..])
  }

  lemma {:induction false} RunKeeps(gapMs: nat, s: State, es: seq<Event>)
    requires Inv(gapMs, s) && Admissible(gapMs, s, es)
    ensures Inv(gapMs, RunAll(gapMs, s, es))
    decreases |es|
  {
    hide Inv, Enabled, Apply;
    if es != [] {
      StepKeeps(gapMs, s, es[0]);
      RunKeeps(gapMs, Apply(gapMs, s, es[0]), es[1..]);
    }
  }

  lemma {:induction false} InitialInv(gapMs: nat)
    ensures Inv(gapMs, INITIAL)
  {
  }

  /** However many ask while one waits, one run is asked for. */
  lemma {:induction false} WaitingRequestsShare(gapMs: nat, s: State)
    requires Inv(gapMs, s)
    ensures var t := Apply(gapMs, Apply(gapMs, s, RequestRun), RequestRun);
            && |t.asks| == |s.asks| + 2 && t.asks[|s.asks|].job == t.asks[|s.asks| + 1].job
            && Waiting(t) == Waiting(Apply(gapMs, s, RequestRun)) == [t.asks[|s.asks|].job]
  {
    hide AsksServed, RunsDistinct, GapsKept, RetriesOk, RequestedIn;
    StepKeeps(gapMs, s, RequestRun);
    var u := Apply(gapMs, s, RequestRun);
    assert SharedOk(u);
  }

  // ----- nothing that is due is dropped -----

  /** A run of the timer or of a retry joins the queue, unless one is going. */
  lemma {:induction false} RunsAreQueued(gapMs: nat, s: State, e: Event)
    requires Enabled(s, e) && (e.TimerFires? || e.RetryFires? || (e.Start? && !s.timer))
    ensures var t := Apply(gapMs, s, e);
            && t.queue == s.queue + (if s.running then [] else [if e.RetryFires? then RetryRun else TickRun])
            && (t.timer <==> s.timer || e.Start?)
            && t.retryTimer == (if e.RetryFires? then None else s.retryTimer)
  {
  }

  /** Tokens that a run left missing are retried: unless it has been stopped, a retry is
      armed once its caller resumes. None is armed for nothing. */
  lemma {:induction false} MissingTokensAreRetried(gapMs: nat, s: State)
    requires Inv(gapMs, s) && s.finished != []
    ensures var t := Apply(gapMs, s, AfterRun);
            && (s.timer && s.finished[0] > 0 ==> t.retryTimer.Some? && t.live == {t.retryTimer.value})
            && (s.retryTimer.Some? || !s.timer || s.finished[0] == 0 ==>
                t.retryTimer == s.retryTimer && t.live == s.live)
            && t.finished == s.finished[1..] && t.queue == s.queue && t.current == s.current
  {
  }

  /** What a run leaves missing is what its caller hears: nothing where it threw. */
  lemma {:induction false} OutcomeIsHeard(gapMs: nat, s: State, outcome: Option<nat>)
    requires Inv(gapMs, s) && Enabled(s, RunEnds(outcome))
    ensures var t := Apply(gapMs, s, RunEnds(outcome));
            && (s.current.kind.RequestedRun? ==> t.finished == s.finished && t.current == Settling(s.current.kind.id))
            && (!s.current.kind.RequestedRun? ==>
                  t.finished == s.finished + [if outcome.Some? then outcome.value else 0] && t.current == NoJob)
  {
  }

  /** The front of the queue begins when it is its turn: a tick or a retry at once, a requested run
      once the gap since the last one is over, which it sleeps out. */
  lemma {:induction false} FrontBegins(gapMs: nat, s: State, now: int)
    requires Enabled(s, JobStarts(now))
    ensures var t, due := Apply(gapMs, s, JobStarts(now)), s.requestedEndedAt + gapMs;
            && t.queue == s.queue[1..] && t.clock == now && t.finished == s.finished
            && (if s.queue[0].RequestedRun? && now < due
                then t.current == Sleeping(s.queue[0].id, due) && t.runs == s.runs
                else t.current == Executing(s.queue[0]) && t.running)
            && (s.queue[0].RequestedRun? && now >= due ==> t.runs == s.runs + [Run(s.queue[0].id, now, None)])
  {
  }

  /** And one that has slept begins when it wakes, which is when the gap is over. */
  lemma {:induction false} SleeperBegins(gapMs: nat, s: State, now: int)
    requires Inv(gapMs, s) && Enabled(s, Wakes(now))
    ensures var t := Apply(gapMs, s, Wakes(now));
            && t.current == Executing(RequestedRun(s.current.id)) && t.running && t.requested.None?
            && t.runs == s.runs + [Run(s.current.id, now, None)] && now >= s.requestedEndedAt + gapMs
  {
    hide AsksServed, RunsDistinct, SharedOk;
  }

  /** Once armed, a retry stays armed until it fires or the checkpointer is stopped. */
  lemma {:induction false} RetryStaysArmed(gapMs: nat, s: State, es: seq<Event>)
    requires s.retryTimer.Some? && Admissible(gapMs, s, es)
    requires forall i :: 0 <= i < |es| ==> !es[i].RetryFires? && !es[i].Stop?
    ensures RunAll(gapMs, s, es).retryTimer == s.retryTimer
    ensures s.retryTimer.value in s.live ==> Enabled(RunAll(gapMs, s, es), RetryFires(s.retryTimer.value))
    decreases |es|
  {
    if es != [] {
      var t := Apply(gapMs, s, es[0]);
      assert t.retryTimer == s.retryTimer && s.live <= t.live;
      assert forall i :: 0 <= i < |es| - 1 ==> es[1..][i] == es[i + 1];
      RetryStaysArmed(gapMs, t, es[1..]);
    }
  }

  /** Once stopped, nothing is armed until it is started again. */
  lemma {:induction false} StoppedStaysQuiet(gapMs: nat, s: State, es: seq<Event>)
    requires Admissible(gapMs, s, [Stop] + es) && Inv(gapMs, s)
    requires forall i :: 0 <= i < |es| ==> !es[i].Start?
    ensures var t := RunAll(gapMs, s, [Stop] + es); !t.timer && t.retryTimer.None? && t.live == {}
    decreases |es|
  {
    hide Inv, Apply;
    var stopped := Apply(gapMs, s, Stop);
    assert ([Stop] + es)[1..] == es;
    StopQuiets(gapMs, s);
    QuietStays(gapMs, stopped, es);
  }

  lemma {:induction false} StopQuiets(gapMs: nat, s: State)
    requires Inv(gapMs, s)
    ensures IsQuiet(Apply(gapMs, s, Stop))
  {
    hide SharedOk, AsksServed, RunsDistinct, GapsKept;
  }

  predicate IsQuiet(s: State) { !s.timer && s.retryTimer.None? && s.live == {} }

  lemma {:induction false} QuietStays(gapMs: nat, s: State, es: seq<Event>)
    requires IsQuiet(s) && Admissible(gapMs, s, es) && forall i :: 0 <= i < |es| ==> !es[i].Start?
    ensures IsQuiet(RunAll(gapMs, s, es))
    decreases |es|
  {
    if es != [] {
      assert forall i :: 0 <= i < |es| - 1 ==> es[1..][i] == es[i + 1];
      QuietStays(gapMs, Apply(gapMs, s, es[0]), es[1..]);
    }
  }

  /** A run is its events, one after the other. */
  lemma {:induction false} RunAllSnoc(gapMs: nat, s: State, es: seq<Event>, e: Event)
    requires Admissible(gapMs, s, es) && Enabled(RunAll(gapMs, s, es), e)
    ensures Admissible(gapMs, s, es + [e])
    ensures RunAll(gapMs, s, es + [e]) == Apply(gapMs, RunAll(gapMs, s, es), e)
    decreases |es|
  {
    hide Apply, Enabled;
    if es == [] {
      assert es + [e] == [e] && [e][1..] == [];
    } else {
      assert (es + [e])[1..] == es[1..] + [e];
      RunAllSnoc(gapMs, Apply(gapMs, s, es[0]), es[1..], e);
    }
  }
}
