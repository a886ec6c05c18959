/**
 * apps/server/src/auth/throttle.ts against the whole history of attempts: what the
 * pruned, bounded memory answers is what every failure ever made would.
 */
module ThrottleHistory {
  import opened Prelude
  import opened PowersOfTwo
  import opened SlidingWindow
  import opened Throttle

  datatype Attempt = Failure(client: string, at: int) | Success(client: string)

  function Apply(o: Options, m: Memory, a: Attempt): Memory {
    match a
    case Failure(c, at) => AfterFailure(o, m, c, at)
    case Success(c) => AfterSuccess(m, c)
  }

  function Run(o: Options, attempts: seq<Attempt>): Memory {
    if attempts == [] then EMPTY else Apply(o, Run(o, attempts[..|attempts| - 1]), attempts[|attempts| - 1])
  }

  /** Over any run, in whatever order of times: lockouts are bounded, and so are the
      clients remembered. */
  lemma {:induction false} RunIsWellKept(o: Options, attempts: seq<Attempt>)
    ensures WellKept(o, Run(o, attempts))
    ensures o.maxEntries >= 1 ==> |Run(o, attempts).order| <= o.maxEntries
    decreases |attempts|
  {
    hide AfterFailure, AfterSuccess, Valid;
    if attempts == [] {
      EmptyIsWellKept(o);
    } else {
      var m, last := Run(o, attempts[..|attempts| - 1]), attempts[|attempts| - 1];
      RunIsWellKept(o, attempts[..|attempts| - 1]);
      match last
      case Failure(c, at) => FailureKeeps(o, m, c, at);
      case Success(c) => SuccessKeeps(o, m, c);
    }
  }

  lemma {:induction false} EmptyIsWellKept(o: Options)
    ensures WellKept(o, EMPTY)
  {
  }

  // ----- the full history of one client -----

  /** Every failure counted since the last lockout (or since it was forgotten),
      until when it is locked out, how often it was, and its last failure. */
  datatype History = History(since: seq<int>, lockedUntil: int, lockouts: nat, last: Option<int>)

  const FRESH := History([], 0, 0, None)

  /** A failure counts unless it falls in a lockout. It locks the client out when
      enough failures since the last lockout fall inside the window that ends with it. */
  function Fails(o: Options, h: History, at: int): History {
    if at < h.lockedUntil then h
    else
      var kept := if h.last.Some? && at - h.last.value > o.forgetAfterMs then FRESH else h;
      var since := kept.since + [at];
      if |Within(since, at, o.windowMs)| >= o.maxFailures
      then History([], at + LockoutLength(o, kept.lockouts + 1), kept.lockouts + 1, Some(at))
      else History(since, kept.lockedUntil, kept.lockouts, Some(at))
  }

  function HistoryOf(o: Options, attempts: seq<Attempt>, c: string): History {
    if attempts == [] then FRESH
    else
      var h, last := HistoryOf(o, attempts[..|attempts| - 1], c), attempts[|attempts| - 1];
      if last.client != c then h else if last.Success? then FRESH else Fails(o, h, last.at)
  }

  // ----- the memory stands for it -----

  ghost predicate Matches(o: Options, m: Memory, c: string, h: History) {
    if c in m.entries then
      var e := m.entries[c];
      && e.lockedUntil == h.lockedUntil && e.lockouts == h.lockouts && h.last == Some(e.lastFailure)
      && e.failures == Within(h.since, e.lastFailure, o.windowMs)
    else h == FRESH
  }

  /** Times are of one clock that never goes back. */
  ghost predicate InTime(attempts: seq<Attempt>) {
    && (forall i :: 0 <= i < |attempts| && attempts[i].Failure? ==> attempts[i].at >= 0)
    && forall i, j :: 0 <= i < j < |attempts| && attempts[i].Failure? && attempts[j].Failure? ==>
        attempts[i].at <= attempts[j].at
  }

  /** Another client's failure, for which room is made, has this one forgotten. */
  predicate Evicts(o: Options, m: Memory, a: Attempt, c: string) {
    && a.Failure? && a.client != c
    && var known := if IsForgotten(o, m, a.client, a.at) then Delete(m, a.client) else m;
       a.client !in known.entries && Forgets(o, known, a.at, c)
  }

  ghost predicate NeverEvicted(o: Options, attempts: seq<Attempt>, c: string) {
    forall i :: 0 <= i < |attempts| ==> !Evicts(o, Run(o, attempts[..i]), attempts[i], c)
  }

  /** A failure that is counted, on what is remembered of the client. */
  lemma {:induction false} CountedMatches(o: Options, e: Entry, h: History, at: int)
    requires o.windowMs >= 1 && at >= h.lockedUntil && e.lastFailure <= at
    requires e.lockedUntil == h.lockedUntil && e.lockouts == h.lockouts
    requires e.failures == Within(h.since, e.lastFailure, o.windowMs)
    requires h.last.Some? ==> at - h.last.value <= o.forgetAfterMs
    ensures var f, g := Counted(o, e, at), Fails(o, h, at);
            f.lockedUntil == g.lockedUntil && f.lockouts == g.lockouts && g.last == Some(f.lastFailure)
            && f.failures == Within(g.since, f.lastFailure, o.windowMs)
  {
    hide LockoutLength;
    WithinLater(h.since, e.lastFailure, at, o.windowMs);
    WithinSnoc(h.since, at, o.windowMs);
  }

  /** What is remembered of the others is as it was, but for those evicted. */
  lemma {:induction false} OthersKept(o: Options, m: Memory, a: Attempt, c: string)
    requires WellKept(o, m) && c != a.client
    ensures c in Apply(o, m, a).entries <==> c in m.entries && !Evicts(o, m, a, c)
    ensures c in Apply(o, m, a).entries ==> Apply(o, m, a).entries[c] == m.entries[c]
  {
    hide Within, MakeRoom, Valid, Without, Remembering, IsForgotten, Counted, Forgets;
    if a.Failure? {
      OthersRemembered(o, m, a.client, a.at, c);
    }
  }

  lemma {:induction false} OthersRemembered(o: Options, m: Memory, client: string, at: int, c: string)
    requires WellKept(o, m) && c != client
    ensures var r := Remembering(o, m, client, at);
            (c in r.entries <==> c in m.entries && !Evicts(o, m, Failure(client, at), c))
            && (c in r.entries ==> r.entries[c] == m.entries[c])
  {
    hide MakeRoom, Valid, Without, Forgets;
    var known := if IsForgotten(o, m, client, at) then Delete(m, client) else m;
    DeleteKeepsValid(m, client);
    RoomIsMade(o, known, at);
    ForgetsExactly(o, known, at, c);
  }

  /** What one failure makes of its own client. */
  lemma {:induction false} FailureMatches(o: Options, m: Memory, c: string, at: int, h: History)
    requires o.windowMs >= 1 && o.maxLockoutMs <= o.forgetAfterMs && at >= 0
    requires WellKept(o, m) && Matches(o, m, c, h)
    requires h.last.Some? ==> h.last.value <= at
    ensures Matches(o, AfterFailure(o, m, c, at), c, Fails(o, h, at))
  {
    hide Within, LockoutLength, DropOldest, DropExpendable, MakeRoom, Without, Valid;
    if IsLockedIn(m, c, at) {
      LockedFailureChangesNothing(o, m, c, at);
    } else if c in m.entries && !IsForgotten(o, m, c, at) {
      CountedMatches(o, m.entries[c], h, at);
    } else {
      NothingWithin(at, o.windowMs);
      CountedMatches(o, Entry([], 0, 0, at), FRESH, at);
      FreshFails(o, h, at);
    }
  }

  lemma {:induction false} NothingWithin(at: int, windowMs: int)
    ensures Within([], at, windowMs) == []
  {
  }

  lemma {:induction false} FreshFails(o: Options, h: History, at: int)
    requires at >= 0 && at >= h.lockedUntil
    requires h == FRESH || (h.last.Some? && at - h.last.value > o.forgetAfterMs)
    ensures Fails(o, h, at) == Fails(o, FRESH, at)
  {
    hide Within, LockoutLength;
  }

  lemma {:induction false} LastIsOfARun(o: Options, attempts: seq<Attempt>, c: string)
    requires HistoryOf(o, attempts, c).last.Some?
    ensures exists i :: 0 <= i < |attempts| && attempts[i].Failure?
              && attempts[i].at == HistoryOf(o, attempts, c).last.value
    decreases |attempts|
  {
    hide Within, LockoutLength;
    if attempts != [] {
      var front, last := attempts[..|attempts| - 1], attempts[|attempts| - 1];
      var t := HistoryOf(o, attempts, c).last.value;
      if last.Failure? && last.at == t {
        assert attempts[|attempts| - 1].at == t;
      } else {
        LastIsOfARun(o, front, c);
        var i :| 0 <= i < |front| && front[i].Failure? && front[i].at == t;
        assert attempts[i].at == t;
      }
    }
  }

  lemma {:induction false} LastIsPast(o: Options, attempts: seq<Attempt>, c: string)
    requires InTime(attempts) && attempts != [] && attempts[|attempts| - 1].Failure?
    ensures var h := HistoryOf(o, attempts[..|attempts| - 1], c); h.last.Some? ==>
              h.last.value <= attempts[|attempts| - 1].at
  {
    hide HistoryOf;
    var front := attempts[..|attempts| - 1];
    if HistoryOf(o, front, c).last.Some? {
      LastIsOfARun(o, front, c);
      var i :| 0 <= i < |front| && front[i].Failure? && front[i].at == HistoryOf(o, front, c).last.value;
      assert attempts[i] == front[i];
    }
  }

  lemma {:induction false} PrefixIsSound(o: Options, attempts: seq<Attempt>, c: string, n: nat)
    requires InTime(attempts) && NeverEvicted(o, attempts, c) && n <= |attempts|
    ensures InTime(attempts[..n]) && NeverEvicted(o, attempts[..n], c)
    ensures n < |attempts| ==> !Evicts(o, Run(o, attempts[..n]), attempts[n], c)
  {
    hide Evicts, Run;
    var front := attempts[..n];
    forall i | 0 <= i < |front|
      ensures !Evicts(o, Run(o, front[..i]), front[i], c)
    {
      assert front[..i] == attempts[..i];
    }
  }

  /**
   * The memory refines the history: as long as time does not go back, with no
   * lockout longer than what is remembered, every client that was not evicted for
   * want of room stands in memory as its whole history would have it stand.
   */
  lemma {:induction false} MemoryRefinesHistory(o: Options, attempts: seq<Attempt>, c: string)
    requires o.windowMs >= 1 && o.maxLockoutMs <= o.forgetAfterMs
    requires InTime(attempts) && NeverEvicted(o, attempts, c)
    ensures Matches(o, Run(o, attempts), c, HistoryOf(o, attempts, c))
    decreases |attempts|
  {
    hide Matches, WellKept, Evicts, InTime, NeverEvicted, AfterFailure, AfterSuccess, Fails;
    if attempts == [] {
      EmptyMatches(o, c);
    } else {
      var front, last := attempts[..|attempts| - 1], attempts[|attempts| - 1];
      PrefixIsSound(o, attempts, c, |front|);
      RunIsWellKept(o, front);
      MemoryRefinesHistory(o, front, c);
      var m, h := Run(o, front), HistoryOf(o, front, c);
      if last.client != c {
        OthersKept(o, m, last, c);
        StillMatches(o, m, Apply(o, m, last), c, h);
      } else if last.Success? {
        SuccessMatches(o, m, c);
      } else {
        LastIsPast(o, attempts, c);
        TimesArePositive(attempts);
        FailureMatches(o, m, c, last.at, h);
      }
    }
  }

  /**
   * And exactly those: a client stands as its history has it, all along, if and
   * only if it was never evicted.
   */
  lemma {:induction false} MatchesThroughoutIff(o: Options, attempts: seq<Attempt>, c: string)
    requires o.windowMs >= 1 && o.maxLockoutMs <= o.forgetAfterMs && InTime(attempts)
    ensures (forall n :: 0 <= n <= |attempts| ==> Matches(o, Run(o, attempts[..n]), c, HistoryOf(o, attempts[..n], c)))
            <==> NeverEvicted(o, attempts, c)
  {
    hide Matches, Run, HistoryOf, Evicts, InTime;
    if NeverEvicted(o, attempts, c) {
      forall n | 0 <= n <= |attempts|
        ensures Matches(o, Run(o, attempts[..n]), c, HistoryOf(o, attempts[..n], c))
      {
        hide NeverEvicted;
        PrefixIsSound(o, attempts, c, n);
        MemoryRefinesHistory(o, attempts[..n], c);
      }
    } else {
      var i :| 0 <= i < |attempts| && Evicts(o, Run(o, attempts[..i]), attempts[i], c);
      EvictedDoesNotMatch(o, attempts, c, i);
      assert !Matches(o, Run(o, attempts[..i]), c, HistoryOf(o, attempts[..i], c))
             || !Matches(o, Run(o, attempts[..i + 1]), c, HistoryOf(o, attempts[..i + 1], c));
    }
  }

  lemma {:induction false} EvictedDoesNotMatch(o: Options, attempts: seq<Attempt>, c: string, i: nat)
    requires i < |attempts| && Evicts(o, Run(o, attempts[..i]), attempts[i], c)
    ensures Matches(o, Run(o, attempts[..i]), c, HistoryOf(o, attempts[..i], c)) ==>
              !Matches(o, Run(o, attempts[..i + 1]), c, HistoryOf(o, attempts[..i + 1], c))
  {
    hide Apply, WellKept, Without, Removed, Fails;
    assert attempts[..i + 1][..i] == attempts[..i];
    RunIsWellKept(o, attempts[..i]);
    OthersKept(o, Run(o, attempts[..i]), attempts[i], c);
  }

  /** Where there is room for one client, the next to fail is the one remembered. */
  lemma {:induction false} OneForAnother(o: Options, m: Memory, c: string, at: int)
    requires o.maxEntries == 1 && WellKept(o, m) && c !in m.entries && at >= 0
    ensures AfterFailure(o, m, c, at) == Memory([c], map[c := Counted(o, Entry([], 0, 0, at), at)])
  {
    hide MakeRoom, Counted;
    RoomIsMade(o, m, at);
    var r := MakeRoom(o, m, at);
    assert r.entries == map[];
  }

  /** Where one failure locks out, it does so from then on. */
  lemma {:induction false} OneFailureLocks(o: Options, e: Entry, at: int, h: History)
    requires o.maxFailures == 1 && o.windowMs >= 1 && h.since == [] && e.failures == []
    requires at >= h.lockedUntil && (h.last.Some? ==> at - h.last.value <= o.forgetAfterMs)
    ensures Counted(o, e, at) == Entry([], at + LockoutLength(o, e.lockouts + 1), e.lockouts + 1, at)
    ensures Fails(o, h, at) == History([], at + LockoutLength(o, h.lockouts + 1), h.lockouts + 1, Some(at))
  {
    hide LockoutLength;
    WithinSnoc([], at, o.windowMs);
    assert h.since + [at] == [] + [at];
  }

  /** So eviction forgets how often a client was locked out: with room for one, a
      second lockout lasts as long as the first, where its history would double it. */
  lemma {:induction false} EvictionForgetsLockouts()
    ensures var o := Options(1, 1, 1, 100, 1000, 1);
            var attempts := [Failure("a", 0), Failure("b", 10), Failure("a", 20)];
            Run(o, attempts).entries == map["a" := Entry([], 21, 1, 20)]
            && HistoryOf(o, attempts, "a") == History([], 22, 2, Some(20))
  {
    hide MakeRoom, Counted, Within, Fails, WellKept, AfterFailure;
    var o := Options(1, 1, 1, 100, 1000, 1);
    var first, second := [Failure("a", 0)], [Failure("a", 0), Failure("b", 10)];
    var third := [Failure("a", 0), Failure("b", 10), Failure("a", 20)];
    assert first[..0] == [] && second[..1] == first && third[..2] == second;
    assert LockoutLength(o, 1) == 1 && LockoutLength(o, 2) == 2 by {
      assert Shl(1, 0) == 1 && Shl(1, 1) == 2;
    }
    OneFailureLocks(o, Entry([], 0, 0, 0), 0, FRESH);
    OneFailureLocks(o, Entry([], 0, 0, 10), 10, FRESH);
    OneFailureLocks(o, Entry([], 0, 0, 20), 20, History([], 1, 1, Some(0)));
    RunIsWellKept(o, []);
    OneForAnother(o, EMPTY, "a", 0);
    RunIsWellKept(o, first);
    OneForAnother(o, Run(o, first), "b", 10);
    RunIsWellKept(o, second);
    OneForAnother(o, Run(o, second), "a", 20);
  }

  lemma {:induction false} TimesArePositive(attempts: seq<Attempt>)
    requires InTime(attempts) && attempts != [] && attempts[|attempts| - 1].Failure?
    ensures attempts[|attempts| - 1].at >= 0
  {
  }

  lemma {:induction false} EmptyMatches(o: Options, c: string)
    ensures Matches(o, EMPTY, c, FRESH)
  {
  }

  lemma {:induction false} StillMatches(o: Options, m: Memory, n: Memory, c: string, h: History)
    requires Matches(o, m, c, h)
    requires c in n.entries <==> c in m.entries
    requires c in m.entries ==> n.entries[c] == m.entries[c]
    ensures Matches(o, n, c, h)
  {
  }

  lemma {:induction false} SuccessMatches(o: Options, m: Memory, c: string)
    ensures Matches(o, AfterSuccess(m, c), c, FRESH)
  {
  }

  /** isLocked answers from the whole history. */
  lemma {:induction false} LockedIsOfHistory(o: Options, attempts: seq<Attempt>, c: string, now: int)
    requires o.windowMs >= 1 && o.maxLockoutMs <= o.forgetAfterMs && now >= 0
    requires InTime(attempts) && NeverEvicted(o, attempts, c)
    ensures IsLockedIn(Run(o, attempts), c, now) <==> now < HistoryOf(o, attempts, c).lockedUntil
  {
    hide Run, HistoryOf;
    MemoryRefinesHistory(o, attempts, c);
  }

  /** Attempt i, a failure of the client, set the lockout that stands in its history
      h, and it is as long as that lockout has to be. */
  ghost predicate SetIt(o: Options, attempts: seq<Attempt>, c: string, i: nat, h: History)
    requires i < |attempts|
  {
    var after := HistoryOf(o, attempts[..i + 1], c);
    && attempts[i].Failure? && attempts[i].client == c
    && after.since == [] && after.last == Some(attempts[i].at)
    && after.lockouts == h.lockouts && after.lockedUntil == h.lockedUntil
    && h.lockouts >= 1 && h.lockedUntil == attempts[i].at + Doubled(o, h.lockouts)
  }

  /** min(lockoutMs * 2^min(n - 1, 30), maxLockoutMs) */
  function Doubled(o: Options, n: nat): nat
    requires n >= 1
  {
    Min(Shl(o.lockoutMs, if n <= 31 then n - 1 else 30), o.maxLockoutMs)
  }

  lemma {:induction false} LengthIsDoubled(o: Options, n: nat)
    requires n >= 1
    ensures LockoutLength(o, n) == Doubled(o, n)
  {
    hide Shl;
  }

  /** In every history the last lockout, the n-th, is as long as it has to be, from
      the failure that set it. */
  lemma {:induction false} NthLockoutLength(o: Options, attempts: seq<Attempt>, c: string)
    ensures var h := HistoryOf(o, attempts, c);
            h.lockouts >= 1 ==>
              exists i :: 0 <= i < |attempts| && SetIt(o, attempts, c, i, h)
    decreases |attempts|
  {
    hide Within, LockoutLength, SetIt;
    var h := HistoryOf(o, attempts, c);
    if h.lockouts >= 1 {
      var n := |attempts| - 1;
      var g := HistoryOf(o, attempts[..n], c);
      assert attempts[..n + 1] == attempts;
      if attempts[n].Failure? && attempts[n].client == c && h.since == [] && h.last == Some(attempts[n].at) && h != g {
        LastSetIt(o, attempts, c);
      } else {
        NthLockoutLength(o, attempts[..n], c);
        var i :| 0 <= i < n && SetIt(o, attempts[..n], c, i, g);
        StillSetIt(o, attempts, c, i, g, h);
      }
    }
  }

  lemma {:induction false} LastSetIt(o: Options, attempts: seq<Attempt>, c: string)
    requires attempts != [] && HistoryOf(o, attempts, c).lockouts >= 1
    requires var n := |attempts| - 1; var h := HistoryOf(o, attempts, c);
             attempts[n].Failure? && attempts[n].client == c && h.since == [] && h.last == Some(attempts[n].at)
             && h != HistoryOf(o, attempts[..n], c)
    ensures var n := |attempts| - 1; var h := HistoryOf(o, attempts, c);
            SetIt(o, attempts, c, n, h)
  {
    hide Within, LockoutLength, Doubled;
    LengthIsDoubled(o, HistoryOf(o, attempts, c).lockouts);
    assert attempts[..|attempts|] == attempts;
  }

  lemma {:induction false} StillSetIt(o: Options, attempts: seq<Attempt>, c: string, i: nat, g: History, h: History)
    requires i < |attempts| - 1 && SetIt(o, attempts[..|attempts| - 1], c, i, g)
    requires g.lockouts == h.lockouts && g.lockedUntil == h.lockedUntil
    ensures SetIt(o, attempts, c, i, h)
  {
    hide HistoryOf;
    assert attempts[..|attempts| - 1][..i + 1] == attempts[..i + 1];
  }

  /** Each lockout is twice the one before, until the most is reached. */
  lemma {:induction false} LockoutsDouble(o: Options, n: nat)
    requires 1 <= n <= 30
    ensures LockoutLength(o, n + 1) == Min(2 * LockoutLength(o, n), o.maxLockoutMs)
  {
    assert Shl(o.lockoutMs, n) == 2 * Shl(o.lockoutMs, n - 1);
  }

  // ----- when no one is evicted -----

  function Clients(attempts: seq<Attempt>): set<string> { set i | 0 <= i < |attempts| :: attempts[i].client }

  lemma {:induction false} DistinctAreFew(s: seq<string>, all: set<string>)
    requires Distinct(s) && forall c :: c in s ==> c in all
    ensures |s| <= |all|
    decreases |s|
  {
    if s != [] {
      var front, last := s[..|s| - 1], s[|s| - 1];
      LastIsNew(s);
      assert forall c :: c in front ==> c in s && c in all - {last};
      DistinctAreFew(front, all - {last});
      assert last in s;
    }
  }

  lemma {:induction false} StepRemembersItsClient(o: Options, m: Memory, a: Attempt)
    requires WellKept(o, m)
    ensures Apply(o, m, a).entries.Keys <= m.entries.Keys + {a.client}
  {
    hide Within, MakeRoom, Without, Valid, Counted;
    if a.Failure? {
      var known := if IsForgotten(o, m, a.client, a.at) then Delete(m, a.client) else m;
      DeleteKeepsValid(m, a.client);
      RoomIsMade(o, known, a.at);
    }
  }

  lemma {:induction false} RemembersOnlyClients(o: Options, attempts: seq<Attempt>, n: nat)
    requires n <= |attempts|
    ensures Run(o, attempts[..n]).entries.Keys <= Clients(attempts)
  {
    hide Apply, WellKept;
    if n > 0 {
      RemembersOnlyClients(o, attempts, n - 1);
      RunIsWellKept(o, attempts[..n - 1]);
      assert attempts[..n][..n - 1] == attempts[..n - 1];
      StepRemembersItsClient(o, Run(o, attempts[..n - 1]), attempts[n - 1]);
    }
  }

  /** No more clients than are remembered: none is ever evicted. */
  lemma {:induction false} FewClientsAreKept(o: Options, attempts: seq<Attempt>, c: string)
    requires |Clients(attempts)| <= o.maxEntries
    ensures NeverEvicted(o, attempts, c)
  {
    hide Evicts, Run;
    forall i | 0 <= i < |attempts|
      ensures !Evicts(o, Run(o, attempts[..i]), attempts[i], c)
    {
      RemembersOnlyClients(o, attempts, i);
      RunIsWellKept(o, attempts[..i]);
      FewHaveRoom(o, Run(o, attempts[..i]), attempts[i], Clients(attempts), c);
    }
  }

  lemma {:induction false} FewHaveRoom(o: Options, m: Memory, a: Attempt, all: set<string>, c: string)
    requires WellKept(o, m) && m.entries.Keys <= all && a.client in all && |all| <= o.maxEntries
    ensures !Evicts(o, m, a, c)
  {
    hide Without, Distinct, Removed;
    if a.Failure? {
      var known := if IsForgotten(o, m, a.client, a.at) then Delete(m, a.client) else m;
      DeleteKeepsValid(m, a.client);
      if a.client !in known.entries {
        DistinctAreFew(known.order, all - {a.client});
      }
    }
  }
}
