/**
 * apps/server/src/auth/throttle.ts, AttemptThrottle: how many failed attempts a
 * client may make before it has to wait. Times are milliseconds.
 */
module Throttle {
  import opened Prelude
  import opened PowersOfTwo
  import opened SlidingWindow

  datatype Options = Options(maxFailures: nat, windowMs: int, lockoutMs: nat, maxLockoutMs: nat, forgetAfterMs: nat,
      maxEntries: nat)

  datatype Entry = Entry(failures: seq<int>, lockedUntil: int, lockouts: nat, lastFailure: int)

  /** A map and the order its keys were put in. */
  datatype Memory = Memory(order: seq<string>, entries: map<string, Entry>)

  const EMPTY := Memory([], map[])

  ghost predicate Distinct(s: seq<string>) { forall i, j :: 0 <= i < j < |s| ==> s[i] != s[j] }

  ghost predicate Valid(m: Memory) {
    && Distinct(m.order)
    && (forall c :: c in m.order <==> c in m.entries)
  }

  // ----- removing -----

  function Without(s: seq<string>, c: string): (r: seq<string>)
    ensures forall d :: d in r <==> d in s && d != c
    ensures |r| <= |s| && (c in s ==> |r| < |s|) && (c !in s ==> r == s)
  {
    if s == [] then []
    else
      var front, last := s[..|s| - 1], s[|s| - 1];
      assert s == front + [last];
      Without(front, c) + (if last == c then [] else [last])
  }

  function Delete(m: Memory, c: string): Memory { Memory(Without(m.order, c), m.entries - {c}) }

  function Add(m: Memory, c: string, e: Entry): Memory { Memory(m.order + [c], m.entries[c := e]) }

  lemma {:induction false} WithoutIsDistinct(s: seq<string>, c: string)
    requires Distinct(s)
    ensures Distinct(Without(s, c))
    decreases |s|
  {
    if s != [] {
      var front, last := s[..|s| - 1], s[|s| - 1];
      WithoutIsDistinct(front, c);
      LastIsNew(s);
    }
  }

  lemma {:induction false} LastIsNew(s: seq<string>)
    requires Distinct(s) && s != []
    ensures s[|s| - 1] !in s[..|s| - 1]
  {
  }

  lemma {:induction false} DeleteKeepsValid(m: Memory, c: string)
    requires Valid(m)
    ensures Valid(Delete(m, c))
  {
    hide Distinct;
    WithoutIsDistinct(m.order, c);
    assert forall d :: d in Delete(m, c).order <==> d in m.order && d != c;
    assert forall d :: d in Delete(m, c).entries <==> d in m.entries && d != c;
  }

  // ----- making room -----

  /** Nothing of it is inside the window, and it is not locked out. */
  predicate IsExpendable(o: Options, e: Entry, now: int) { now >= e.lockedUntil && now - e.lastFailure > o.windowMs }

  function DropExpendable(o: Options, m: Memory, todo: seq<string>, now: int): Memory
    decreases |todo|
  {
    if todo == [] then m
    else
      var c := todo[0];
      var rest := if c in m.entries && IsExpendable(o, m.entries[c], now) then Delete(m, c) else m;
      DropExpendable(o, rest, todo[1..], now)
  }

  function DropOldest(m: Memory, most: nat): Memory
    decreases |m.order|
  {
    if |m.order| < most || m.order == [] then m else DropOldest(Delete(m, m.order[0]), most)
  }

  function MakeRoom(o: Options, m: Memory, now: int): Memory {
    if |m.order| < o.maxEntries then m else DropOldest(DropExpendable(o, m, m.order, now), o.maxEntries)
  }

  lemma {:induction false} DropExpendableKeepsValid(o: Options, m: Memory, todo: seq<string>, now: int)
    requires Valid(m)
    ensures var r := DropExpendable(o, m, todo, now); Valid(r) && r.entries.Keys <= m.entries.Keys
    ensures forall c :: c in DropExpendable(o, m, todo, now).entries ==>
              DropExpendable(o, m, todo, now).entries[c] == m.entries[c]
    decreases |todo|
  {
    hide Valid;
    if todo != [] {
      var c := todo[0];
      DeleteKeepsValid(m, c);
      var rest := if c in m.entries && IsExpendable(o, m.entries[c], now) then Delete(m, c) else m;
      DropExpendableKeepsValid(o, rest, todo[1..], now);
    }
  }

  lemma {:induction false} DropOldestKeepsValid(m: Memory, most: nat)
    requires Valid(m)
    ensures var r := DropOldest(m, most);
            Valid(r) && r.entries.Keys <= m.entries.Keys && (most >= 1 ==> |r.order| < most)
    ensures forall c :: c in DropOldest(m, most).entries ==> DropOldest(m, most).entries[c] == m.entries[c]
    decreases |m.order|
  {
    hide Valid;
    if !(|m.order| < most || m.order == []) {
      DeleteKeepsValid(m, m.order[0]);
      DropOldestKeepsValid(Delete(m, m.order[0]), most);
    }
  }

  /** Room is made, only by forgetting, and where there is room nothing is forgotten. */
  lemma {:induction false} RoomIsMade(o: Options, m: Memory, now: int)
    requires Valid(m)
    ensures var r := MakeRoom(o, m, now);
            && Valid(r) && r.entries.Keys <= m.entries.Keys
            && (forall c :: c in r.entries ==> r.entries[c] == m.entries[c])
            && (o.maxEntries >= 1 ==> |r.order| < o.maxEntries)
            && (|m.order| < o.maxEntries ==> r == m)
  {
    hide Valid;
    DropExpendableKeepsValid(o, m, m.order, now);
    DropOldestKeepsValid(DropExpendable(o, m, m.order, now), o.maxEntries);
  }

  // ----- who is forgotten -----

  /** It may try again, and has not failed within the window. */
  predicate IsIdle(o: Options, e: Entry, now: int) { e.lockedUntil <= now && e.lastFailure + o.windowMs < now }

  lemma {:induction false} ExpendableIffIdle(o: Options, e: Entry, now: int)
    ensures IsExpendable(o, e, now) <==> IsIdle(o, e, now)
  {
  }

  /** Those of s that are not among the gone, in their order. */
  function Removed(s: seq<string>, gone: set<string>): seq<string> {
    if s == [] then []
    else
      var front, last := s[..|s| - 1], s[|s| - 1];
      if last in gone then Removed(front, gone) else Removed(front, gone) + [last]
  }

  lemma {:induction false} RemovedHas(s: seq<string>, gone: set<string>, c: string)
    ensures c in Removed(s, gone) <==> c in s && c !in gone
    decreases |s|
  {
    if s != [] {
      var front, last := s[..|s| - 1], s[|s| - 1];
      RemovedHas(front, gone, c);
      assert s == front + [last];
    }
  }

  function Expendable(o: Options, m: Memory, now: int): set<string> {
    set c | c in m.entries && IsIdle(o, m.entries[c], now)
  }

  /** Where there is no room, the expendable go, and then the oldest of the rest, as
      few as leave room for one more. */
  function Remaining(o: Options, m: Memory, now: int): seq<string> {
    var kept := Removed(m.order, Expendable(o, m, now));
    kept[Surplus(kept, o.maxEntries)..]
  }

  /** As many of a list's first as leave it shorter than `most`. */
  function Surplus(s: seq<string>, most: nat): (n: nat)
    ensures n <= |s|
  {
    |s| - Min(|s|, Max(most - 1, 0))
  }

  lemma {:induction false} WithoutIsRemoved(s: seq<string>, c: string)
    ensures Without(s, c) == Removed(s, {c})
    decreases |s|
  {
    if s != [] {
      WithoutIsRemoved(s[..|s| - 1], c);
      assert Without(s[..|s| - 1], c) + [] == Without(s[..|s| - 1], c);
    }
  }

  lemma {:induction false} RemovedSnoc(s: seq<string>, last: string, gone: set<string>)
    ensures Removed(s + [last], gone) == if last in gone then Removed(s, gone) else Removed(s, gone) + [last]
  {
    assert (s + [last])[..|s|] == s;
  }

  lemma {:induction false} RemovedTwice(s: seq<string>, a: set<string>, b: set<string>)
    ensures Removed(Removed(s, a), b) == Removed(s, a + b)
    decreases |s|
  {
    if s != [] {
      var front, last := s[..|s| - 1], s[|s| - 1];
      RemovedTwice(front, a, b);
      RemovedSnoc(Removed(front, a), last, b);
    }
  }

  lemma {:induction false} RemovedNone(s: seq<string>, gone: set<string>)
    requires forall c :: c in s ==> c !in gone
    ensures Removed(s, gone) == s
    decreases |s|
  {
    if s != [] {
      var front, last := s[..|s| - 1], s[|s| - 1];
      assert s == front + [last];
      RemovedNone(front, gone);
    }
  }

  function Gone(o: Options, m: Memory, todo: seq<string>, now: int): set<string> {
    set c | c in m.entries && c in todo && IsIdle(o, m.entries[c], now)
  }

  lemma {:induction false} DropExpendableExactly(o: Options, m: Memory, todo: seq<string>, now: int)
    ensures var gone := Gone(o, m, todo, now);
            DropExpendable(o, m, todo, now) == Memory(Removed(m.order, gone), m.entries - gone)
    decreases |todo|
  {
    hide IsExpendable, IsIdle, Removed;
    if todo != [] && todo[0] in m.entries {
      ExpendableIffIdle(o, m.entries[todo[0]], now);
    }
    var gone := Gone(o, m, todo, now);
    if todo == [] {
      RemovedNone(m.order, gone);
    } else {
      var c := todo[0];
      assert todo == [c] + todo[1..];
      if c in m.entries && IsExpendable(o, m.entries[c], now) {
        var rest := Gone(o, Delete(m, c), todo[1..], now);
        DropExpendableExactly(o, Delete(m, c), todo[1..], now);
        assert gone == {c} + rest;
        WithoutIsRemoved(m.order, c);
        RemovedTwice(m.order, {c}, rest);
      } else {
        DropExpendableExactly(o, m, todo[1..], now);
        assert gone == Gone(o, m, todo[1..], now);
      }
    }
  }

  lemma {:induction false} WithoutFirst(s: seq<string>)
    requires Distinct(s) && s != []
    ensures Without(s, s[0]) == s[1..]
    decreases |s|
  {
    if |s| > 1 {
      var front := s[..|s| - 1];
      WithoutFirst(front);
      assert s[1..] == front[1..] + [s[|s| - 1]];
    }
  }

  lemma {:induction false} DropOldestExactly(m: Memory, most: nat)
    requires Valid(m)
    ensures DropOldest(m, most).order == m.order[Surplus(m.order, most)..]
    decreases |m.order|
  {
    hide Valid, Without;
    if !(|m.order| < most || m.order == []) {
      var rest := Delete(m, m.order[0]);
      DeleteKeepsValid(m, m.order[0]);
      FirstGoes(m);
      DropOldestExactly(rest, most);
      assert m.order[1..][Surplus(rest.order, most)..] == m.order[Surplus(rest.order, most) + 1..];
    }
  }

  lemma {:induction false} FirstGoes(m: Memory)
    requires Valid(m) && m.order != []
    ensures Delete(m, m.order[0]).order == m.order[1..]
  {
    WithoutFirst(m.order);
  }

  /**
   * Exactly who is forgotten where there is no room: those that can be spared, and
   * then the first of the rest in the order they came. What is kept of the others
   * is unchanged, and in the same order.
   */
  lemma {:induction false} RoomIsMadeExactly(o: Options, m: Memory, now: int)
    requires Valid(m)
    ensures var r := MakeRoom(o, m, now);
            && r.order == (if |m.order| < o.maxEntries then m.order else Remaining(o, m, now))
            && (forall c :: c in r.entries <==> c in r.order)
            && (forall c :: c in r.entries ==> c in m.entries && r.entries[c] == m.entries[c])
  {
    hide Valid, DropExpendable, DropOldest, IsIdle, Removed;
    RoomIsMade(o, m, now);
    ValidHolds(m);
    ValidHolds(MakeRoom(o, m, now));
    if |m.order| >= o.maxEntries {
      DropExpendableKeepsValid(o, m, m.order, now);
      DropExpendableExactly(o, m, m.order, now);
      assert Gone(o, m, m.order, now) == Expendable(o, m, now);
      DropOldestExactly(DropExpendable(o, m, m.order, now), o.maxEntries);
    }
  }

  lemma {:induction false} ValidHolds(m: Memory)
    requires Valid(m)
    ensures forall c :: c in m.order <==> c in m.entries
  {
  }

  /** Room being made, the client is forgotten: there is none, and it can be spared or
      is among the oldest of the rest. */
  predicate Forgets(o: Options, m: Memory, now: int, c: string) {
    && |m.order| >= o.maxEntries && c in m.entries
    && var kept := Removed(m.order, Expendable(o, m, now));
       IsIdle(o, m.entries[c], now) || c in kept[..Surplus(kept, o.maxEntries)]
  }

  lemma {:induction false} ForgetsExactly(o: Options, m: Memory, now: int, c: string)
    requires Valid(m)
    ensures c in MakeRoom(o, m, now).entries <==> c in m.entries && !Forgets(o, m, now, c)
  {
    hide Valid, MakeRoom, IsIdle, Removed, Surplus;
    RoomIsMadeExactly(o, m, now);
    ValidHolds(m);
    var kept := Removed(m.order, Expendable(o, m, now));
    RemovedHas(m.order, Expendable(o, m, now), c);
    InOneHalf(m, Expendable(o, m, now), Surplus(kept, o.maxEntries), c);
  }

  /** In a list without repetition whoever is in one part is not in the other. */
  lemma {:induction false} InOneHalf(m: Memory, gone: set<string>, k: nat, c: string)
    requires Valid(m) && k <= |Removed(m.order, gone)|
    ensures var kept := Removed(m.order, gone); c in kept ==> (c in kept[k..] <==> c !in kept[..k])
    ensures var kept := Removed(m.order, gone); c !in kept ==> c !in kept[k..] && c !in kept[..k]
  {
    RemovedIsDistinct(m.order, gone);
    var kept := Removed(m.order, gone);
    assert kept == kept[..k] + kept[k..];
  }

  lemma {:induction false} RemovedIsDistinct(s: seq<string>, gone: set<string>)
    requires Distinct(s)
    ensures Distinct(Removed(s, gone))
    decreases |s|
  {
    if s != [] {
      var front, last := s[..|s| - 1], s[|s| - 1];
      RemovedIsDistinct(front, gone);
      LastIsNew(s);
      RemovedHas(front, gone, last);
    }
  }

  // ----- recording -----

  /** How long the n-th lockout lasts: doubled each time, up to the most. */
  function LockoutLength(o: Options, n: nat): nat
    requires n >= 1
  {
    Min(Shl(o.lockoutMs, Min(n - 1, 30)), o.maxLockoutMs)
  }

  function Counted(o: Options, e: Entry, now: int): Entry {
    var failures := Within(e.failures, now, o.windowMs) + [now];
    if |failures| >= o.maxFailures then Entry([], now + LockoutLength(o, e.lockouts + 1), e.lockouts + 1, now)
    else Entry(failures, e.lockedUntil, e.lockouts, now)
  }

  predicate IsForgotten(o: Options, m: Memory, c: string, now: int) {
    c in m.entries && now - m.entries[c].lastFailure > o.forgetAfterMs
  }

  function Remembering(o: Options, m: Memory, c: string, now: int): (r: Memory)
    ensures c in r.entries
  {
    var known := if IsForgotten(o, m, c, now) then Delete(m, c) else m;
    if c in known.entries then known else Add(MakeRoom(o, known, now), c, Entry([], 0, 0, now))
  }

  function AfterFailure(o: Options, m: Memory, c: string, now: int): Memory {
    var r := Remembering(o, m, c, now);
    var e := r.entries[c];
    if now < e.lockedUntil then r else r.(entries := r.entries[c := Counted(o, e, now)])
  }

  function AfterSuccess(m: Memory, c: string): Memory { if c in m.entries then Delete(m, c) else m }

  predicate IsLockedIn(m: Memory, c: string, now: int) { c in m.entries && now < m.entries[c].lockedUntil }

  class AttemptThrottle {
    const options: Options
    var order: seq<string>
    var entries: map<string, Entry>

    function State(): Memory
      reads this
    {
      Memory(order, entries)
    }

    constructor (options: Options)
      ensures State() == EMPTY && this.options == options
    {
      this.options := options;
      order, entries := [], map[];
    }

    method Size() returns (n: nat)
      ensures n == |order|
    {
      return |order|;
    }

    method IsLocked(client: string, now: int) returns (locked: bool)
      ensures locked <==> IsLockedIn(State(), client, now)
    {
      return client in entries && now < entries[client].lockedUntil;
    }

    method Forget(client: string)
      modifies this
      ensures State() == Delete(old(State()), client)
    {
      order, entries := Without(order, client), entries - {client};
    }

    method MakeRoomNow(now: int)
      modifies this
      ensures State() == MakeRoom(options, old(State()), now)
    {
      if |order| < options.maxEntries {
        return;
      }
      ghost var was := State();
      var clients := order;
      for i := 0 to |clients|
        invariant DropExpendable(options, State(), clients[i..], now) == DropExpendable(options, was, clients, now)
      {
        assert clients[i..][0] == clients[i] && clients[i..][1..] == clients[i + 1..];
        if clients[i] in entries {
          var entry := entries[clients[i]];
          if now >= entry.lockedUntil && now - entry.lastFailure > options.windowMs {
            Forget(clients[i]);
          }
        }
      }
      ghost var left := State();
      while |order| > 0
        invariant DropOldest(State(), options.maxEntries) == DropOldest(left, options.maxEntries)
        decreases |order|
      {
        if |order| < options.maxEntries {
          break;
        }
        Forget(order[0]);
      }
    }

    method RecordFailure(client: string, now: int)
      modifies this
      ensures State() == AfterFailure(options, old(State()), client, now)
    {
      hide MakeRoom, Within;
      if client in entries && now - entries[client].lastFailure > options.forgetAfterMs {
        Forget(client);
      }
      if client !in entries {
        MakeRoomNow(now);
        order, entries := order + [client], entries[client := Entry([], 0, 0, now)];
      }
      var entry := entries[client];
      if now < entry.lockedUntil {
        return;
      }
      var failures := Within(entry.failures, now, options.windowMs) + [now];
      if |failures| >= options.maxFailures {
        var lockouts := entry.lockouts + 1;
        entry := Entry([], now + LockoutLength(options, lockouts), lockouts, now);
      } else {
        entry := Entry(failures, entry.lockedUntil, entry.lockouts, now);
      }
      entries := entries[client := entry];
    }

    method RecordSuccess(client: string)
      modifies this
      ensures State() == AfterSuccess(old(State()), client)
    {
      if client in entries {
        Forget(client);
      }
    }
  }

  // ----- what every call keeps -----

  /** No lockout outlasts the most; no failure is later than the last. */
  ghost predicate WellKept(o: Options, m: Memory) {
    && Valid(m)
    && (forall c :: c in m.entries ==> m.entries[c].lockedUntil <= Max(0, m.entries[c].lastFailure + o.maxLockoutMs))
    && (o.maxEntries >= 1 ==> |m.order| <= o.maxEntries)
  }

  lemma {:induction false} RememberingKeeps(o: Options, m: Memory, c: string, now: int)
    requires WellKept(o, m)
    ensures WellKept(o, Remembering(o, m, c, now))
  {
    hide MakeRoom, Without;
    var known := if IsForgotten(o, m, c, now) then Delete(m, c) else m;
    DeleteKeepsValid(m, c);
    RoomIsMade(o, known, now);
  }

  lemma {:induction false} FailureKeeps(o: Options, m: Memory, c: string, now: int)
    requires WellKept(o, m)
    ensures WellKept(o, AfterFailure(o, m, c, now))
  {
    hide Remembering, Within, Shl;
    RememberingKeeps(o, m, c, now);
  }

  lemma {:induction false} SuccessKeeps(o: Options, m: Memory, c: string)
    requires WellKept(o, m)
    ensures WellKept(o, AfterSuccess(m, c))
  {
    DeleteKeepsValid(m, c);
  }

  /** A failure while locked out changes nothing, as long as the lockout is not
      older than what is remembered: exactly then. */
  lemma {:induction false} LockedFailureChangesNothing(o: Options, m: Memory, c: string, now: int)
    requires WellKept(o, m) && IsLockedIn(m, c, now)
    ensures AfterFailure(o, m, c, now) == m <==> !IsForgotten(o, m, c, now)
    ensures o.maxLockoutMs <= o.forgetAfterMs && now >= 0 ==> AfterFailure(o, m, c, now) == m
  {
    hide MakeRoom, Without, Within;
    if IsForgotten(o, m, c, now) {
      assert AfterFailure(o, m, c, now).entries[c].lastFailure == now;
    }
  }

  /** Otherwise it ends the lockout, unless it sets one anew by itself. */
  lemma {:induction false} LockedFailureKeepsLockedIff(o: Options, m: Memory, c: string, now: int)
    requires WellKept(o, m) && IsLockedIn(m, c, now) && now >= 0
    ensures IsLockedIn(AfterFailure(o, m, c, now), c, now)
            <==> !IsForgotten(o, m, c, now) || (o.maxFailures <= 1 && LockoutLength(o, 1) > 0)
  {
    hide MakeRoom, Without, LockoutLength;
    assert Within([], now, o.windowMs) == [];
  }

  /** So it can: two failures at 0 lock the client out until 10, and a third at 6,
      past what is remembered, lets it in again. */
  lemma {:induction false} FailureCanEndALockout()
    ensures var o := Options(2, 1, 10, 10, 5, 10);
            var m := AfterFailure(o, AfterFailure(o, EMPTY, "a", 0), "a", 0);
            IsLockedIn(m, "a", 6) && !IsLockedIn(AfterFailure(o, m, "a", 6), "a", 6)
  {
    var o := Options(2, 1, 10, 10, 5, 10);
    FailureWhenNew(o, EMPTY, "a", 0);
    var one := AfterFailure(o, EMPTY, "a", 0);
    FailureAgain(o, one, "a", 0);
    var two := AfterFailure(o, one, "a", 0);
    FailureWhenNew(o, two, "a", 6);
  }

  /** With two failures to a lockout: the first of a client not remembered, or no longer. */
  lemma {:induction false} FailureWhenNew(o: Options, m: Memory, c: string, at: int)
    requires o.maxFailures == 2 && o.windowMs >= 1 && at >= 0
    requires c !in m.entries || IsForgotten(o, m, c, at)
    ensures c in AfterFailure(o, m, c, at).entries
    ensures AfterFailure(o, m, c, at).entries[c] == Entry([at], 0, 0, at)
  {
    hide MakeRoom, Without, Within;
    WithinSnoc([], at, o.windowMs);
    assert Within([], at, o.windowMs) == [] by { NoneWithin(at, o.windowMs); }
  }

  lemma {:induction false} NoneWithin(at: int, windowMs: int)
    ensures Within([], at, windowMs) == []
  {
  }

  /** And the second, at the same time. */
  lemma {:induction false} FailureAgain(o: Options, m: Memory, c: string, at: int)
    requires o.maxFailures == 2 && o.windowMs >= 1 && at >= 0
    requires c in m.entries && m.entries[c] == Entry([at], 0, 0, at)
    ensures AfterFailure(o, m, c, at).entries[c] == Entry([], at + LockoutLength(o, 1), 1, at)
  {
    hide MakeRoom, Without, Within, LockoutLength;
    WithinSnoc([], at, o.windowMs);
    assert Within([], at, o.windowMs) == [] by { NoneWithin(at, o.windowMs); }
    assert [] + [at] == [at];
  }
}
