/**
 * apps/server/src/connection/watch.ts, gap: the hourly allowance of gaps is kept
 * under a session's identifier alone, so the systems whose sessions have one
 * identifier have one allowance between them.
 */
module SharedGaps {
  import opened Prelude
  import opened SlidingWindow
  import opened ConnectionWatch
  import opened WatchRuns

  /** A gap the watch writes down. */
  predicate Accepts(w: Watch, e: Event) {
    && e.Gap? && Known(w.store, e.key).Some? && Known(w.store, e.key).value.state != Closed
    && Admit(Times(w.gaps, e.key.1), e.at, HOUR_MS, MAX_GAPS_PER_HOUR).Some?
  }

  /** The gaps accepted over a run, each with its session and its time. */
  ghost function Granted(c: Config, w: Watch, es: seq<Event>): seq<(Key, int)>
    requires Admissible(c, w, es)
    decreases |es|
  {
    if es == [] then []
    else (if Accepts(w, es[0]) then [(es[0].key, es[0].at)] else []) + Granted(c, Apply(c, w, es[0]), es[1..])
  }

  /** The times of those under one identifier, of whatever system. */
  function TimesOf(g: seq<(Key, int)>, ses: SessionId): seq<int> {
    if g == [] then []
    else
      var last := g[|g| - 1];
      TimesOf(g[..|g| - 1], ses) + (if last.0.1 == ses then [last.1] else [])
  }

  /** How many of the hour before `at` are of the session itself. */
  function Own(g: seq<(Key, int)>, key: Key, at: int): nat {
    if g == [] then 0
    else
      var last := g[|g| - 1];
      Own(g[..|g| - 1], key, at) + (if last.0 == key && at - last.1 < HOUR_MS then 1 else 0)
  }

  /** How many are of other systems' sessions with its identifier. */
  function Others(g: seq<(Key, int)>, key: Key, at: int): nat {
    if g == [] then 0
    else
      var last := g[|g| - 1];
      Others(g[..|g| - 1], key, at) + (if last.0 != key && last.0.1 == key.1 && at - last.1 < HOUR_MS then 1 else 0)
  }

  lemma {:induction false} WithinSplits(g: seq<(Key, int)>, key: Key, at: int)
    ensures |Within(TimesOf(g, key.1), at, HOUR_MS)| == Own(g, key, at) + Others(g, key, at)
    decreases |g|
  {
    if g != [] {
      var front, last := g[..|g| - 1], g[|g| - 1];
      WithinSplits(front, key, at);
      var times := TimesOf(front, key.1);
      if last.0.1 == key.1 {
        assert (times + [last.1])[..|times|] == times;
      } else {
        assert times + [] == times;
      }
    }
  }

  lemma {:induction false} TimesOfCons(x: (Key, int), g: seq<(Key, int)>, ses: SessionId)
    ensures TimesOf([x] + g, ses) == (if x.0.1 == ses then [x.1] else []) + TimesOf(g, ses)
    decreases |g|
  {
    if g == [] {
      assert [x] + g == [x];
      assert [x][..0] == [];
    } else {
      TimesOfCons(x, g[..|g| - 1], ses);
      assert ([x] + g)[..|g|] == [x] + g[..|g| - 1];
    }
  }

  /** What the watch remembers having granted is what was granted. */
  lemma {:induction false} ReportedIsGranted(c: Config, w: Watch, es: seq<Event>, ses: SessionId)
    requires Admissible(c, w, es)
    ensures UsesOf(c, RunAll(c, w, es).reported, ses).all
            == UsesOf(c, w.reported, ses).all + TimesOf(Granted(c, w, es), ses)
    decreases |es|
  {
    hide Enabled, Apply, Admit, TimesOf;
    if es == [] {
      assert TimesOf([], ses) == [] by { NoTimes(ses); }
    } else {
      var v := Apply(c, w, es[0]);
      StepReports(c, w, es[0], ses);
      ReportedIsGranted(c, v, es[1..], ses);
      var rest := Granted(c, v, es[1..]);
      if Accepts(w, es[0]) {
        TimesOfCons((es[0].key, es[0].at), rest, ses);
      } else {
        assert [] + rest == rest;
      }
    }
  }

  lemma {:induction false} NoTimes(ses: SessionId)
    ensures TimesOf([], ses) == []
  {
  }

  lemma {:induction false} StepReports(c: Config, w: Watch, e: Event, ses: SessionId)
    ensures UsesOf(c, Apply(c, w, e).reported, ses).all
            == UsesOf(c, w.reported, ses).all + (if Accepts(w, e) && e.key.1 == ses then [e.at] else [])
  {
    hide Admit, SaveFirst, HeartbeatWrites, EndedWrites, SweepStore, Within;
    assert UsesOf(c, w.reported, ses).all + [] == UsesOf(c, w.reported, ses).all;
  }

  /**
   * Over every run: a gap of a session that is open or lost is accepted exactly
   * while the gaps of the hour before, its own and those of every other system's
   * session of that identifier, are fewer than the most. What is left to it is
   * what its own gaps leave it if and only if there were none of the others.
   */
  lemma {:induction false} GapAcceptedIff(c: Config, es: seq<Event>, e: Event)
    requires Admissible(c, Initial(c), es) && Enabled(RunAll(c, Initial(c), es), e) && e.Gap?
    requires var w := RunAll(c, Initial(c), es);
             Known(w.store, e.key).Some? && Known(w.store, e.key).value.state != Closed
    ensures var w, g := RunAll(c, Initial(c), es), Granted(c, Initial(c), es);
            var used := |Within(Times(w.gaps, e.key.1), e.at, HOUR_MS)|;
            && (Accepts(w, e) <==> Own(g, e.key, e.at) + Others(g, e.key, e.at) < MAX_GAPS_PER_HOUR)
            && (used == Own(g, e.key, e.at) <==> Others(g, e.key, e.at) == 0)
  {
    hide RunAll, Admissible, Granted, Consistent, TimesOk, Allowed, Within, Own, Others;
    var w, g := RunAll(c, Initial(c), es), Granted(c, Initial(c), es);
    InitialInv(c);
    RunKeeps(c, Initial(c), es);
    assert AllowanceOk(Times(w.gaps, e.key.1), UsesOf(c, w.reported, e.key.1), w.clock, MAX_GAPS_PER_HOUR);
    var uses := UsesOf(c, w.reported, e.key.1);
    ReportedIsGranted(c, Initial(c), es, e.key.1);
    assert uses.all == [] + TimesOf(g, e.key.1) == TimesOf(g, e.key.1);
    WithinLater(uses.all, uses.lastUse, e.at, HOUR_MS);
    WithinSplits(g, e.key, e.at);
  }

  // ----- two systems, one identifier -----

  lemma {:induction false} OneWrite(st: Store, key: Key, w: Write)
    ensures SaveFirst(st, key, [w], 1) == Save(st, key, w)
  {
    assert [w][..1] == [w] && [w][1..] == [];
    assert SaveAll(Save(st, key, w), key, []) == Save(st, key, w);
  }

  lemma {:induction false} AcceptedGap(c: Config, w: Watch, key: Key, at: int)
    requires Accepts(w, Gap(key, true, at, at, 1))
    ensures var v := Apply(c, w, Gap(key, true, at, at, 1));
            && v.store.rows == w.store.rows && v.clock == at
            && |Within(Times(v.gaps, key.1), at, HOUR_MS)| == |Within(Times(w.gaps, key.1), at, HOUR_MS)| + 1
  {
    hide Within;
    var st, row := w.store, w.store.rows[key];
    var write := GapWrite(key, row, true, at, at);
    OneWrite(st, key, write);
    assert st.rows[key := row] == st.rows;
    var kept := Within(Times(w.gaps, key.1), at, HOUR_MS);
    WithinSnoc(kept, at, HOUR_MS);
    WithinLater(Times(w.gaps, key.1), at, at, HOUR_MS);
  }

  /** A session reports gap after gap, until no more are taken under its identifier. */
  lemma {:induction false} UsedUp(c: Config, w: Watch, key: Key, at: int) returns (es: seq<Event>)
    requires w.clock <= at && Known(w.store, key).Some? && Known(w.store, key).value.state != Closed
    ensures Admissible(c, w, es) && forall i :: 0 <= i < |es| ==> es[i] == Gap(key, true, at, at, 1)
    ensures var v := RunAll(c, w, es);
            && v.store.rows == w.store.rows && v.clock <= at
            && |Within(Times(v.gaps, key.1), at, HOUR_MS)| >= MAX_GAPS_PER_HOUR
    decreases MAX_GAPS_PER_HOUR - |Within(Times(w.gaps, key.1), at, HOUR_MS)|
  {
    hide Within, Apply;
    if |Within(Times(w.gaps, key.1), at, HOUR_MS)| >= MAX_GAPS_PER_HOUR {
      es := [];
    } else {
      var e := Gap(key, true, at, at, 1);
      AcceptedGap(c, w, key, at);
      var rest := UsedUp(c, Apply(c, w, e), key, at);
      es := [e] + rest;
      assert es[1..] == rest;
    }
  }

  lemma {:induction false} NotOwn(c: Config, w: Watch, es: seq<Event>, key: Key, at: int)
    requires Admissible(c, w, es) && forall i :: 0 <= i < |es| ==> es[i].Gap? ==> es[i].key != key
    ensures Own(Granted(c, w, es), key, at) == 0
    decreases |es|
  {
    hide Enabled, Apply, Own;
    if es == [] {
      assert Own([], key, at) == 0 by { NoneOwn(key, at); }
    } else {
      var rest := Granted(c, Apply(c, w, es[0]), es[1..]);
      NotOwn(c, Apply(c, w, es[0]), es[1..], key, at);
      if Accepts(w, es[0]) {
        OwnCons((es[0].key, es[0].at), rest, key, at);
      } else {
        assert [] + rest == rest;
      }
    }
  }

  lemma {:induction false} NoneOwn(key: Key, at: int)
    ensures Own([], key, at) == 0
  {
  }

  lemma {:induction false} OwnCons(x: (Key, int), g: seq<(Key, int)>, key: Key, at: int)
    requires x.0 != key
    ensures Own([x] + g, key, at) == Own(g, key, at)
    decreases |g|
  {
    if g == [] {
      assert [x] + g == [x];
      assert [x][..0] == [];
    } else {
      OwnCons(x, g[..|g| - 1], key, at);
      assert ([x] + g)[..|g|] == [x] + g[..|g| - 1];
    }
  }

  function StartOf(key: Key, at: int): Event { Heartbeat(key, StartEvent, Extras(None, None), [], at, 1) }

  lemma {:induction false} Started(c: Config, w: Watch, key: Key)
    requires Known(w.store, key).None? && Times(w.openedAt, key.0) == [] && c.maxNewSessionsPerHour >= 1
    ensures var v := Apply(c, w, StartOf(key, w.clock));
            && Known(v.store, key).Some? && Known(v.store, key).value.state == Open
            && v.clock == w.clock && v.gaps == w.gaps
            && (forall k :: k != key ==> Known(v.store, k) == Known(w.store, k))
            && (forall sys :: sys != key.0 ==> Times(v.openedAt, sys) == Times(w.openedAt, sys))
  {
    assert Within([], w.clock, HOUR_MS) == [];
    var write := Write(RowFor(None, w.clock, Open, false, None, None), Some(Entry(key, Start, w.clock, w.clock)));
    assert HeartbeatWrites(key, None, [], StartEvent, Extras(None, None), w.clock) == [write];
    OneWrite(w.store, key, write);
  }

  /** The input: a session of one system reports as many gaps as an hour may have, and
      the first gap of another system's session with its identifier is refused. */
  lemma {:induction false} AnotherSystemsGapsRefuse(c: Config, a: SystemId, b: SystemId, ses: SessionId)
    returns (es: seq<Event>)
    requires a != b && c.maxNewSessionsPerHour >= 1
    ensures Admissible(c, Initial(c), es)
    ensures var w := RunAll(c, Initial(c), es);
            && Known(w.store, (b, ses)).Some? && Known(w.store, (b, ses)).value.state == Open
            && Own(Granted(c, Initial(c), es), (b, ses), c.since) == 0
            && !Accepts(w, Gap((b, ses), true, c.since, c.since, 1))
  {
    hide Apply, Within, Own;
    var w0 := Initial(c);
    Started(c, w0, (a, ses));
    var w1 := Apply(c, w0, StartOf((a, ses), c.since));
    Started(c, w1, (b, ses));
    var w2 := Apply(c, w1, StartOf((b, ses), c.since));
    var rest := UsedUp(c, w2, (a, ses), c.since);
    var two := [StartOf((b, ses), c.since)] + rest;
    assert two[1..] == rest;
    es := [StartOf((a, ses), c.since)] + two;
    assert es[1..] == two;
    NotOwn(c, w0, es, (b, ses), c.since);
  }
}
