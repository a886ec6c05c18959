/**
 * apps/server/src/connection/watch.ts, the class ConnectionWatch: beats, gaps and
 * sweeps in whatever order they come, over a clock that does not go back, for as
 * long as one server process lives.
 */
module WatchRuns {
  import opened Prelude
  import opened SlidingWindow
  import opened ConnectionWatch

  const HOUR_MS: int := 3600000
  const MAX_GAPS_PER_HOUR: nat := 24

  datatype Config = Config(maxNewSessionsPerHour: nat, lostAfterMs: int, since: int)

  /** All the times an allowance was granted, and when it was last asked for. */
  datatype Uses = Uses(all: seq<int>, lastUse: int)

  /** The fields; and, as history, every admission of each system and every gap
      accepted of each session. */
  datatype Watch = Watch(
    store: Store, openedAt: map<SystemId, seq<int>>, gaps: map<SessionId, seq<int>>,
    admitted: map<SystemId, Uses>, reported: map<SessionId, Uses>, clock: int)

  function Initial(c: Config): Watch { Watch(Store(map[], []), map[], map[], map[], map[], c.since) }

  function Times<K>(m: map<K, seq<int>>, k: K): seq<int> { if k in m then m[k] else [] }

  function UsesOf<K>(c: Config, m: map<K, Uses>, k: K): Uses { if k in m then m[k] else Uses([], c.since) }

  /** `ok` is how many of the store's writes succeed; `sessions` is what it lists of
      the system, and `open` of every system's open sessions. */
  datatype Event =
    | Heartbeat(key: Key, event: HeartbeatEvent, extras: Extras, sessions: seq<Row>, at: int, ok: nat)
    | EndedBy(key: Key, at: int, ok: nat)
    | Gap(key: Key, sleep: bool, from: int, at: int, ok: nat)
    | Sweep(open: seq<Key>, at: int, ok: nat)

  ghost predicate IsListingOfOpen(st: Store, open: seq<Key>) {
    && (forall k :: k in open <==> k in st.rows && st.rows[k].state == Open)
    && (forall i, j :: 0 <= i < j < |open| ==> open[i] != open[j])
  }

  ghost predicate IsListed(st: Store, sys: SystemId, sessions: seq<Row>) {
    forall r :: r in sessions ==> exists key :: key in st.rows && key.0 == sys && st.rows[key] == r
  }

  ghost predicate Enabled(w: Watch, e: Event) {
    && e.at >= w.clock
    && (e.Sweep? ==> IsListingOfOpen(w.store, e.open))
    && (e.Heartbeat? ==> IsListed(w.store, e.key.0, e.sessions))
  }

  function SaveFirst(st: Store, key: Key, ws: seq<Write>, ok: nat): Store { SaveAll(st, key, ws[..Min(ok, |ws|)]) }

  // ----- sweep -----

  function Silent(st: Store, open: seq<Key>, now: int, lostAfterMs: int): seq<Key> {
    if open == [] then []
    else
      var last := open[|open| - 1];
      Silent(st, open[..|open| - 1], now, lostAfterMs)
      + (if last in st.rows && now - st.rows[last].lastBeatAt > lostAfterMs then [last] else [])
  }

  function LostWrite(key: Key, row: Row, now: int): Write {
    Write(row.(state := Lost), Some(Entry(key, GoneLost, row.lastBeatAt, now)))
  }

  function LoseAll(st: Store, keys: seq<Key>, now: int): Store {
    if keys == [] then st
    else
      var before, last := LoseAll(st, keys[..|keys| - 1], now), keys[|keys| - 1];
      if last in before.rows then Save(before, last, LostWrite(last, before.rows[last], now)) else before
  }

  function SweepStore(c: Config, st: Store, open: seq<Key>, now: int, ok: nat): Store {
    if now - c.since <= c.lostAfterMs then st
    else
      var silent := Silent(st, open, now, c.lostAfterMs);
      LoseAll(st, silent[..Min(ok, |silent|)], now)
  }

  // ----- a step -----

  /** admitNewSession */
  function AdmitSession(c: Config, w: Watch, sys: SystemId, now: int): (Watch, bool) {
    var r := Admit(Times(w.openedAt, sys), now, HOUR_MS, c.maxNewSessionsPerHour);
    var uses := UsesOf(c, w.admitted, sys);
    if r.None?
    then (w.(openedAt := w.openedAt[sys := Within(Times(w.openedAt, sys), now, HOUR_MS)],
             admitted := w.admitted[sys := Uses(uses.all, now)]), false)
    else (w.(openedAt := w.openedAt[sys := r.value], admitted := w.admitted[sys := Uses(uses.all + [now], now)]), true)
  }

  function Apply(c: Config, w: Watch, e: Event): Watch {
    var v := w.(clock := e.at);
    match e
    case Heartbeat(key, event, extras, sessions, at, ok) =>
      var known := Known(w.store, key);
      var (u, admitted) := if known.None? then AdmitSession(c, v, key.0, at) else (v, true);
      if !admitted then u
      else u.(store := SaveFirst(w.store, key, HeartbeatWrites(key, known, sessions, event, extras, at), ok))
    case EndedBy(key, at, ok) => v.(store := SaveFirst(w.store, key, EndedWrites(key, Known(w.store, key), at), ok))
    case Gap(key, sleep, from, at, ok) =>
      var known := Known(w.store, key);
      if known.None? || known.value.state == Closed then v
      else
        var r := Admit(Times(w.gaps, key.1), at, HOUR_MS, MAX_GAPS_PER_HOUR);
        if r.None? then v
        else v.(gaps := w.gaps[key.1 := r.value],
                reported := w.reported[key.1 := Uses(UsesOf(c, w.reported, key.1).all + [at], at)],
                store := SaveFirst(w.store, key, [GapWrite(key, known.value, sleep, from, at)], ok))
    case Sweep(open, at, ok) => v.(store := SweepStore(c, w.store, open, at, ok))
  }

  // ----- what every interleaving keeps -----

  ghost predicate AllowanceOk(recent: seq<int>, uses: Uses, clock: int, most: nat) {
    uses.lastUse <= clock && Recalls(recent, uses.all, uses.lastUse, HOUR_MS) && Allowed(uses.all, HOUR_MS, most)
  }

  ghost predicate AllowancesOk(c: Config, w: Watch) {
    && (forall sys :: AllowanceOk(Times(w.openedAt, sys), UsesOf(c, w.admitted, sys), w.clock, c.maxNewSessionsPerHour))
    && (forall ses :: AllowanceOk(Times(w.gaps, ses), UsesOf(c, w.reported, ses), w.clock, MAX_GAPS_PER_HOUR))
  }

  /** A receipt says when it began no later than when it was received; and of a
      loss, that the silence was past the allowance. */
  predicate EntryOk(c: Config, e: Entry) {
    && e.tsEvent <= e.tsReceived
    && (e.name == GoneLost ==> e.tsReceived - e.tsEvent > c.lostAfterMs && e.tsReceived - c.since > c.lostAfterMs)
  }

  predicate RowOk(row: Row, clock: int) { row.startedAt <= row.lastBeatAt <= clock }

  ghost predicate TimesOk(c: Config, st: Store, clock: int) {
    && (forall i :: 0 <= i < |st.log| ==> EntryOk(c, st.log[i]))
    && (forall key :: key in st.rows ==> RowOk(st.rows[key], clock))
  }

  ghost predicate Inv(c: Config, w: Watch) {
    Consistent(w.store) && TimesOk(c, w.store, w.clock) && AllowancesOk(c, w)
  }

  lemma {:induction false} InitialInv(c: Config)
    ensures Inv(c, Initial(c))
  {
    forall sys: SystemId
      ensures AllowanceOk(Times(Initial(c).openedAt, sys), UsesOf(c, Initial(c).admitted, sys), c.since,
                c.maxNewSessionsPerHour)
    {
    }
  }

  // the store

  predicate WriteOk(c: Config, row: Option<Row>, w: Write, clock: int) {
    && (w.entry.Some? ==> EntryOk(c, w.entry.value))
    && RowOk(w.row, clock)
    && (row.Some? ==> w.row.startedAt == row.value.startedAt)
  }

  lemma {:induction false} SaveKeepsTimes(c: Config, st: Store, key: Key, w: Write, clock: int)
    requires TimesOk(c, st, clock) && WriteOk(c, Known(st, key), w, clock)
    ensures TimesOk(c, Save(st, key, w), clock)
    ensures Known(Save(st, key, w), key).Some? && Known(Save(st, key, w), key).value.startedAt == w.row.startedAt
  {
  }

  lemma {:induction false} SaveAllKeepsTimes(c: Config, st: Store, key: Key, ws: seq<Write>, clock: int)
    requires TimesOk(c, st, clock)
    requires forall i :: 0 <= i < |ws| ==>
              WriteOk(c, Known(st, key), ws[i], clock) && ws[i].row.startedAt == ws[0].row.startedAt
    ensures TimesOk(c, SaveAll(st, key, ws), clock)
    decreases |ws|
  {
    hide TimesOk, Save, RowOk, EntryOk;
    if ws != [] {
      SaveKeepsTimes(c, st, key, ws[0], clock);
      SaveAllKeepsTimes(c, Save(st, key, ws[0]), key, ws[1..], clock);
    }
  }

  lemma {:induction false} HeartbeatTimes(
      c: Config, key: Key, known: Option<Row>, sessions: seq<Row>, event: HeartbeatEvent, extras: Extras, at: int)
    requires known.Some? ==> RowOk(known.value, at)
    requires forall r :: r in sessions ==> RowOk(r, at)
    ensures var ws := HeartbeatWrites(key, known, sessions, event, extras, at);
            forall i :: 0 <= i < |ws| ==> WriteOk(c, known, ws[i], at) && ws[i].row.startedAt == ws[0].row.startedAt
  {
    hide FarApart;
  }

  lemma {:induction false} StoreStepKeeps(c: Config, st: Store, clock: int, key: Key, ws: seq<Write>, ok: nat, at: int)
    requires Consistent(st) && TimesOk(c, st, clock) && clock <= at
    requires AreSound(key, SessionOf(Known(st, key)), ws)
    requires forall i :: 0 <= i < |ws| ==>
              WriteOk(c, Known(st, key), ws[i], at) && ws[i].row.startedAt == ws[0].row.startedAt
    ensures Consistent(SaveFirst(st, key, ws, ok)) && TimesOk(c, SaveFirst(st, key, ws, ok), at)
  {
    hide Consistent, WriteOk, AreSound;
    FirstAreSound(key, SessionOf(Known(st, key)), ws, Min(ok, |ws|));
    SaveAllIsConsistent(st, key, ws[..Min(ok, |ws|)]);
    LaterTimesOk(c, st, clock, at);
    SaveAllKeepsTimes(c, st, key, ws[..Min(ok, |ws|)], at);
  }

  lemma {:induction false} LaterTimesOk(c: Config, st: Store, clock: int, at: int)
    requires TimesOk(c, st, clock) && clock <= at
    ensures TimesOk(c, st, at)
  {
  }

  lemma {:induction false} SilentAreOpen(st: Store, open: seq<Key>, now: int, lostAfterMs: int)
    ensures var s := Silent(st, open, now, lostAfterMs);
            && (forall k :: k in s <==> k in open && k in st.rows && now - st.rows[k].lastBeatAt > lostAfterMs)
            && ((forall i, j :: 0 <= i < j < |open| ==> open[i] != open[j]) ==> forall i, j :: 0 <= i < j < |s| ==>
                s[i] != s[j])
    decreases |open|
  {
    if open != [] {
      var front, last := open[..|open| - 1], open[|open| - 1];
      SilentAreOpen(st, front, now, lostAfterMs);
      assert open == front + [last];
      var s := Silent(st, front, now, lostAfterMs);
      assert forall i :: 0 <= i < |s| ==> s[i] in front;
    }
  }

  /** Every key is of an open session, silent past the allowance, and none is there twice. */
  ghost predicate ToLose(c: Config, st: Store, keys: seq<Key>, now: int) {
    && now - c.since > c.lostAfterMs
    && (forall i :: 0 <= i < |keys| ==>
          keys[i] in st.rows && st.rows[keys[i]].state == Open && now - st.rows[keys[i]].lastBeatAt > c.lostAfterMs)
    && (forall i, j :: 0 <= i < j < |keys| ==> keys[i] != keys[j])
  }

  /** Those are lost, and nothing else is changed. */
  ghost predicate AreLost(st: Store, keys: seq<Key>, t: Store) {
    && t.rows.Keys == st.rows.Keys
    && forall k :: k in st.rows ==> t.rows[k] == if k in keys then st.rows[k].(state := Lost) else st.rows[k]
  }

  lemma {:induction false} LoseAllKeeps(c: Config, st: Store, keys: seq<Key>, now: int)
    requires Consistent(st) && TimesOk(c, st, now) && ToLose(c, st, keys, now)
    ensures Consistent(LoseAll(st, keys, now)) && TimesOk(c, LoseAll(st, keys, now), now)
    ensures AreLost(st, keys, LoseAll(st, keys, now))
    decreases |keys|
  {
    hide Consistent, TimesOk;
    if keys != [] {
      var front, last := keys[..|keys| - 1], keys[|keys| - 1];
      LoseAllKeeps(c, st, front, now);
      var before := LoseAll(st, front, now);
      assert last !in front;
      assert before.rows[last] == st.rows[last];
      LoseOneKeeps(c, before, last, now);
      assert keys == front + [last];
    }
  }

  lemma {:induction false} LoseOneKeeps(c: Config, st: Store, key: Key, now: int)
    requires Consistent(st) && TimesOk(c, st, now) && now - c.since > c.lostAfterMs
    requires key in st.rows && st.rows[key].state == Open && now - st.rows[key].lastBeatAt > c.lostAfterMs
    ensures var t := Save(st, key, LostWrite(key, st.rows[key], now));
            Consistent(t) && TimesOk(c, t, now) && t.rows == st.rows[key := st.rows[key].(state := Lost)]
  {
    SaveOneSound(st, key, now);
    var w := LostWrite(key, st.rows[key], now);
    hide Consistent;
    assert RowOk(st.rows[key], now);
    SaveKeepsTimes(c, st, key, w, now);
  }

  lemma {:induction false} SaveOneSound(st: Store, key: Key, now: int)
    requires Consistent(st) && key in st.rows && st.rows[key].state == Open
    ensures Consistent(Save(st, key, LostWrite(key, st.rows[key], now)))
  {
    hide Consistent;
    SaveIsConsistent(st, key, LostWrite(key, st.rows[key], now));
  }

  lemma {:induction false} ToLoseFirst(c: Config, st: Store, open: seq<Key>, now: int, n: nat)
    requires now - c.since > c.lostAfterMs && IsListingOfOpen(st, open) && n <= |Silent(st, open, now, c.lostAfterMs)|
    ensures ToLose(c, st, Silent(st, open, now, c.lostAfterMs)[..n], now)
  {
    SilentAreOpen(st, open, now, c.lostAfterMs);
    var s := Silent(st, open, now, c.lostAfterMs);
    hide Silent;
    assert forall i :: 0 <= i < n ==> s[..n][i] == s[i] && s[i] in s;
  }

  lemma {:induction false} SweepKeeps(c: Config, st: Store, clock: int, open: seq<Key>, now: int, ok: nat)
    requires Consistent(st) && TimesOk(c, st, clock) && clock <= now && IsListingOfOpen(st, open)
    ensures Consistent(SweepStore(c, st, open, now, ok)) && TimesOk(c, SweepStore(c, st, open, now, ok), now)
  {
    hide Consistent, TimesOk, IsListingOfOpen, ToLose, AreLost, LoseAll, Silent;
    LaterTimesOk(c, st, clock, now);
    if now - c.since > c.lostAfterMs {
      var silent := Silent(st, open, now, c.lostAfterMs);
      ToLoseFirst(c, st, open, now, Min(ok, |silent|));
      LoseAllKeeps(c, st, silent[..Min(ok, |silent|)], now);
    }
  }

  /** A sweep no write of which fails leaves no session open that is silent past the
      allowance, and touches no other. */
  lemma {:induction false} SweepLeavesNoneSilent(c: Config, st: Store, open: seq<Key>, now: int, ok: nat)
    requires Consistent(st) && TimesOk(c, st, now) && IsListingOfOpen(st, open)
    requires now - c.since > c.lostAfterMs && ok >= |open|
    ensures var t := SweepStore(c, st, open, now, ok);
            && t.rows.Keys == st.rows.Keys
            && forall k :: k in st.rows ==>
                 t.rows[k] == if st.rows[k].state == Open && now - st.rows[k].lastBeatAt > c.lostAfterMs
                              then st.rows[k].(state := Lost) else st.rows[k]
  {
    hide Consistent, TimesOk, LoseAll;
    SilentAreOpen(st, open, now, c.lostAfterMs);
    SilentAreFew(st, open, now, c.lostAfterMs);
    var silent := Silent(st, open, now, c.lostAfterMs);
    ToLoseFirst(c, st, open, now, |silent|);
    assert silent[..|silent|] == silent;
    LoseAllKeeps(c, st, silent, now);
  }

  /** What is new in the log: of each of these sessions a loss, dated at its last beat. */
  ghost predicate AreReported(st: Store, keys: seq<Key>, now: int, t: Store) {
    && |t.log| == |st.log| + |keys| && t.log[..|st.log|] == st.log
    && forall i :: 0 <= i < |keys| ==>
         keys[i] in st.rows && t.log[|st.log| + i] == Entry(keys[i], GoneLost, st.rows[keys[i]].lastBeatAt, now)
  }

  lemma {:induction false} LossesAreReported(c: Config, st: Store, keys: seq<Key>, now: int)
    requires Consistent(st) && TimesOk(c, st, now) && ToLose(c, st, keys, now)
    ensures AreReported(st, keys, now, LoseAll(st, keys, now))
    decreases |keys|
  {
    hide Consistent, TimesOk, AreReported;
    if keys == [] {
      NoneReported(st, now);
    } else {
      var front, last := keys[..|keys| - 1], keys[|keys| - 1];
      LossesAreReported(c, st, front, now);
      LoseAllKeeps(c, st, front, now);
      assert last !in front && keys == front + [last];
      OneMoreReported(st, front, last, now, LoseAll(st, front, now));
    }
  }

  lemma {:induction false} NoneReported(st: Store, now: int)
    ensures AreReported(st, [], now, st)
  {
  }

  lemma {:induction false} OneMoreReported(st: Store, front: seq<Key>, last: Key, now: int, before: Store)
    requires AreReported(st, front, now, before)
    requires last in st.rows && last in before.rows && before.rows[last] == st.rows[last]
    ensures AreReported(st, front + [last], now, Save(before, last, LostWrite(last, before.rows[last], now)))
  {
  }

  /** Every sweep that is due reports, of as many of the silent sessions as the store takes, each
      once and in the order they were listed, a loss since its last beat. */
  lemma {:induction false} SweepReports(c: Config, st: Store, open: seq<Key>, now: int, ok: nat)
      returns (lost: seq<Key>)
    requires Consistent(st) && TimesOk(c, st, now) && IsListingOfOpen(st, open) && now - c.since > c.lostAfterMs
    ensures AreReported(st, lost, now, SweepStore(c, st, open, now, ok))
    ensures forall i, j :: 0 <= i < j < |lost| ==> lost[i] != lost[j]
    ensures forall k :: k in lost ==> k in open && now - st.rows[k].lastBeatAt > c.lostAfterMs
    ensures ok >= |open| ==> forall k :: k in open && now - st.rows[k].lastBeatAt > c.lostAfterMs ==> k in lost
  {
    hide Consistent, TimesOk, LoseAll, AreReported;
    SilentAreOpen(st, open, now, c.lostAfterMs);
    SilentAreFew(st, open, now, c.lostAfterMs);
    var silent := Silent(st, open, now, c.lostAfterMs);
    var n := Min(ok, |silent|);
    lost := silent[..n];
    ToLoseFirst(c, st, open, now, n);
    assert forall i :: 0 <= i < n ==> lost[i] in silent;
    LossesAreReported(c, st, lost, now);
  }

  lemma {:induction false} SilentAreFew(st: Store, open: seq<Key>, now: int, lostAfterMs: int)
    ensures |Silent(st, open, now, lostAfterMs)| <= |open|
    decreases |open|
  {
    if open != [] {
      SilentAreFew(st, open[..|open| - 1], now, lostAfterMs);
    }
  }

  // the allowances

  lemma {:induction false} AllowanceLater(recent: seq<int>, uses: Uses, clock: int, at: int, most: nat)
    requires AllowanceOk(recent, uses, clock, most) && clock <= at
    ensures AllowanceOk(recent, uses, at, most)
  {
  }

  lemma {:induction false} AllowanceUsed(recent: seq<int>, uses: Uses, clock: int, at: int, most: nat)
    requires AllowanceOk(recent, uses, clock, most) && clock <= at
    ensures var r := Admit(recent, at, HOUR_MS, most);
            if r.None? then AllowanceOk(Within(recent, at, HOUR_MS), Uses(uses.all, at), at, most)
            else AllowanceOk(r.value, Uses(uses.all + [at], at), at, most)
  {
    AdmitKeepsAllowance(recent, uses.all, uses.lastUse, at, HOUR_MS, most);
  }

  lemma {:induction false} AllowancesLater(c: Config, w: Watch, at: int)
    requires AllowancesOk(c, w) && w.clock <= at
    ensures AllowancesOk(c, w.(clock := at))
  {
    hide AllowanceOk;
    forall k
      ensures AllowanceOk(Times(w.openedAt, k), UsesOf(c, w.admitted, k), at, c.maxNewSessionsPerHour)
    {
      AllowanceLater(Times(w.openedAt, k), UsesOf(c, w.admitted, k), w.clock, at, c.maxNewSessionsPerHour);
    }
    forall k
      ensures AllowanceOk(Times(w.gaps, k), UsesOf(c, w.reported, k), at, MAX_GAPS_PER_HOUR)
    {
      AllowanceLater(Times(w.gaps, k), UsesOf(c, w.reported, k), w.clock, at, MAX_GAPS_PER_HOUR);
    }
  }

  lemma {:induction false} AdmitSessionKeeps(c: Config, w: Watch, sys: SystemId, at: int)
    requires AllowancesOk(c, w) && w.clock <= at
    ensures AllowancesOk(c, AdmitSession(c, w.(clock := at), sys, at).0)
  {
    hide Recalls, Allowed, AllowanceOk, Admit;
    var v := w.(clock := at);
    var u := AdmitSession(c, v, sys, at).0;
    AllowanceUsed(Times(w.openedAt, sys), UsesOf(c, w.admitted, sys), w.clock, at, c.maxNewSessionsPerHour);
    forall k
      ensures AllowanceOk(Times(u.openedAt, k), UsesOf(c, u.admitted, k), at, c.maxNewSessionsPerHour)
    {
      if k != sys {
        AllowanceLater(Times(w.openedAt, k), UsesOf(c, w.admitted, k), w.clock, at, c.maxNewSessionsPerHour);
      }
    }
    forall k
      ensures AllowanceOk(Times(u.gaps, k), UsesOf(c, u.reported, k), at, MAX_GAPS_PER_HOUR)
    {
      AllowanceLater(Times(w.gaps, k), UsesOf(c, w.reported, k), w.clock, at, MAX_GAPS_PER_HOUR);
    }
  }

  lemma {:induction false} GapKeepsAllowances(c: Config, w: Watch, ses: SessionId, at: int)
    requires AllowancesOk(c, w) && w.clock <= at
    ensures var r := Admit(Times(w.gaps, ses), at, HOUR_MS, MAX_GAPS_PER_HOUR);
            r.Some? ==> AllowancesOk(c, w.(clock := at, gaps := w.gaps[ses := r.value],
                                           reported := w.reported[ses := Uses(UsesOf(c, w.reported, ses).all
                                               + [at], at)]))
  {
    hide Recalls, Allowed, AllowanceOk, Admit;
    AllowanceUsed(Times(w.gaps, ses), UsesOf(c, w.reported, ses), w.clock, at, MAX_GAPS_PER_HOUR);
    var r := Admit(Times(w.gaps, ses), at, HOUR_MS, MAX_GAPS_PER_HOUR);
    if r.Some? {
      var u := w.(clock := at, gaps := w.gaps[ses := r.value],
                  reported := w.reported[ses := Uses(UsesOf(c, w.reported, ses).all + [at], at)]);
      forall k
        ensures AllowanceOk(Times(u.openedAt, k), UsesOf(c, u.admitted, k), at, c.maxNewSessionsPerHour)
      {
        AllowanceLater(Times(w.openedAt, k), UsesOf(c, w.admitted, k), w.clock, at, c.maxNewSessionsPerHour);
      }
      forall k
        ensures AllowanceOk(Times(u.gaps, k), UsesOf(c, u.reported, k), at, MAX_GAPS_PER_HOUR)
      {
        if k != ses {
          AllowanceLater(Times(w.gaps, k), UsesOf(c, w.reported, k), w.clock, at, MAX_GAPS_PER_HOUR);
        }
      }
    }
  }

  // a step

  lemma {:induction false} SameAllowances(c: Config, w: Watch, v: Watch)
    requires AllowancesOk(c, w)
    requires v.openedAt == w.openedAt && v.admitted == w.admitted && v.gaps == w.gaps && v.reported == w.reported
              && v.clock == w.clock
    ensures AllowancesOk(c, v)
  {
  }

  lemma {:induction false} HeartbeatKeeps(c: Config, w: Watch, e: Event)
    requires Inv(c, w) && Enabled(w, e) && e.Heartbeat?
    ensures Inv(c, Apply(c, w, e))
  {
    hide Consistent, TimesOk, AllowancesOk, HeartbeatWrites, AreSound, WriteOk, IsListed, SaveFirst;
    var known := Known(w.store, e.key);
    var ws := HeartbeatWrites(e.key, known, e.sessions, e.event, e.extras, e.at);
    HeartbeatIsSound(e.key, known, e.sessions, e.event, e.extras, e.at);
    RowsAreOk(c, w, e);
    HeartbeatTimes(c, e.key, known, e.sessions, e.event, e.extras, e.at);
    StoreStepKeeps(c, w.store, w.clock, e.key, ws, e.ok, e.at);
    LaterTimesOk(c, w.store, w.clock, e.at);
    AllowancesLater(c, w, e.at);
    AdmitSessionKeeps(c, w, e.key.0, e.at);
    var (u, admitted) := if known.None? then AdmitSession(c, w.(clock := e.at), e.key.0, e.at)
        else (w.(clock := e.at), true);
    SameAllowances(c, u, Apply(c, w, e));
  }

  lemma {:induction false} RowsAreOk(c: Config, w: Watch, e: Event)
    requires TimesOk(c, w.store, w.clock) && Enabled(w, e) && e.Heartbeat?
    ensures Known(w.store, e.key).Some? ==> RowOk(Known(w.store, e.key).value, e.at)
    ensures forall r :: r in e.sessions ==> RowOk(r, e.at)
  {
    forall r | r in e.sessions
      ensures RowOk(r, e.at)
    {
      var key :| key in w.store.rows && key.0 == e.key.0 && w.store.rows[key] == r;
    }
  }

  lemma {:induction false} EndedKeeps(c: Config, w: Watch, e: Event)
    requires Inv(c, w) && Enabled(w, e) && e.EndedBy?
    ensures Inv(c, Apply(c, w, e))
  {
    hide Consistent, AllowancesOk, SaveFirst;
    var known := Known(w.store, e.key);
    var ws := EndedWrites(e.key, known, e.at);
    SoundOneByOne(e.key, SessionOf(known), ws);
    StoreStepKeeps(c, w.store, w.clock, e.key, ws, e.ok, e.at);
    AllowancesLater(c, w, e.at);
    SameAllowances(c, w.(clock := e.at), Apply(c, w, e));
  }

  lemma {:induction false} GapKeeps(c: Config, w: Watch, e: Event)
    requires Inv(c, w) && Enabled(w, e) && e.Gap?
    ensures Inv(c, Apply(c, w, e))
  {
    hide Consistent, AllowancesOk, SaveFirst, Admit;
    var known := Known(w.store, e.key);
    AllowancesLater(c, w, e.at);
    LaterTimesOk(c, w.store, w.clock, e.at);
    GapKeepsAllowances(c, w, e.key.1, e.at);
    if known.Some? && known.value.state != Closed {
      var ws := [GapWrite(e.key, known.value, e.sleep, e.from, e.at)];
      SoundOneByOne(e.key, SessionOf(known), ws);
      StoreStepKeeps(c, w.store, w.clock, e.key, ws, e.ok, e.at);
      var r := Admit(Times(w.gaps, e.key.1), e.at, HOUR_MS, MAX_GAPS_PER_HOUR);
      if r.Some? {
        SameAllowances(c, w.(clock := e.at, gaps := w.gaps[e.key.1 := r.value],
                             reported := w.reported[e.key.1 :=
                                 Uses(UsesOf(c, w.reported, e.key.1).all + [e.at], e.at)]),
                       Apply(c, w, e));
      }
    }
  }

  lemma {:induction false} StepKeeps(c: Config, w: Watch, e: Event)
    requires Inv(c, w) && Enabled(w, e)
    ensures Inv(c, Apply(c, w, e))
  {
    match e
    case Heartbeat(_, _, _, _, _, _) => HeartbeatKeeps(c, w, e);
    case EndedBy(_, _, _) => EndedKeeps(c, w, e);
    case Gap(_, _, _, _, _) => GapKeeps(c, w, e);
    case Sweep(open, at, ok) => SweepStepKeeps(c, w, e);
  }

  lemma {:induction false} SweepStepKeeps(c: Config, w: Watch, e: Event)
    requires Inv(c, w) && Enabled(w, e) && e.Sweep?
    ensures Inv(c, Apply(c, w, e))
  {
    hide Consistent, TimesOk, AllowancesOk, SweepStore, IsListingOfOpen;
    SweepKeeps(c, w.store, w.clock, e.open, e.at, e.ok);
    AllowancesLater(c, w, e.at);
    SameAllowances(c, w.(clock := e.at), Apply(c, w, e));
  }

  ghost predicate Admissible(c: Config, w: Watch, es: seq<Event>)
    decreases |es|
  {
    es == [] || (Enabled(w, es[0]) && Admissible(c, Apply(c, w, es[0]), es[1..]))
  }

  ghost function RunAll(c: Config, w: Watch, es: seq<Event>): Watch
    requires Admissible(c, w, es)
    decreases |es|
  {
    if es == [] then w else RunAll(c, Apply(c, w, es[0]), es[1..])
  }

  lemma {:induction false} RunKeeps(c: Config, w: Watch, es: seq<Event>)
    requires Inv(c, w) && Admissible(c, w, es)
    ensures Inv(c, RunAll(c, w, es))
    decreases |es|
  {
    hide Inv, Enabled, Apply;
    if es != [] {
      StepKeeps(c, w, es[0]);
      RunKeeps(c, Apply(c, w, es[0]), es[1..]);
    }
  }

  /**
   * Over every interleaving of beats, gaps and sweeps, whichever writes fail: the
   * stored state of every session is the replay of its receipts, which follow one
   * another as they may; no system opens more new sessions in any hour than it may,
   * and no session reports more gaps.
   */
  lemma {:induction false} EverySessionIsItsReplay(c: Config, es: seq<Event>, sys: SystemId, ses: SessionId, end: int)
    requires Admissible(c, Initial(c), es)
    ensures var w := RunAll(c, Initial(c), es);
            && Consistent(w.store)
            && CountInWindow(UsesOf(c, w.admitted, sys).all, end, HOUR_MS) <= c.maxNewSessionsPerHour
            && CountInWindow(UsesOf(c, w.reported, ses).all, end, HOUR_MS) <= MAX_GAPS_PER_HOUR
  {
    hide Consistent, TimesOk, Recalls, Allowed, RunAll, Admissible;
    InitialInv(c);
    RunKeeps(c, Initial(c), es);
    var w := RunAll(c, Initial(c), es);
    assert AllowanceOk(Times(w.openedAt, sys), UsesOf(c, w.admitted, sys), w.clock, c.maxNewSessionsPerHour);
    assert AllowanceOk(Times(w.gaps, ses), UsesOf(c, w.reported, ses), w.clock, MAX_GAPS_PER_HOUR);
    NoWindowHoldsMore(UsesOf(c, w.admitted, sys).all, end, HOUR_MS, c.maxNewSessionsPerHour);
    NoWindowHoldsMore(UsesOf(c, w.reported, ses).all, end, HOUR_MS, MAX_GAPS_PER_HOUR);
  }

  // ----- the receipts themselves -----

  /** When sessions of a system started, as its receipts say. */
  function StartTimes(log: seq<Entry>, sys: SystemId): seq<int> {
    if log == [] then []
    else
      var last := log[|log| - 1];
      StartTimes(log[..|log| - 1], sys) + (if last.key.0 == sys && last.name == Start then [last.tsReceived] else [])
  }

  /** In every window, no more starts are on the chain than sessions were admitted. */
  ghost predicate StartsAdmitted(c: Config, w: Watch) {
    forall sys, end :: CountInWindow(StartTimes(w.store.log, sys), end, HOUR_MS)
                       <= CountInWindow(UsesOf(c, w.admitted, sys).all, end, HOUR_MS)
  }

  predicate NoStart(ws: seq<Write>) { forall i :: 0 <= i < |ws| ==>
      ws[i].entry.None? || ws[i].entry.value.name != Start }

  lemma {:induction false} StartTimesSnoc(log: seq<Entry>, e: Entry, sys: SystemId)
    ensures StartTimes(log + [e], sys) == StartTimes(log, sys)
              + (if e.key.0 == sys && e.name == Start then [e.tsReceived] else [])
  {
    assert (log + [e])[..|log|] == log;
  }

  lemma {:induction false} NoStartNoTimes(st: Store, key: Key, ws: seq<Write>, sys: SystemId)
    requires NoStart(ws)
    ensures StartTimes(SaveAll(st, key, ws).log, sys) == StartTimes(st.log, sys)
    decreases |ws|
  {
    if ws != [] {
      if ws[0].entry.Some? {
        StartTimesSnoc(st.log, ws[0].entry.value, sys);
      }
      NoStartNoTimes(Save(st, key, ws[0]), key, ws[1..], sys);
    }
  }

  lemma {:induction false} CountSnoc(times: seq<int>, at: int, end: int)
    ensures CountInWindow(times + [at], end, HOUR_MS) == CountInWindow(times, end, HOUR_MS)
              + (if end - HOUR_MS < at <= end then 1 else 0)
  {
    assert (times + [at])[..|times|] == times;
  }

  /** Only the first write of a session not known is a start, of its own key, now. */
  lemma {:induction false} StartIsFirst(
      key: Key, known: Option<Row>, sessions: seq<Row>, event: HeartbeatEvent, extras: Extras, at: int)
    ensures var ws := HeartbeatWrites(key, known, sessions, event, extras, at);
            && (known.Some? ==> NoStart(ws))
            && (known.None? && ws != [] ==> NoStart(ws[1..]) && ws[0].entry.Some? && ws[0].entry.value.key == key
                                            && ws[0].entry.value.tsReceived == at)
  {
    hide FindScript, FindBoot, FarApart, RowFor;
  }

  lemma {:induction false} FirstHaveNoStart(ws: seq<Write>, n: nat)
    requires NoStart(ws) && n <= |ws|
    ensures NoStart(ws[..n])
  {
  }

  lemma {:induction false} HeartbeatStarts(c: Config, w: Watch, e: Event, sys: SystemId)
    requires e.Heartbeat?
    ensures var v := Apply(c, w, e);
            var before, after := UsesOf(c, w.admitted, sys).all, UsesOf(c, v.admitted, sys).all;
            var starts := StartTimes(v.store.log, sys);
            && (after == before || after == before + [e.at])
            && (starts == StartTimes(w.store.log, sys)
                || (starts == StartTimes(w.store.log, sys) + [e.at] && after == before + [e.at]))
  {
    hide HeartbeatWrites, Admit, Within, StartTimes;
    var known := Known(w.store, e.key);
    var ws := HeartbeatWrites(e.key, known, e.sessions, e.event, e.extras, e.at);
    StartIsFirst(e.key, known, e.sessions, e.event, e.extras, e.at);
    var n := Min(e.ok, |ws|);
    if known.Some? {
      FirstHaveNoStart(ws, n);
      NoStartNoTimes(w.store, e.key, ws[..n], sys);
    } else if n > 0 {
      FirstHaveNoStart(ws[1..], n - 1);
      assert ws[..n][1..] == ws[1..][..n - 1];
      NoStartNoTimes(Save(w.store, e.key, ws[0]), e.key, ws[1..][..n - 1], sys);
      StartTimesSnoc(w.store.log, ws[0].entry.value, sys);
    }
  }

  lemma {:induction false} LoseAllStartsNone(st: Store, keys: seq<Key>, now: int, sys: SystemId)
    ensures StartTimes(LoseAll(st, keys, now).log, sys) == StartTimes(st.log, sys)
    decreases |keys|
  {
    if keys != [] {
      var before, last := LoseAll(st, keys[..|keys| - 1], now), keys[|keys| - 1];
      LoseAllStartsNone(st, keys[..|keys| - 1], now, sys);
      if last in before.rows {
        StartTimesSnoc(before.log, LostWrite(last, before.rows[last], now).entry.value, sys);
      }
    }
  }

  lemma {:induction false} OthersStartNone(c: Config, w: Watch, e: Event, sys: SystemId)
    requires !e.Heartbeat?
    ensures StartTimes(Apply(c, w, e).store.log, sys) == StartTimes(w.store.log, sys)
    ensures Apply(c, w, e).admitted == w.admitted
  {
    hide StartTimes, Admit, Silent, LoseAll, SaveAll;
    match e
    case EndedBy(key, at, ok) =>
      var ws := EndedWrites(key, Known(w.store, key), at);
      FirstHaveNoStart(ws, Min(ok, |ws|));
      NoStartNoTimes(w.store, key, ws[..Min(ok, |ws|)], sys);
    case Gap(key, sleep, from, at, ok) =>
      var known := Known(w.store, key);
      if known.Some? {
        var ws := [GapWrite(key, known.value, sleep, from, at)];
        FirstHaveNoStart(ws, Min(ok, |ws|));
        NoStartNoTimes(w.store, key, ws[..Min(ok, |ws|)], sys);
      }
    case Sweep(open, at, ok) =>
      var silent := Silent(w.store, open, at, c.lostAfterMs);
      LoseAllStartsNone(w.store, silent[..Min(ok, |silent|)], at, sys);
  }

  lemma {:induction false} StartsStayAdmitted(c: Config, w: Watch, e: Event)
    requires StartsAdmitted(c, w)
    ensures StartsAdmitted(c, Apply(c, w, e))
  {
    hide Apply, StartTimes, CountInWindow;
    var v := Apply(c, w, e);
    forall sys, end
      ensures CountInWindow(StartTimes(v.store.log, sys), end,
                HOUR_MS) <= CountInWindow(UsesOf(c, v.admitted, sys).all, end, HOUR_MS)
    {
      if e.Heartbeat? {
        HeartbeatStarts(c, w, e, sys);
      } else {
        OthersStartNone(c, w, e, sys);
      }
      CountSnoc(UsesOf(c, w.admitted, sys).all, e.at, end);
      CountSnoc(StartTimes(w.store.log, sys), e.at, end);
    }
  }

  lemma {:induction false} StartsAreAdmitted(c: Config, w: Watch, es: seq<Event>)
    requires StartsAdmitted(c, w) && Admissible(c, w, es)
    ensures StartsAdmitted(c, RunAll(c, w, es))
    decreases |es|
  {
    hide StartsAdmitted, Enabled, Apply;
    if es != [] {
      StartsStayAdmitted(c, w, es[0]);
      StartsAreAdmitted(c, Apply(c, w, es[0]), es[1..]);
    }
  }

  /** So no hour of a system's chain holds more starts than it may open sessions. */
  lemma {:induction false} NoHourHoldsMoreStarts(c: Config, es: seq<Event>, sys: SystemId, end: int)
    requires Admissible(c, Initial(c), es)
    ensures CountInWindow(StartTimes(RunAll(c, Initial(c), es).store.log, sys), end, HOUR_MS) <= c.maxNewSessionsPerHour
  {
    hide StartTimes, CountInWindow, RunAll, Admissible, Consistent;
    EverySessionIsItsReplay(c, es, sys, "", end);
    assert StartsAdmitted(c, Initial(c)) by {
      NoneStarted(c);
    }
    StartsAreAdmitted(c, Initial(c), es);
  }

  lemma {:induction false} NoneStarted(c: Config)
    ensures StartsAdmitted(c, Initial(c))
  {
  }

  // ----- a refusal says when to come back -----

  /** Math.max(1, Math.ceil((recent[0] + HOUR_MS - now) / 1000)) */
  function RetryAfterSeconds(recent: seq<int>, now: int): int
    requires recent != []
  {
    Max(1, (recent[0] + HOUR_MS - now + 999) / 1000)
  }

  /** Whoever waits so long is admitted, unless others were meanwhile. */
  lemma {:induction false} RetryAfterSuffices(recent: seq<int>, now: int, most: nat, later: int)
    requires Admit(recent, now, HOUR_MS, most).None? && |recent| <= most && most >= 1
    requires var kept := Within(recent, now, HOUR_MS); kept != [] && later >= now + 1000 * RetryAfterSeconds(kept, now)
    ensures Admit(Within(recent, now, HOUR_MS), later, HOUR_MS, most).Some?
  {
    WithinDropsFirst(Within(recent, now, HOUR_MS), later, HOUR_MS);
  }

  /** And no sooner: a second less, and the oldest is still in the hour. */
  lemma {:induction false} RetryAfterIsLeast(recent: seq<int>, now: int, most: nat)
    requires Admit(recent, now, HOUR_MS, most).None? && Rising(recent)
    requires Within(recent, now, HOUR_MS) != [] && RetryAfterSeconds(Within(recent, now, HOUR_MS), now) > 1
    ensures var kept := Within(recent, now, HOUR_MS);
            Admit(kept, now + 1000 * (RetryAfterSeconds(kept, now) - 1), HOUR_MS, most).None?
  {
    var kept := Within(recent, now, HOUR_MS);
    WithinRises(recent, now, HOUR_MS);
    AllWithin(kept, now + 1000 * (RetryAfterSeconds(kept, now) - 1), HOUR_MS);
  }

  lemma {:induction false} WithinRises(times: seq<int>, now: int, windowMs: int)
    requires Rising(times)
    ensures Rising(Within(times, now, windowMs))
    ensures forall t :: t in Within(times, now, windowMs) ==> t in times
    decreases |times|
  {
    if times != [] {
      var front, last := times[..|times| - 1], times[|times| - 1];
      WithinRises(front, now, windowMs);
      var kept := Within(front, now, windowMs);
      assert forall t :: t in front ==> t <= last;
      assert times == front + [last];
      forall i | 0 <= i < |kept|
        ensures kept[i] <= last
      {
        assert kept[i] in kept;
      }
    }
  }

  lemma {:induction false} AllWithin(times: seq<int>, now: int, windowMs: int)
    requires forall i :: 0 <= i < |times| ==> now - times[i] < windowMs
    ensures Within(times, now, windowMs) == times
    decreases |times|
  {
    if times != [] {
      AllWithin(times[..|times| - 1], now, windowMs);
    }
  }

  // ----- the class -----

  // ----- what is asked for is done -----

  /** A new session is admitted exactly while fewer than the most were in the last hour, of all
      the system's ever admitted. */
  lemma {:induction false} AdmittedIffRoom(c: Config, w: Watch, sys: SystemId, at: int)
    requires AllowancesOk(c, w) && at >= w.clock
    ensures AdmitSession(c, w, sys, at).1 <==>
            |Within(UsesOf(c, w.admitted, sys).all, at, HOUR_MS)| < c.maxNewSessionsPerHour
    ensures AdmitSession(c, w, sys, at).0.store == w.store
  {
    hide Within, Allowed;
    var uses := UsesOf(c, w.admitted, sys);
    assert AllowanceOk(Times(w.openedAt, sys), uses, w.clock, c.maxNewSessionsPerHour);
    WithinLater(uses.all, uses.lastUse, at, HOUR_MS);
  }

  /** Of the writes of one session, the first n: the row is that of the last of them, and their receipts
      are what is new. */
  ghost predicate AreWritten(before: Store, after: Store, key: Key, ws: seq<Write>, n: nat)
    requires n <= |ws|
  {
    after == if n == 0 then before else Store(before.rows[key := ws[n - 1].row], before.log + EntriesOf(ws[..n]))
  }

  lemma {:induction false} FirstAreWritten(st: Store, key: Key, ws: seq<Write>, ok: nat)
    requires ws != [] ==> AllOfSession(ws[0].row, ws) && (key in st.rows ==> SameSession(st.rows[key], ws[0].row))
    ensures AreWritten(st, SaveFirst(st, key, ws, ok), key, ws, Min(ok, |ws|))
  {
    var n := Min(ok, |ws|);
    if n > 0 {
      LastIsStored(st, key, ws[..n]);
    }
  }

  lemma {:induction false} HeartbeatIsOfSession(
      known: Option<Row>, key: Key, sessions: seq<Row>, event: HeartbeatEvent, extras: Extras, at: int)
    ensures var ws := HeartbeatWrites(key, known, sessions, event, extras, at);
            ws != [] ==> AllOfSession(ws[0].row, ws) && (known.Some? ==> SameSession(known.value, ws[0].row))
  {
    hide FindScript, FindBoot, FarApart;
  }

  /**
   * Every event is recorded, as far as the store takes the writes: a start, beat or stop of a session
   * that is known or admitted, the end of an open one, and a gap of one not closed, while its hour has room.
   */
  lemma {:induction false} EventIsRecorded(c: Config, w: Watch, e: Event)
    requires Inv(c, w) && Enabled(w, e) && !e.Sweep?
    ensures var known, after := Known(w.store, e.key), Apply(c, w, e).store;
            match e
            case Heartbeat(key, event, extras, sessions, at, ok) =>
              var ws := HeartbeatWrites(key, known, sessions, event, extras, at);
              var room := |Within(UsesOf(c, w.admitted, key.0).all, at, HOUR_MS)| < c.maxNewSessionsPerHour;
              AreWritten(w.store, after, key, ws, if known.None? && !room then 0 else Min(ok, |ws|))
            case EndedBy(key, at, ok) =>
              var ws := EndedWrites(key, known, at);
              AreWritten(w.store, after, key, ws, Min(ok, |ws|))
            case Gap(key, sleep, from, at, ok) =>
              var room := |Within(UsesOf(c, w.reported, key.1).all, at, HOUR_MS)| < MAX_GAPS_PER_HOUR;
              if known.None? || known.value.state == Closed || !room then after == w.store
              else AreWritten(w.store, after, key, [GapWrite(key, known.value, sleep, from, at)], Min(ok, 1))
            case Sweep(_, _, _) => true
  {
    hide Consistent, TimesOk, Within, Allowed, HeartbeatWrites, SaveFirst, AllOfSession, EntriesOf;
    var known := Known(w.store, e.key);
    match e
    case Heartbeat(key, event, extras, sessions, at, ok) =>
      AllowancesLater(c, w, at);
      AdmittedIffRoom(c, w.(clock := at), key.0, at);
      HeartbeatIsOfSession(known, key, sessions, event, extras, at);
      FirstAreWritten(w.store, key, HeartbeatWrites(key, known, sessions, event, extras, at), ok);
    case EndedBy(key, at, ok) => OneIsWritten(w.store, key, EndedWrites(key, known, at), ok);
    case Gap(key, sleep, from, at, ok) =>
      var uses := UsesOf(c, w.reported, key.1);
      assert AllowanceOk(Times(w.gaps, key.1), uses, w.clock, MAX_GAPS_PER_HOUR);
      WithinLater(uses.all, uses.lastUse, at, HOUR_MS);
      if known.Some? {
        OneIsWritten(w.store, key, [GapWrite(key, known.value, sleep, from, at)], ok);
      }
    case Sweep(_, _, _) =>
  }

  lemma {:induction false} OneIsWritten(st: Store, key: Key, ws: seq<Write>, ok: nat)
    requires |ws| <= 1 && (ws != [] ==> key in st.rows && SameSession(st.rows[key], ws[0].row))
    ensures AreWritten(st, SaveFirst(st, key, ws, ok), key, ws, Min(ok, |ws|))
  {
    FirstAreWritten(st, key, ws, ok);
  }


  class Watcher {
    const config: Config
    var store: Store
    var sessionsOpened: map<SystemId, seq<int>>
    var gapsReported: map<SessionId, seq<int>>
    ghost var admitted: map<SystemId, Uses>
    ghost var reported: map<SessionId, Uses>
    ghost var clock: int

    ghost function State(): Watch
      reads this
    {
      Watch(store, sessionsOpened, gapsReported, admitted, reported, clock)
    }

    constructor (config: Config)
      ensures State() == Initial(config) && this.config == config
    {
      this.config := config;
      store, sessionsOpened, gapsReported, admitted, reported, clock :=
          Store(map[], []), map[], map[], map[], map[], config.since;
    }

    /** As many of the writes, in order, as the store takes. */
    method Record(key: Key, ws: seq<Write>, ok: nat)
      modifies this`store
      ensures store == SaveFirst(old(store), key, ws, ok)
    {
      var n := Min(ok, |ws|);
      ghost var was := store;
      for i := 0 to n
        invariant SaveAll(store, key, ws[..n][i..]) == SaveAll(was, key, ws[..n])
      {
        assert ws[..n][i..][0] == ws[i] && ws[..n][i..][1..] == ws[..n][i + 1..];
        store := Save(store, key, ws[i]);
      }
    }

    method AdmitNewSession(sys: SystemId, now: int) returns (admits: bool, retryAfterSeconds: int)
      modifies this
      ensures (State(), admits) == AdmitSession(config, old(State()), sys, now)
      ensures var kept := Within(Times(old(sessionsOpened), sys), now, HOUR_MS);
              !admits && kept != [] ==> retryAfterSeconds == RetryAfterSeconds(kept, now)
    {
      retryAfterSeconds := 0;
      var recent := Within(Times(sessionsOpened, sys), now, HOUR_MS);
      ghost var uses := UsesOf(config, admitted, sys);
      if |recent| >= config.maxNewSessionsPerHour {
        sessionsOpened := sessionsOpened[sys := recent];
        admitted := admitted[sys := Uses(uses.all, now)];
        return false, if recent == [] then 1 else RetryAfterSeconds(recent, now);
      }
      sessionsOpened := sessionsOpened[sys := recent + [now]];
      admitted := admitted[sys := Uses(uses.all + [now], now)];
      return true, 0;
    }

    method Beat(key: Key, event: HeartbeatEvent, extras: Extras, sessions: seq<Row>, at: int, ok: nat)
        returns (refused: bool)
      modifies this
      ensures State() == Apply(config, old(State()), Heartbeat(key, event, extras, sessions, at, ok))
      ensures refused <==> Known(old(store), key).None? && !AdmitSession(config, old(State()), key.0, at).1
      ensures refused ==> store == old(store)
    {
      hide HeartbeatWrites, SaveFirst, Admit, Within;
      clock := at;
      var known := Known(store, key);
      if known.None? {
        var admits, retry := AdmitNewSession(key.0, at);
        if !admits {
          return true;
        }
      }
      Record(key, HeartbeatWrites(key, known, sessions, event, extras, at), ok);
      return false;
    }

    method End(key: Key, at: int, ok: nat)
      modifies this
      ensures State() == Apply(config, old(State()), EndedBy(key, at, ok))
    {
      clock := at;
      Record(key, EndedWrites(key, Known(store, key), at), ok);
    }

    method ReportGap(key: Key, sleep: bool, from: int, at: int, ok: nat)
      modifies this
      ensures State() == Apply(config, old(State()), Gap(key, sleep, from, at, ok))
    {
      hide SaveFirst;
      clock := at;
      var known := Known(store, key);
      if known.None? || known.value.state == Closed {
        return;
      }
      var recent := Within(Times(gapsReported, key.1), at, HOUR_MS);
      if |recent| >= MAX_GAPS_PER_HOUR {
        return;
      }
      gapsReported := gapsReported[key.1 := recent + [at]];
      reported := reported[key.1 := Uses(UsesOf(config, reported, key.1).all + [at], at)];
      Record(key, [GapWrite(key, known.value, sleep, from, at)], ok);
    }

    method SweepSilent(open: seq<Key>, now: int, ok: nat) returns (lost: nat)
      modifies this
      ensures State() == Apply(config, old(State()), Sweep(open, now, ok))
      ensures |store.log| == |old(store.log)| + lost
    {
      lost := 0;
      clock := now;
      if now - config.since <= config.lostAfterMs {
        return;
      }
      var silent := Silent(store, open, now, config.lostAfterMs);
      var n := Min(ok, |silent|);
      ghost var was := store;
      for i := 0 to n
        invariant clock == now && sessionsOpened == old(sessionsOpened) && gapsReported == old(gapsReported)
        invariant admitted == old(admitted) && reported == old(reported)
        invariant store == LoseAll(was, silent[..n][..i], now) && |store.log| == |was.log| + lost
      {
        assert silent[..n][..i + 1][..i] == silent[..n][..i];
        if silent[i] in store.rows {
          store := Save(store, silent[i], LostWrite(silent[i], store.rows[silent[i]], now));
          lost := lost + 1;
        }
      }
      assert silent[..n][..n] == silent[..n];
    }
  }
}
