/**
 * apps/server/src/connection/watch.ts: the sessions of an agent's heartbeat, and
 * the receipts written at every change of state. One change at a time (serially);
 * a write of the store may fail, and what was to be written after it is not.
 * Times are milliseconds.
 */
module ConnectionWatch {
  import opened Prelude

  type SystemId = string
  type SessionId = string
  type Key = (SystemId, SessionId)

  datatype ConnectionState = Open | Lost | Closed

  datatype Row = Row(
    state: ConnectionState, startedAt: int, lastBeatAt: int, scriptHash: Option<string>, scriptChanged: bool,
        bootAt: Option<int>)

  /** What a receipt says; of script_changed, whether a running session changed or a
      new one differs from the last. */
  datatype Name = Start | Stop | GoneLost | Ended | Restored | ScriptChanged(inSession: bool) | Sleep | Offline
      | PowerOff

  /** A receipt, with the session it was written for. */
  datatype Entry = Entry(key: Key, name: Name, tsEvent: int, tsReceived: int)

  datatype Store = Store(rows: map<Key, Row>, log: seq<Entry>)

  /** recordConnection: the row saved, and the receipt if there is one, or neither. */
  datatype Write = Write(row: Row, entry: Option<Entry>)

  /** An insert, or the state, the beat and the flag of the row that is there. */
  function Save(st: Store, key: Key, w: Write): Store {
    var row := if key in st.rows
               then st.rows[key].(state := w.row.state, lastBeatAt := w.row.lastBeatAt,
                                  scriptChanged := w.row.scriptChanged)
               else w.row;
    Store(st.rows[key := row], if w.entry.Some? then st.log + [w.entry.value] else st.log)
  }

  function SaveAll(st: Store, key: Key, ws: seq<Write>): Store
    decreases |ws|
  {
    if ws == [] then st else SaveAll(Save(st, key, ws[0]), key, ws[1..])
  }

  function Known(st: Store, key: Key): Option<Row> { if key in st.rows then Some(st.rows[key]) else None }

  // ----- what a heartbeat writes -----

  datatype HeartbeatEvent = StartEvent | BeatEvent | StopEvent

  /** What a start or a beat may carry: the script's hash, if the guard is on, and
      when the computer was switched on. */
  datatype Extras = Extras(script: Option<Option<string>>, boot: Option<int>)

  const SAME_BOOT_MS: int := 120000

  predicate FarApart(a: int, b: int) { a - b > SAME_BOOT_MS || b - a > SAME_BOOT_MS }

  function FindScript(sessions: seq<Row>): (r: Option<Row>)
    ensures r.Some? ==> r.value in sessions && r.value.scriptHash.Some?
  {
    if sessions == [] then None else if sessions[0].scriptHash.Some? then Some(sessions[0])
        else FindScript(sessions[1..])
  }

  function FindBoot(sessions: seq<Row>): (r: Option<Row>)
    ensures r.Some? ==> r.value in sessions && r.value.bootAt.Some?
  {
    if sessions == [] then None else if sessions[0].bootAt.Some? then Some(sessions[0]) else FindBoot(sessions[1..])
  }

  /** The first, most recently heard of, that has a script's hash; none when i is past the end. */
  ghost predicate FirstScriptIs(sessions: seq<Row>, i: nat) {
    && i <= |sessions| && (i < |sessions| ==> sessions[i].scriptHash.Some?)
    && forall j :: 0 <= j < i ==> sessions[j].scriptHash.None?
  }

  ghost predicate FirstBootIs(sessions: seq<Row>, i: nat) {
    && i <= |sessions| && (i < |sessions| ==> sessions[i].bootAt.Some?)
    && forall j :: 0 <= j < i ==> sessions[j].bootAt.None?
  }

  lemma {:induction false} FindsFirstScript(sessions: seq<Row>, i: nat)
    requires FirstScriptIs(sessions, i)
    ensures FindScript(sessions) == if i < |sessions| then Some(sessions[i]) else None
    decreases |sessions|
  {
    if i > 0 {
      assert forall j :: 0 <= j < |sessions| - 1 ==> sessions[1..][j] == sessions[j + 1];
      FindsFirstScript(sessions[1..], i - 1);
    }
  }

  lemma {:induction false} FindsFirstBoot(sessions: seq<Row>, i: nat)
    requires FirstBootIs(sessions, i)
    ensures FindBoot(sessions) == if i < |sessions| then Some(sessions[i]) else None
    decreases |sessions|
  {
    if i > 0 {
      assert forall j :: 0 <= j < |sessions| - 1 ==> sessions[1..][j] == sessions[j + 1];
      FindsFirstBoot(sessions[1..], i - 1);
    }
  }

  lemma {:induction false} FirstsAre(sessions: seq<Row>) returns (script: nat, boot: nat)
    ensures FirstScriptIs(sessions, script) && FirstBootIs(sessions, boot)
  {
    script, boot := 0, 0;
    while script < |sessions| && sessions[script].scriptHash.None?
      invariant script <= |sessions| && forall j :: 0 <= j < script ==> sessions[j].scriptHash.None?
    {
      script := script + 1;
    }
    while boot < |sessions| && sessions[boot].bootAt.None?
      invariant boot <= |sessions| && forall j :: 0 <= j < boot ==> sessions[j].bootAt.None?
    {
      boot := boot + 1;
    }
  }

  function RowFor(known: Option<Row>, at: int, state: ConnectionState, changed: bool, script: Option<Option<string>>,
      boot: Option<int>): Row {
    match known
    case None => Row(state, at, at, if script.Some? then script.value else None, changed, boot)
    case Some(row) => Row(state, row.startedAt, at, row.scriptHash, changed, row.bootAt)
  }

  /** The writes of a start, a beat or a stop, in their order; `sessions` are the
      system's, the most recent beat first. */
  function HeartbeatWrites(key: Key, known: Option<Row>, sessions: seq<Row>, event: HeartbeatEvent, extras: Extras,
      at: int): seq<Write> {
    var changed := known.Some? && known.value.scriptChanged;
    var guard := if event == StopEvent then None else extras.script;
    if event == StopEvent then
      if known.Some? && known.value.state == Closed then []
      else [Write(RowFor(known, at, Closed, changed, guard, extras.boot), Some(Entry(key, Stop, at, at)))]
    else
      var open := RowFor(known, at, Open, changed, guard, extras.boot);
      if known.None? then
        var before := if guard.None? then None else FindScript(sessions);
        var previous := if extras.boot.None? then None else FindBoot(sessions);
        [Write(open, Some(Entry(key, Start, at, at)))]
        + (if previous.Some? && previous.value.state != Closed
            && FarApart(extras.boot.value, previous.value.bootAt.value)
           then [Write(open, Some(Entry(key, PowerOff, previous.value.lastBeatAt, at)))] else [])
        + (if before.Some? && before.value.scriptHash != guard.value
           then [Write(open, Some(Entry(key, ScriptChanged(false), at, at)))] else [])
      else
        var row := known.value;
        var restored := if row.state != Open then [Write(open, Some(Entry(key, Restored, at, at)))] else [];
        if guard.Some? && row.scriptHash.Some? && !row.scriptChanged && guard.value != row.scriptHash
        then restored + [Write(open.(scriptChanged := true), Some(Entry(key, ScriptChanged(true), at, at)))]
        else if restored != [] then restored else [Write(open, None)]
  }

  function EndedWrites(key: Key, known: Option<Row>, at: int): seq<Write> {
    if known.Some? && known.value.state == Open
    then [Write(known.value.(state := Lost), Some(Entry(key, Ended, at, at)))] else []
  }

  /** The receipt of a gap begins no earlier than the session and no later than now. */
  function GapWrite(key: Key, row: Row, sleep: bool, from: int, at: int): Write {
    Write(row, Some(Entry(key, if sleep then Sleep else Offline, Min(at, Max(from, row.startedAt)), at)))
  }

  // ----- what the receipts of a session replay to -----

  /** As the receipts tell it: its state, and whether its script changed. */
  datatype Session = Session(state: ConnectionState, changed: bool)

  /** Which receipts may follow. */
  predicate MayFollow(s: Option<Session>, name: Name) {
    match name
    case Start => s.None?
    case Stop => s.None? || s.value.state != Closed
    case GoneLost => s.Some? && s.value.state == Open
    case Ended => s.Some? && s.value.state == Open
    case Restored => s.Some? && s.value.state != Open
    case ScriptChanged(inSession) => s.Some? && s.value.state == Open && (inSession ==> !s.value.changed)
    case Sleep => s.Some? && s.value.state != Closed
    case Offline => s.Some? && s.value.state != Closed
    case PowerOff => s.Some? && s.value.state == Open
  }

  function After(s: Option<Session>, name: Name): Option<Session>
    requires MayFollow(s, name)
  {
    match name
    case Start => Some(Session(Open, false))
    case Stop => Some(Session(Closed, s.Some? && s.value.changed))
    case GoneLost => Some(s.value.(state := Lost))
    case Ended => Some(s.value.(state := Lost))
    case Restored => Some(s.value.(state := Open))
    case ScriptChanged(inSession) => if inSession then Some(s.value.(changed := true)) else s
    case Sleep => s
    case Offline => s
    case PowerOff => s
  }

  /** The session's receipts, in order, as far as they may follow one another. */
  function Replay(log: seq<Entry>, key: Key): Option<Session> {
    if log == [] then None
    else
      var s, last := Replay(log[..|log| - 1], key), log[|log| - 1];
      if last.key == key && MayFollow(s, last.name) then After(s, last.name) else s
  }

  ghost predicate Legal(log: seq<Entry>) {
    forall i :: 0 <= i < |log| ==> MayFollow(Replay(log[..i], log[i].key), log[i].name)
  }

  function SessionOf(row: Option<Row>): Option<Session> {
    if row.None? then None else Some(Session(row.value.state, row.value.scriptChanged))
  }

  /** The stored state of every session is the replay of its receipts. */
  ghost predicate Consistent(st: Store) {
    Legal(st.log) && forall key :: SessionOf(Known(st, key)) == Replay(st.log, key)
  }

  lemma {:induction false} ReplaySnoc(log: seq<Entry>, e: Entry, key: Key)
    ensures Replay(log + [e], key) ==
            if e.key == key && MayFollow(Replay(log, key), e.name) then After(Replay(log, key), e.name)
                else Replay(log, key)
  {
    assert (log + [e])[..|log|] == log;
  }

  lemma {:induction false} LegalSnoc(log: seq<Entry>, e: Entry)
    requires Legal(log) && MayFollow(Replay(log, e.key), e.name)
    ensures Legal(log + [e])
  {
    hide MayFollow, Replay;
    var more := log + [e];
    forall i | 0 <= i < |more|
      ensures MayFollow(Replay(more[..i], more[i].key), more[i].name)
    {
      if i < |log| {
        assert more[..i] == log[..i];
        assert MayFollow(Replay(log[..i], log[i].key), log[i].name);
      } else {
        assert more[..i] == log;
      }
    }
  }

  // ----- sound writes -----

  /** A write that leaves the row as its receipt says, or as it was. */
  predicate IsSound(key: Key, s: Option<Session>, w: Write) {
    if w.entry.None? then s == Some(Session(w.row.state, w.row.scriptChanged))
    else
      && w.entry.value.key == key && MayFollow(s, w.entry.value.name)
      && After(s, w.entry.value.name) == Some(Session(w.row.state, w.row.scriptChanged))
  }

  predicate AreSound(key: Key, s: Option<Session>, ws: seq<Write>)
    decreases |ws|
  {
    ws == [] || (IsSound(key, s, ws[0])
        && AreSound(key, Some(Session(ws[0].row.state, ws[0].row.scriptChanged)), ws[1..]))
  }

  lemma {:induction false} FirstAreSound(key: Key, s: Option<Session>, ws: seq<Write>, n: nat)
    requires AreSound(key, s, ws) && n <= |ws|
    ensures AreSound(key, s, ws[..n])
    decreases |ws|
  {
    hide IsSound;
    if n > 0 {
      FirstAreSound(key, Some(Session(ws[0].row.state, ws[0].row.scriptChanged)), ws[1..], n - 1);
      assert ws[..n][1..] == ws[1..][..n - 1];
    }
  }

  lemma {:induction false} SaveIsConsistent(st: Store, key: Key, w: Write)
    requires Consistent(st) && IsSound(key, SessionOf(Known(st, key)), w)
    ensures Consistent(Save(st, key, w))
    ensures SessionOf(Known(Save(st, key, w), key)) == Some(Session(w.row.state, w.row.scriptChanged))
  {
    hide MayFollow, After, Replay, Legal;
    var t := Save(st, key, w);
    forall k
      ensures SessionOf(Known(t, k)) == Replay(t.log, k)
    {
      assert SessionOf(Known(st, k)) == Replay(st.log, k);
      if w.entry.Some? {
        ReplaySnoc(st.log, w.entry.value, k);
      }
    }
    if w.entry.Some? {
      LegalSnoc(st.log, w.entry.value);
    }
  }

  lemma {:induction false} SaveAllIsConsistent(st: Store, key: Key, ws: seq<Write>)
    requires Consistent(st) && AreSound(key, SessionOf(Known(st, key)), ws)
    ensures Consistent(SaveAll(st, key, ws))
    decreases |ws|
  {
    hide Consistent, IsSound, Save;
    if ws != [] {
      SaveIsConsistent(st, key, ws[0]);
      SaveAllIsConsistent(Save(st, key, ws[0]), key, ws[1..]);
    }
  }

  /** The same session: only its state, its last beat and its flag may differ. */
  predicate SameSession(a: Row, b: Row) {
    a.startedAt == b.startedAt && a.scriptHash == b.scriptHash && a.bootAt == b.bootAt
  }

  function EntriesOf(ws: seq<Write>): seq<Entry> {
    if ws == [] then []
    else (if ws[0].entry.Some? then [ws[0].entry.value] else []) + EntriesOf(ws[1..])
  }

  predicate AllOfSession(row: Row, ws: seq<Write>) { forall i :: 0 <= i < |ws| ==> SameSession(row, ws[i].row) }

  lemma {:induction false} WrittenIsStored(st: Store, key: Key, w: Write)
    requires key in st.rows ==> SameSession(st.rows[key], w.row)
    ensures Save(st, key, w) == Store(st.rows[key := w.row], st.log + EntriesOf([w]))
  {
    assert [w][1..] == [];
    if key in st.rows {
      assert st.rows[key].(state := w.row.state, lastBeatAt := w.row.lastBeatAt, scriptChanged := w.row.scriptChanged)
             == w.row;
    }
  }

  /** Of writes that all are of the one session, the last row is what is stored, and
      every receipt is, in order; nothing else changes. */
  lemma {:induction false} LastIsStored(st: Store, key: Key, ws: seq<Write>)
    requires ws != [] && AllOfSession(ws[0].row, ws)
    requires key in st.rows ==> SameSession(st.rows[key], ws[0].row)
    ensures SaveAll(st, key, ws) == Store(st.rows[key := ws[|ws| - 1].row], st.log + EntriesOf(ws))
    decreases |ws|
  {
    hide Save;
    var t := Save(st, key, ws[0]);
    WrittenIsStored(st, key, ws[0]);
    assert EntriesOf(ws) == EntriesOf([ws[0]]) + EntriesOf(ws[1..]) by { assert [ws[0]][1..] == []; }
    if |ws| == 1 {
      assert ws[1..] == [];
    } else {
      assert t.rows[key] == ws[0].row && SameSession(ws[0].row, ws[1].row);
      assert forall i :: 0 <= i < |ws| - 1 ==> ws[1..][i] == ws[i + 1];
      LastIsStored(t, key, ws[1..]);
      assert t.rows[key := ws[|ws| - 1].row] == st.rows[key := ws[|ws| - 1].row];
      assert st.log + EntriesOf([ws[0]]) + EntriesOf(ws[1..]) == st.log + EntriesOf(ws);
    }
  }

  /** What a start, a beat or a stop stores is the row of its last write. */
  lemma {:induction false} HeartbeatIsStored(
      st: Store, key: Key, sessions: seq<Row>, event: HeartbeatEvent, extras: Extras, at: int)
    ensures var ws := HeartbeatWrites(key, Known(st, key), sessions, event, extras, at);
            SaveAll(st, key, ws) ==
              if ws == [] then st else Store(st.rows[key := ws[|ws| - 1].row], st.log + EntriesOf(ws))
  {
    hide FindScript, FindBoot, FarApart;
    var ws := HeartbeatWrites(key, Known(st, key), sessions, event, extras, at);
    if ws != [] {
      assert AllOfSession(ws[0].row, ws);
      LastIsStored(st, key, ws);
    }
  }

  lemma {:induction false} HeartbeatIsSound(
      key: Key, known: Option<Row>, sessions: seq<Row>, event: HeartbeatEvent, extras: Extras, at: int)
    ensures AreSound(key, SessionOf(known), HeartbeatWrites(key, known, sessions, event, extras, at))
  {
    hide FindScript, FindBoot, FarApart;
    var ws := HeartbeatWrites(key, known, sessions, event, extras, at);
    assert |ws| <= 3;
    assert |ws| >= 1 ==> AreSound(key, SessionOf(known), ws[..1]) && IsSound(key, SessionOf(known), ws[0]);
    assert |ws| >= 2 ==> IsSound(key, Some(Session(ws[0].row.state, ws[0].row.scriptChanged)), ws[1]);
    assert |ws| >= 3 ==> IsSound(key, Some(Session(ws[1].row.state, ws[1].row.scriptChanged)), ws[2]);
    SoundOneByOne(key, SessionOf(known), ws);
  }

  /** A receipt written as it is received, of what happens now. */
  function Now(key: Key, name: Name, at: int): Option<Entry> { Some(Entry(key, name, at, at)) }

  /** A beat of a session that is known: a receipt only where something changed, its
      state first; and in any case an open row that remembers this beat. */
  lemma {:induction false} BeatSaysWhatChanged(
      key: Key, row: Row, sessions: seq<Row>, event: HeartbeatEvent, extras: Extras, at: int)
    requires event != StopEvent
    ensures var ws := HeartbeatWrites(key, Some(row), sessions, event, extras, at);
            var changes := extras.script.Some? && row.scriptHash.Some? && extras.script.value != row.scriptHash
                           && !row.scriptChanged;
            var open := row.(state := Open, lastBeatAt := at);
            ws == if row.state == Open && !changes then [Write(open, None)]
                  else (if row.state != Open then [Write(open, Now(key, Restored, at))] else [])
                       + (if changes
                          then [Write(open.(scriptChanged := true), Now(key, ScriptChanged(true), at))] else [])
  {
  }

  /**
   * The first heartbeat of a session starts it, and tells what changed since the
   * sessions last heard of before it: that the computer was switched off, if the last
   * that told its boot was not closed and told another, dated at its last beat; and
   * that the script is not the one the last that sent one ran.
   */
  lemma {:induction false} FirstBeatSaysWhatChanged(
      key: Key, sessions: seq<Row>, event: HeartbeatEvent, extras: Extras, at: int, script: nat, boot: nat)
    requires event != StopEvent && FirstScriptIs(sessions, script) && FirstBootIs(sessions, boot)
    ensures var ws := HeartbeatWrites(key, None, sessions, event, extras, at);
            var wasOff := extras.boot.Some? && boot < |sessions| && sessions[boot].state != Closed
                          && FarApart(extras.boot.value, sessions[boot].bootAt.value);
            var changed := extras.script.Some? && script < |sessions|
                           && sessions[script].scriptHash != extras.script.value;
            var open := Row(Open, at, at, if extras.script.Some? then extras.script.value
                else None, false, extras.boot);
            ws == [Write(open, Now(key, Start, at))]
                  + (if wasOff then [Write(open, Some(Entry(key, PowerOff, sessions[boot].lastBeatAt, at)))] else [])
                  + (if changed then [Write(open, Now(key, ScriptChanged(false), at))] else [])
  {
    hide FindScript, FindBoot, FarApart;
    FindsFirstScript(sessions, script);
    FindsFirstBoot(sessions, boot);
  }

  /** A boot time is another when it is more than the drift of a clock away. */
  lemma {:induction false} SameBootWithinDrift(a: int, b: int)
    ensures FarApart(a, b) <==> !(b - 120000 <= a <= b + 120000)
    ensures FarApart(a, b) == FarApart(b, a)
  {
  }

  /** A stop closes the session, of which nothing is told once it is closed. */
  lemma {:induction false} StopCloses(key: Key, known: Option<Row>, sessions: seq<Row>, extras: Extras, at: int)
    ensures var ws := HeartbeatWrites(key, known, sessions, StopEvent, extras, at);
            var row := if known.Some? then known.value.(state := Closed, lastBeatAt := at)
                       else Row(Closed, at, at, None, false, extras.boot);
            ws == if known.Some? && known.value.state == Closed then [] else [Write(row, Now(key, Stop, at))]
  {
  }

  /** The guard's word that the agent is gone ends an open session, and no other. */
  lemma {:induction false} EndedEndsOpen(key: Key, known: Option<Row>, at: int)
    ensures var ws := EndedWrites(key, known, at);
            ws == if known == None || known.value.state != Open then []
                  else [Write(known.value.(state := Lost), Now(key, Ended, at))]
  {
  }

  /** A gap changes no row. Its receipt tells sleep from offline, and begins where the
      gap is said to, but neither before the session nor after now. */
  lemma {:induction false} GapSaysWhatWasReported(key: Key, row: Row, sleep: bool, from: int, at: int)
    requires row.startedAt <= at
    ensures var w := GapWrite(key, row, sleep, from, at);
            && w.row == row && w.entry.Some? && w.entry.value.key == key && w.entry.value.tsReceived == at
            && (sleep ==> w.entry.value.name == Sleep) && (!sleep ==> w.entry.value.name == Offline)
            && row.startedAt <= w.entry.value.tsEvent <= at
            && (row.startedAt <= from <= at ==> w.entry.value.tsEvent == from)
            && (from < row.startedAt ==> w.entry.value.tsEvent == row.startedAt)
            && (from > at ==> w.entry.value.tsEvent == at)
  {
  }

  lemma {:induction false} SoundOneByOne(key: Key, s: Option<Session>, ws: seq<Write>)
    requires |ws| <= 3
    requires |ws| >= 1 ==> IsSound(key, s, ws[0])
    requires |ws| >= 2 ==> IsSound(key, Some(Session(ws[0].row.state, ws[0].row.scriptChanged)), ws[1])
    requires |ws| >= 3 ==> IsSound(key, Some(Session(ws[1].row.state, ws[1].row.scriptChanged)), ws[2])
    ensures AreSound(key, s, ws)
  {
    hide IsSound;
    if |ws| >= 1 {
      var one := ws[1..];
      if |ws| >= 2 {
        assert one[0] == ws[1];
        var two := one[1..];
        if |ws| >= 3 {
          assert two[0] == ws[2] && two[1..] == [];
        }
        assert AreSound(key, Some(Session(ws[1].row.state, ws[1].row.scriptChanged)), two);
      }
      assert AreSound(key, Some(Session(ws[0].row.state, ws[0].row.scriptChanged)), one);
    }
  }

  // ----- what a legal log never holds -----

  lemma {:induction false} StartedStays(log: seq<Entry>, n: nat, key: Key)
    requires n <= |log| && Replay(log[..n], key).Some?
    ensures Replay(log, key).Some?
    decreases |log|
  {
    if n < |log| {
      assert log[..|log| - 1][..n] == log[..n];
      StartedStays(log[..|log| - 1], n, key);
    } else {
      assert log[..n] == log;
    }
  }

  /** `start` is written at most once a session, and before everything else of it. */
  lemma {:induction false} StartsOnce(log: seq<Entry>, i: nat, j: nat)
    requires Legal(log) && i < j < |log| && log[i].key == log[j].key
    ensures log[j].name != Start
  {
    hide Legal;
    LegalAt(log, i);
    LegalAt(log, j);
    var key := log[i].key;
    assert log[..i + 1] == log[..i] + [log[i]];
    ReplaySnoc(log[..i], log[i], key);
    assert log[..j][..i + 1] == log[..i + 1];
    StartedStays(log[..j], i + 1, key);
  }

  lemma {:induction false} LegalAt(log: seq<Entry>, i: nat)
    requires Legal(log) && i < |log|
    ensures MayFollow(Replay(log[..i], log[i].key), log[i].name)
  {
  }

  predicate ClosesOrLoses(name: Name) { name == Stop || name == GoneLost || name == Ended }

  /** A session open after a receipt stays open until one that closes or loses it. */
  lemma {:induction false} OpenUntilClosed(log: seq<Entry>, i: nat, n: nat, key: Key)
    requires Legal(log) && i <= n <= |log|
    requires Replay(log[..i], key).Some? && Replay(log[..i], key).value.state == Open
    requires forall k :: i <= k < n && log[k].key == key ==> !ClosesOrLoses(log[k].name)
    ensures Replay(log[..n], key).Some? && Replay(log[..n], key).value.state == Open
    decreases n
  {
    hide Legal;
    if i < n {
      OpenUntilClosed(log, i, n - 1, key);
      assert log[..n] == log[..n - 1] + [log[n - 1]];
      ReplaySnoc(log[..n - 1], log[n - 1], key);
    }
  }

  /** Between two `restored` of a session there is a stop, a lost or an ended. */
  lemma {:induction false} RestoredAreSeparated(log: seq<Entry>, i: nat, j: nat)
    requires Legal(log) && i < j < |log| && log[i].key == log[j].key && log[i].name == Restored
              && log[j].name == Restored
    ensures exists k :: i < k < j && log[k].key == log[i].key && ClosesOrLoses(log[k].name)
  {
    hide Legal;
    LegalAt(log, i);
    LegalAt(log, j);
    assert log[..i + 1] == log[..i] + [log[i]];
    ReplaySnoc(log[..i], log[i], log[i].key);
    if !exists k :: i < k < j && log[k].key == log[i].key && ClosesOrLoses(log[k].name) {
      OpenUntilClosed(log, i + 1, j, log[i].key);
      assert false;
    }
  }

  lemma {:induction false} ChangedStays(log: seq<Entry>, i: nat, n: nat, key: Key)
    requires Legal(log) && i <= n <= |log| && Replay(log[..i], key).Some? && Replay(log[..i], key).value.changed
    ensures Replay(log[..n], key).Some? && Replay(log[..n], key).value.changed
    decreases n
  {
    hide Legal;
    if i < n {
      ChangedStays(log, i, n - 1, key);
      assert log[..n] == log[..n - 1] + [log[n - 1]];
      ReplaySnoc(log[..n - 1], log[n - 1], key);
    }
  }

  /** A running session's change of script is written at most once. */
  lemma {:induction false} ScriptChangesOnce(log: seq<Entry>, i: nat, j: nat)
    requires Legal(log) && i < j < |log| && log[i].key == log[j].key && log[i].name == ScriptChanged(true)
    ensures log[j].name != ScriptChanged(true)
  {
    hide Legal;
    LegalAt(log, i);
    LegalAt(log, j);
    assert log[..i + 1] == log[..i] + [log[i]];
    ReplaySnoc(log[..i], log[i], log[i].key);
    ChangedStays(log, i + 1, j, log[i].key);
  }
}
