/** apps/server/src/connection/watch.ts, connectionStatus: how a system's connection
    stands now. */
module ConnectionStatus {
  import opened Prelude
  import opened ConnectionWatch

  datatype Status = Status(state: ConnectionState, since: int)

  /** A later session of the system, not lost itself, started after the loss. */
  predicate IsMadeUp(sessions: seq<Row>, lost: Row) {
    exists i :: 0 <= i < |sessions| && sessions[i].state != Lost && sessions[i].startedAt > lost.lastBeatAt
  }

  predicate IsOutstanding(sessions: seq<Row>, row: Row) { row.state == Lost && !IsMadeUp(sessions, row) }

  /** The first of the sorted times of the losses no session made up for. */
  function EarliestOutstanding(sessions: seq<Row>, all: seq<Row>): Option<int> {
    if sessions == [] then None
    else
      var before, last := EarliestOutstanding(sessions[..|sessions| - 1], all), sessions[|sessions| - 1];
      if !IsOutstanding(all, last) then before
      else Some(if before.Some? then Min(before.value, last.lastBeatAt) else last.lastBeatAt)
  }

  /** Of the system's sessions, the most recent beat first. */
  function ConnectionStatus(sessions: seq<Row>): Option<Status> {
    if sessions == [] then None
    else
      var outstanding, latest := EarliestOutstanding(sessions, sessions), sessions[0];
      if outstanding.Some? then Some(Status(Lost, outstanding.value))
      else Some(Status(latest.state, if latest.state == Open then latest.startedAt else latest.lastBeatAt))
  }

  lemma {:induction false} EarliestIsLeast(sessions: seq<Row>, all: seq<Row>)
    ensures EarliestOutstanding(sessions, all).Some? <==>
              exists i :: 0 <= i < |sessions| && IsOutstanding(all, sessions[i])
    ensures EarliestOutstanding(sessions, all).Some? ==>
              var t := EarliestOutstanding(sessions, all).value;
              && (exists i :: 0 <= i < |sessions| && IsOutstanding(all, sessions[i]) && sessions[i].lastBeatAt == t)
              && (forall i :: 0 <= i < |sessions| && IsOutstanding(all, sessions[i]) ==> t <= sessions[i].lastBeatAt)
    decreases |sessions|
  {
    hide IsOutstanding;
    if sessions != [] {
      var front := sessions[..|sessions| - 1];
      EarliestIsLeast(front, all);
      assert forall i :: 0 <= i < |front| ==> sessions[i] == front[i];
      var t := EarliestOutstanding(front, all);
      if i :| 0 <= i < |front| && IsOutstanding(all, front[i]) && front[i].lastBeatAt == t.value {
        assert sessions[i] == front[i];
      }
    }
  }

  /** Lost, and every session that began after its last beat is lost as well. */
  ghost predicate StillLost(sessions: seq<Row>, i: nat) {
    && i < |sessions| && sessions[i].state == Lost
    && forall j :: 0 <= j < |sessions| ==>
         sessions[j].startedAt <= sessions[i].lastBeatAt || sessions[j].state == Lost
  }

  lemma {:induction false} OutstandingIffStillLost(sessions: seq<Row>, i: nat)
    requires i < |sessions|
    ensures IsOutstanding(sessions, sessions[i]) <==> StillLost(sessions, i)
  {
  }

  /**
   * The light says lost exactly while a loss is outstanding that no later session
   * made up for, since the earliest of those. Otherwise it answers for the latest
   * session, which is not a lost one: open since it started, or closed since its last beat.
   */
  lemma {:induction false} LostIffOutstanding(sessions: seq<Row>)
    requires sessions != []
    requires forall i :: 0 <= i < |sessions| ==>
              sessions[i].startedAt <= sessions[i].lastBeatAt <= sessions[0].lastBeatAt
    ensures ConnectionStatus(sessions).Some?
    ensures var status := ConnectionStatus(sessions).value;
            && (status.state == Lost <==> exists i: nat :: StillLost(sessions, i))
            && (status.state == Lost ==>
                  && (exists i: nat :: StillLost(sessions, i) && sessions[i].lastBeatAt == status.since)
                  && (forall i: nat :: StillLost(sessions, i) ==> status.since <= sessions[i].lastBeatAt))
            && (status.state == Open ==> sessions[0].state == Open && status.since == sessions[0].startedAt)
            && (status.state == Closed ==> sessions[0].state == Closed && status.since == sessions[0].lastBeatAt)
  {
    hide IsOutstanding, StillLost;
    EarliestIsLeast(sessions, sessions);
    forall i: nat | i < |sessions|
      ensures IsOutstanding(sessions, sessions[i]) <==> StillLost(sessions, i)
    {
      OutstandingIffStillLost(sessions, i);
    }
    OnlySessionsAreLost(sessions);
    if sessions[0].state == Lost {
      LatestLostIsOutstanding(sessions);
    }
  }

  lemma {:induction false} OnlySessionsAreLost(sessions: seq<Row>)
    ensures forall i: nat :: StillLost(sessions, i) ==> i < |sessions|
  {
  }

  lemma {:induction false} LatestLostIsOutstanding(sessions: seq<Row>)
    requires sessions != [] && sessions[0].state == Lost
    requires forall i :: 0 <= i < |sessions| ==>
              sessions[i].startedAt <= sessions[i].lastBeatAt <= sessions[0].lastBeatAt
    ensures StillLost(sessions, 0)
  {
  }
}
