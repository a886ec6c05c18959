/**
 * packages/core/src/anchoring.ts, anchorTimes: when each receipt is proven to have
 * existed. One pass down the checkpoints with a running minimum, against its
 * meaning over every pair of a receipt and a checkpoint. Times are milliseconds.
 */
module Anchoring {
  import opened Prelude
  import opened StableSort

  datatype Received = Received(seq_: nat, tsReceived: int)

  /** A time a token attests, or None where it does not parse. */
  datatype AnchoredCheckpoint = AnchoredCheckpoint(line: nat, treeSize: nat, ts: int, genTimes: seq<Option<int>>)

  datatype ProvenCheckpoint = ProvenCheckpoint(line: nat, treeSize: nat, ts: int, at: int)

  datatype Range = Range(fromSeq: nat, toSeq: int, existedBy: int)

  datatype TimeError = TimeError(line: nat, treeSize: nat, at: int)

  datatype OrderError = OrderError(line: nat, treeSize: nat, at: int, beforeSize: nat, beforeAt: int)

  datatype Gap = Gap(ms: int, fromTime: int, toTime: int)

  datatype Unproven = Unproven(count: int, fromSeq: int, toSeq: int)

  datatype AnchorTimes = AnchorTimes(
    ranges: seq<Range>, timeErrors: seq<TimeError>, orderErrors: seq<OrderError>, lateLines: seq<nat>,
    longestGap: Option<Gap>, unproven: Option<Unproven>)

  // ----- the proven checkpoints, by size -----

  /** The earliest time a token on it attests. */
  function Attested(times: seq<Option<int>>): Option<int> {
    if times == [] then None
    else
      var before, last := Attested(times[..|times| - 1]), times[|times| - 1];
      if last.None? then before else if before.None? then last else Some(Min(before.value, last.value))
  }

  lemma {:induction false} AttestedIsEarliest(times: seq<Option<int>>)
    ensures Attested(times).None? <==> forall i :: 0 <= i < |times| ==> times[i].None?
    ensures Attested(times).Some? ==> Attested(times) in times
    ensures Attested(times).Some? ==> forall i :: 0 <= i < |times| && times[i].Some? ==>
              Attested(times).value <= times[i].value
    decreases |times|
  {
    if times != [] {
      var front := times[..|times| - 1];
      AttestedIsEarliest(front);
      assert times == front + [times[|times| - 1]];
      assert forall i :: 0 <= i < |front| ==> times[i] == front[i];
    }
  }

  function BySize(cs: seq<AnchoredCheckpoint>): (r: seq<Sized<AnchoredCheckpoint>>)
    ensures |r| == |cs| && forall i :: 0 <= i < |cs| ==> r[i] == Sized(cs[i].treeSize, cs[i])
  {
    if cs == [] then [] else BySize(cs[..|cs| - 1]) + [Sized(cs[|cs| - 1].treeSize, cs[|cs| - 1])]
  }

  function ProvenOf(sorted: seq<Sized<AnchoredCheckpoint>>): seq<ProvenCheckpoint> {
    if sorted == [] then []
    else
      var c := sorted[|sorted| - 1].item;
      var at := Attested(c.genTimes);
      ProvenOf(sorted[..|sorted| - 1])
      + (if at.Some? then [ProvenCheckpoint(c.line, c.treeSize, c.ts, at.value)] else [])
  }

  function Proven(cs: seq<AnchoredCheckpoint>): seq<ProvenCheckpoint> { ProvenOf(Sort(BySize(cs))) }

  ghost predicate SizesInOrder(p: seq<ProvenCheckpoint>) {
    forall i, j :: 0 <= i < j < |p| ==> p[i].treeSize <= p[j].treeSize
  }

  /** Checkpoint c counts as proven at this time. */
  predicate IsProvenAt(c: AnchoredCheckpoint, q: ProvenCheckpoint) {
    q.line == c.line && q.treeSize == c.treeSize && q.ts == c.ts && Attested(c.genTimes) == Some(q.at)
  }

  /** Each proven time is of a checkpoint, and two of them of two in the same order. */
  lemma {:induction false} ProvenIsOf(sorted: seq<Sized<AnchoredCheckpoint>>, k: nat) returns (i: nat)
    requires k < |ProvenOf(sorted)|
    ensures i < |sorted| && IsProvenAt(sorted[i].item, ProvenOf(sorted)[k])
    decreases |sorted|
  {
    hide Attested;
    var n := |sorted| - 1;
    if k < |ProvenOf(sorted[..n])| {
      i := ProvenIsOf(sorted[..n], k);
    } else {
      i := n;
    }
  }

  lemma {:induction false} ProvenAreOf(sorted: seq<Sized<AnchoredCheckpoint>>, k: nat, l: nat) returns (i: nat, j: nat)
    requires k < l < |ProvenOf(sorted)|
    ensures i < j < |sorted|
    ensures IsProvenAt(sorted[i].item, ProvenOf(sorted)[k]) && IsProvenAt(sorted[j].item, ProvenOf(sorted)[l])
    decreases |sorted|
  {
    hide Attested;
    var n := |sorted| - 1;
    if l < |ProvenOf(sorted[..n])| {
      i, j := ProvenAreOf(sorted[..n], k, l);
    } else {
      i := ProvenIsOf(sorted[..n], k);
      j := n;
    }
  }

  lemma {:induction false} AttestedAreProven(sorted: seq<Sized<AnchoredCheckpoint>>, i: nat) returns (k: nat)
    requires i < |sorted| && Attested(sorted[i].item.genTimes).Some?
    ensures k < |ProvenOf(sorted)| && IsProvenAt(sorted[i].item, ProvenOf(sorted)[k])
    decreases |sorted|
  {
    hide Attested;
    var n := |sorted| - 1;
    if i < n {
      k := AttestedAreProven(sorted[..n], i);
    } else {
      k := |ProvenOf(sorted)| - 1;
    }
  }

  lemma {:induction false} ProvenFollows(sorted: seq<Sized<AnchoredCheckpoint>>)
    requires InOrder(sorted) && forall i :: 0 <= i < |sorted| ==> sorted[i].size == sorted[i].item.treeSize
    ensures SizesInOrder(ProvenOf(sorted))
    ensures forall q :: q in ProvenOf(sorted) ==> exists i :: 0 <= i < |sorted| && IsProvenAt(sorted[i].item, q)
    ensures forall i :: 0 <= i < |sorted| && Attested(sorted[i].item.genTimes).Some? ==>
              exists q :: q in ProvenOf(sorted) && IsProvenAt(sorted[i].item, q)
  {
    hide Attested, ProvenOf;
    var p := ProvenOf(sorted);
    forall k, l | 0 <= k < l < |p|
      ensures p[k].treeSize <= p[l].treeSize
    {
      var i, j := ProvenAreOf(sorted, k, l);
    }
    forall q | q in p
      ensures exists i :: 0 <= i < |sorted| && IsProvenAt(sorted[i].item, q)
    {
      var k :| 0 <= k < |p| && p[k] == q;
      var i := ProvenIsOf(sorted, k);
    }
    forall i | 0 <= i < |sorted| && Attested(sorted[i].item.genTimes).Some?
      ensures exists q :: q in p && IsProvenAt(sorted[i].item, q)
    {
      var k := AttestedAreProven(sorted, i);
      assert p[k] in p;
    }
  }

  /** The list walked holds every checkpoint with a time, and nothing else, by size. */
  lemma {:induction false} ProvenIsAll(cs: seq<AnchoredCheckpoint>)
    ensures SizesInOrder(Proven(cs))
    ensures forall q :: q in Proven(cs) ==> exists c :: c in cs && IsProvenAt(c, q)
    ensures forall c :: c in cs && Attested(c.genTimes).Some? ==> exists q :: q in Proven(cs) && IsProvenAt(c, q)
  {
    hide Attested, ProvenOf, Sort;
    var sorted := Sort(BySize(cs));
    SortIsInOrder(BySize(cs));
    forall i | 0 <= i < |sorted|
      ensures sorted[i].item in cs && sorted[i].size == sorted[i].item.treeSize
    {
      assert sorted[i] in BySize(cs);
      var k :| 0 <= k < |BySize(cs)| && BySize(cs)[k] == sorted[i];
      assert cs[k] == sorted[i].item;
    }
    ProvenFollows(sorted);
    forall c | c in cs && Attested(c.genTimes).Some?
      ensures exists q :: q in Proven(cs) && IsProvenAt(c, q)
    {
      var k :| 0 <= k < |cs| && cs[k] == c;
      assert BySize(cs)[k] in sorted;
      var i :| 0 <= i < |sorted| && sorted[i] == BySize(cs)[k];
    }
  }

  // ----- the walk down -----

  /** The checkpoint of the earliest time among p[i..]; of several, the largest. */
  function EarliestFrom(p: seq<ProvenCheckpoint>, i: nat): (e: ProvenCheckpoint)
    requires i < |p|
    ensures e in p[i..]
    ensures forall k :: i <= k < |p| ==> e.at <= p[k].at
    decreases |p| - i
  {
    if i == |p| - 1 then p[i]
    else
      var e := EarliestFrom(p, i + 1);
      if p[i].at < e.at then p[i] else e
  }

  function Lowest(p: seq<ProvenCheckpoint>, i: nat, firstSeq: nat): nat
    requires i <= |p|
  {
    Max(firstSeq, if i == 0 then 0 else p[i - 1].treeSize)
  }

  function Highest(p: seq<ProvenCheckpoint>, i: nat, lastSeq: int): int
    requires i < |p|
  {
    Min(lastSeq, p[i].treeSize - 1)
  }

  function RangesFrom(p: seq<ProvenCheckpoint>, i: nat, firstSeq: nat, lastSeq: int): seq<Range>
    requires i <= |p|
    decreases |p| - i
  {
    if i == |p| then []
    else
      var a, b := Lowest(p, i, firstSeq), Highest(p, i, lastSeq);
      (if a > b then [] else [Range(a, b, EarliestFrom(p, i).at)]) + RangesFrom(p, i + 1, firstSeq, lastSeq)
  }

  predicate Offends(r: Received, a: nat, b: int, limit: int) { a <= r.seq_ <= b && r.tsReceived > limit }

  function FirstOffending(rs: seq<Received>, a: nat, b: int, limit: int): (i: Option<nat>)
    ensures i.None? ==> forall k :: 0 <= k < |rs| ==> !Offends(rs[k], a, b, limit)
    ensures i.Some? ==> i.value < |rs| && Offends(rs[i.value], a, b, limit)
    ensures i.Some? ==> forall k :: 0 <= k < i.value ==> !Offends(rs[k], a, b, limit)
  {
    if rs == [] then None
    else
      var before := FirstOffending(rs[..|rs| - 1], a, b, limit);
      assert forall k :: 0 <= k < |rs| - 1 ==> rs[..|rs| - 1][k] == rs[k];
      if before.Some? then before
      else if Offends(rs[|rs| - 1], a, b, limit) then Some(|rs| - 1) else None
  }

  function TimeErrorAt(rs: seq<Received>, p: seq<ProvenCheckpoint>, i: nat, firstSeq: nat, lastSeq: int,
      toleranceMs: int): Option<TimeError>
    requires i < |p|
  {
    var a, b, e := Lowest(p, i, firstSeq), Highest(p, i, lastSeq), EarliestFrom(p, i);
    var offending := FirstOffending(rs, a, b, e.at + toleranceMs);
    if a > b || offending.None? then None else Some(TimeError(offending.value + 1, e.treeSize, e.at))
  }

  function TimeErrorsFrom(rs: seq<Received>, p: seq<ProvenCheckpoint>, i: nat, firstSeq: nat, lastSeq: int,
      toleranceMs: int): seq<TimeError>
    requires i <= |p|
    decreases |p| - i
  {
    if i == |p| then []
    else
      var error := TimeErrorAt(rs, p, i, firstSeq, lastSeq, toleranceMs);
      (if error.Some? then [error.value] else []) + TimeErrorsFrom(rs, p, i + 1, firstSeq, lastSeq, toleranceMs)
  }

  method WalkDown(rs: seq<Received>, p: seq<ProvenCheckpoint>, firstSeq: nat, lastSeq: int, toleranceMs: int)
    returns (ranges: seq<Range>, errors: seq<TimeError>)
    ensures ranges == RangesFrom(p, 0, firstSeq, lastSeq)
    ensures errors == TimeErrorsFrom(rs, p, 0, firstSeq, lastSeq, toleranceMs)
  {
    hide FirstOffending, RangesFrom, TimeErrorsFrom, EarliestFrom;
    ranges, errors := [], [];
    var earliest: Option<ProvenCheckpoint> := None;
    var index: nat := |p|;
    WalkStarts(rs, p, firstSeq, lastSeq, toleranceMs);
    while index > 0
      invariant WalkedTo(rs, p, firstSeq, lastSeq, toleranceMs, index, earliest, ranges, errors)
    {
      index := index - 1;
      var entry := p[index];
      WalkStep(rs, p, firstSeq, lastSeq, toleranceMs, index, earliest, ranges, errors);
      if earliest.None? || entry.at < earliest.value.at {
        earliest := Some(entry);
      }
      var a := Max(firstSeq, if index == 0 then 0 else p[index - 1].treeSize);
      var b := Min(lastSeq, entry.treeSize - 1);
      if a <= b {
        ranges := [Range(a, b, earliest.value.at)] + ranges;
        var offending := FirstOffending(rs, a, b, earliest.value.at + toleranceMs);
        if offending.Some? {
          errors := [TimeError(offending.value + 1, earliest.value.treeSize, earliest.value.at)] + errors;
        }
      }
    }
  }

  ghost predicate WalkedTo(rs: seq<Received>, p: seq<ProvenCheckpoint>, firstSeq: nat, lastSeq: int, toleranceMs: int,
      index: nat,
                           earliest: Option<ProvenCheckpoint>, ranges: seq<Range>, errors: seq<TimeError>) {
    && index <= |p|
    && earliest == (if index == |p| then None else Some(EarliestFrom(p, index)))
    && ranges == RangesFrom(p, index, firstSeq, lastSeq)
    && errors == TimeErrorsFrom(rs, p, index, firstSeq, lastSeq, toleranceMs)
  }

  lemma {:induction false} WalkStarts(
      rs: seq<Received>, p: seq<ProvenCheckpoint>, firstSeq: nat, lastSeq: int, toleranceMs: int)
    ensures WalkedTo(rs, p, firstSeq, lastSeq, toleranceMs, |p|, None, [], [])
  {
  }

  /** What one step down adds. */
  lemma {:induction false} WalkStep(
      rs: seq<Received>, p: seq<ProvenCheckpoint>, firstSeq: nat, lastSeq: int, toleranceMs: int, index: nat,
                 earliest: Option<ProvenCheckpoint>, ranges: seq<Range>, errors: seq<TimeError>)
    requires index < |p| && WalkedTo(rs, p, firstSeq, lastSeq, toleranceMs, index + 1, earliest, ranges, errors)
    ensures var e := EarliestFrom(p, index);
            var a, b := Lowest(p, index, firstSeq), Highest(p, index, lastSeq);
            var error := TimeErrorAt(rs, p, index, firstSeq, lastSeq, toleranceMs);
            && e == (if earliest.None? || p[index].at < earliest.value.at then p[index] else earliest.value)
            && RangesFrom(p, index, firstSeq, lastSeq) == (if a > b then [] else [Range(a, b, e.at)]) + ranges
            && TimeErrorsFrom(rs, p, index, firstSeq, lastSeq, toleranceMs)
                == (if error.Some? then [error.value] else []) + errors
  {
  }

  // ----- the walk up -----

  /** The checkpoint of the latest time so far; of several, the largest. */
  function LatestOf(p: seq<ProvenCheckpoint>): (l: ProvenCheckpoint)
    requires p != []
    ensures l in p && forall k :: 0 <= k < |p| ==> p[k].at <= l.at
  {
    var last := p[|p| - 1];
    if |p| == 1 then last
    else
      var before := LatestOf(p[..|p| - 1]);
      assert forall k :: 0 <= k < |p| - 1 ==> p[..|p| - 1][k] == p[k];
      if last.at >= before.at then last else before
  }

  function OrderErrors(p: seq<ProvenCheckpoint>): seq<OrderError> {
    if |p| <= 1 then []
    else
      var before, entry := LatestOf(p[..|p| - 1]), p[|p| - 1];
      OrderErrors(p[..|p| - 1])
      + (if entry.at < before.at then [OrderError(entry.line, entry.treeSize, entry.at, before.treeSize, before.at)]
          else [])
  }

  /** What one step up adds. */
  lemma {:induction false} UpStep(p: seq<ProvenCheckpoint>, i: nat)
    requires i < |p|
    ensures i == 0 ==> LatestOf(p[..1]) == p[0] && OrderErrors(p[..1]) == []
    ensures i > 0 ==>
              var entry, latest := p[i], LatestOf(p[..i]);
              && LatestOf(p[..i + 1]) == (if entry.at >= latest.at then entry else latest)
              && OrderErrors(p[..i + 1]) ==
                 if entry.at < latest.at
                 then OrderErrors(p[..i]) + [OrderError(entry.line, entry.treeSize, entry.at, latest.treeSize,
                     latest.at)]
                 else OrderErrors(p[..i])
  {
    assert p[..i + 1][..i] == p[..i];
  }

  method WalkUp(p: seq<ProvenCheckpoint>) returns (errors: seq<OrderError>)
    ensures errors == OrderErrors(p)
  {
    hide OrderErrors, LatestOf;
    assert OrderErrors([]) == [] by { NoneBefore(); }
    assert p[..0] == [];
    errors := [];
    var latest: Option<ProvenCheckpoint> := None;
    for i := 0 to |p|
      invariant latest == if i == 0 then None else Some(LatestOf(p[..i]))
      invariant errors == OrderErrors(p[..i])
    {
      var entry := p[i];
      UpStep(p, i);
      if latest.Some? && entry.at < latest.value.at {
        errors := errors + [OrderError(entry.line, entry.treeSize, entry.at, latest.value.treeSize, latest.value.at)];
      }
      if latest.None? || entry.at >= latest.value.at {
        latest := Some(entry);
      }
    }
    assert p[..|p|] == p;
  }

  lemma {:induction false} NoneBefore()
    ensures OrderErrors([]) == []
  {
  }

  function LateLines(p: seq<ProvenCheckpoint>, maxDelayMs: int): seq<nat> {
    if p == [] then []
    else
      var e := p[|p| - 1];
      LateLines(p[..|p| - 1], maxDelayMs) + (if e.at - e.ts > maxDelayMs then [e.line] else [])
  }

  function GapAfter(p: seq<ProvenCheckpoint>, i: nat): Gap
    requires i + 1 < |p|
  {
    Gap(p[i + 1].at - p[i].at, p[i].at, p[i + 1].at)
  }

  /** The longest time between two consecutive of the first n; of several, the first. */
  ghost predicate IsLongestGap(p: seq<ProvenCheckpoint>, n: nat, g: Option<Gap>)
    requires n <= |p|
  {
    && (g.None? <==> n < 2)
    && (g.Some? ==> exists i :: IsLongestAt(p, n, g.value, i))
  }

  ghost predicate IsLongestAt(p: seq<ProvenCheckpoint>, n: nat, g: Gap, i: nat)
    requires n <= |p|
  {
    && i < n - 1 && g == GapAfter(p, i)
    && (forall k :: 0 <= k < i ==> GapAfter(p, k).ms < g.ms)
    && (forall k :: i < k < n - 1 ==> GapAfter(p, k).ms <= g.ms)
  }

  /** It is the time between two consecutive attested times, and none is longer. */
  lemma {:induction false} LongestIsBetweenTwo(p: seq<ProvenCheckpoint>, g: Gap) returns (i: nat)
    requires IsLongestGap(p, |p|, Some(g))
    ensures i + 1 < |p| && g.fromTime == p[i].at && g.toTime == p[i + 1].at && g.ms == g.toTime - g.fromTime
    ensures forall k :: 0 <= k < |p| - 1 ==> p[k + 1].at <= p[k].at + g.ms
    ensures forall k :: 0 <= k < i ==> p[k + 1].at < p[k].at + g.ms
  {
    var j :| IsLongestAt(p, |p|, g, j);
    i := j;
    forall k | 0 <= k < |p| - 1
      ensures p[k + 1].at <= p[k].at + g.ms && (k < i ==> p[k + 1].at < p[k].at + g.ms)
    {
      assert GapAfter(p, k).ms <= g.ms && (k < i ==> GapAfter(p, k).ms < g.ms);
    }
  }

  method LongestGap(p: seq<ProvenCheckpoint>) returns (g: Option<Gap>)
    ensures IsLongestGap(p, |p|, g)
  {
    hide IsLongestGap;
    g := None;
    NoGapYet(p);
    var i := 1;
    while i < |p|
      invariant 1 <= i && IsLongestGap(p, Min(i, |p|), g)
      invariant i <= Max(1, |p|)
    {
      GapStep(p, i, g);
      var ms := p[i].at - p[i - 1].at;
      if g.None? || ms > g.value.ms {
        g := Some(Gap(ms, p[i - 1].at, p[i].at));
      }
      i := i + 1;
    }
  }

  lemma {:induction false} NoGapYet(p: seq<ProvenCheckpoint>)
    ensures IsLongestGap(p, Min(1, |p|), None)
  {
  }

  lemma {:induction false} GapStep(p: seq<ProvenCheckpoint>, i: nat, g: Option<Gap>)
    requires 1 <= i < |p| && IsLongestGap(p, i, g)
    ensures IsLongestGap(p, i + 1, if g.None? || GapAfter(p, i - 1).ms > g.value.ms then Some(GapAfter(p, i - 1))
              else g)
  {
    var gap := GapAfter(p, i - 1);
    if g.None? {
      assert IsLongestAt(p, i + 1, gap, 0);
    } else {
      var j :| IsLongestAt(p, i, g.value, j);
      if gap.ms > g.value.ms {
        LongerGap(p, i, g.value, j);
      } else {
        assert IsLongestAt(p, i + 1, g.value, j);
      }
    }
  }

  lemma {:induction false} LongerGap(p: seq<ProvenCheckpoint>, i: nat, g: Gap, j: nat)
    requires 1 <= i < |p| && IsLongestAt(p, i, g, j) && GapAfter(p, i - 1).ms > g.ms
    ensures IsLongestAt(p, i + 1, GapAfter(p, i - 1), i - 1)
  {
    forall k | 0 <= k < i - 1
      ensures GapAfter(p, k).ms < GapAfter(p, i - 1).ms
    {
      assert GapAfter(p, k).ms <= g.ms;
    }
  }

  function FirstSeq(rs: seq<Received>): nat { if rs == [] then 0 else rs[0].seq_ }

  function LastSeq(rs: seq<Received>): int { if rs == [] then -1 else rs[|rs| - 1].seq_ }

  function UnprovenAfter(ranges: seq<Range>, firstSeq: nat, lastSeq: int): Option<Unproven> {
    var covered := if ranges == [] then firstSeq - 1 else ranges[|ranges| - 1].toSeq;
    if covered >= lastSeq then None else Some(Unproven(lastSeq - covered, covered + 1, lastSeq))
  }

  method ComputeAnchorTimes(rs: seq<Received>, cs: seq<AnchoredCheckpoint>, toleranceMs: int, maxDelayMs: int)
    returns (r: AnchorTimes)
    ensures var p, a, b := Proven(cs), FirstSeq(rs), LastSeq(rs);
            && r.ranges == RangesFrom(p, 0, a, b)
            && r.timeErrors == TimeErrorsFrom(rs, p, 0, a, b, toleranceMs)
            && r.orderErrors == OrderErrors(p)
            && r.lateLines == LateLines(p, maxDelayMs)
            && IsLongestGap(p, |p|, r.longestGap)
            && r.unproven == UnprovenAfter(r.ranges, a, b)
  {
    hide Proven, RangesFrom, TimeErrorsFrom, OrderErrors, IsLongestGap;
    var p, firstSeq, lastSeq := Proven(cs), FirstSeq(rs), LastSeq(rs);
    var late: seq<nat> := [];
    for i := 0 to |p|
      invariant late == LateLines(p[..i], maxDelayMs)
    {
      assert p[..i + 1][..i] == p[..i];
      if p[i].at - p[i].ts > maxDelayMs {
        late := late + [p[i].line];
      }
    }
    assert p[..|p|] == p;
    var orderErrors := WalkUp(p);
    var ranges, timeErrors := WalkDown(rs, p, firstSeq, lastSeq, toleranceMs);
    var gap := LongestGap(p);
    return AnchorTimes(ranges, timeErrors, orderErrors, late, gap, UnprovenAfter(ranges, firstSeq, lastSeq));
  }
}
