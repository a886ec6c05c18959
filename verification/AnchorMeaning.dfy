/**
 * What the pass of packages/core/src/anchoring.ts means, over every pair of a
 * receipt and a checkpoint.
 */
module AnchorMeaning {
  import opened Prelude
  import opened Anchoring
  import opened StableSort

  /** The receipts of an export, one after the other. */
  predicate InSequence(rs: seq<Received>) {
    forall i :: 0 <= i < |rs| ==> rs[i].seq_ == rs[0].seq_ + i
  }

  /** Position s existed by time t: the earliest time of a tree that includes it. */
  ghost predicate ExistedBy(p: seq<ProvenCheckpoint>, s: int, t: int) {
    && (exists q :: q in p && q.treeSize > s && q.at == t)
    && (forall q :: q in p && q.treeSize > s ==> t <= q.at)
  }

  ghost predicate IsProven(p: seq<ProvenCheckpoint>, s: int) { exists q :: q in p && q.treeSize > s }

  // ----- the ranges tile what is proven -----

  /** The ranges are a to b, one after the other; none when a > b. */
  predicate Tiles(ranges: seq<Range>, a: int, b: int) {
    if ranges == [] then a > b
    else ranges[0].fromSeq == a && a <= ranges[0].toSeq <= b && Tiles(ranges[1..], ranges[0].toSeq + 1, b)
  }

  /** The last position proven. */
  function Covered(p: seq<ProvenCheckpoint>, firstSeq: nat, lastSeq: int): int {
    if p == [] then firstSeq - 1 else Highest(p, |p| - 1, lastSeq)
  }

  lemma {:induction false} NoRangesPastTheEnd(p: seq<ProvenCheckpoint>, i: nat, firstSeq: nat, lastSeq: int)
    requires SizesInOrder(p) && i <= |p| && Lowest(p, i, firstSeq) > lastSeq
    ensures RangesFrom(p, i, firstSeq, lastSeq) == []
    decreases |p| - i
  {
    if i < |p| {
      assert i > 0 ==> p[i - 1].treeSize <= p[i].treeSize;
      NoRangesPastTheEnd(p, i + 1, firstSeq, lastSeq);
    }
  }

  lemma {:induction false} RangesTile(p: seq<ProvenCheckpoint>, i: nat, firstSeq: nat, lastSeq: int)
    requires SizesInOrder(p) && i <= |p|
    ensures Tiles(RangesFrom(p, i, firstSeq, lastSeq), Lowest(p, i, firstSeq), Covered(p, firstSeq, lastSeq))
    decreases |p| - i
  {
    if i < |p| {
      assert i > 0 ==> p[i - 1].treeSize <= p[i].treeSize;
      assert i < |p| - 1 ==> p[i].treeSize <= p[|p| - 1].treeSize;
      RangesTile(p, i + 1, firstSeq, lastSeq);
      if Highest(p, i, lastSeq) == lastSeq {
        NoRangesPastTheEnd(p, i + 1, firstSeq, lastSeq);
      }
      var ranges := RangesFrom(p, i, firstSeq, lastSeq);
      if Lowest(p, i, firstSeq) <= Highest(p, i, lastSeq) {
        assert ranges[1..] == RangesFrom(p, i + 1, firstSeq, lastSeq);
      } else {
        assert ranges == RangesFrom(p, i + 1, firstSeq, lastSeq);
        if Lowest(p, i, firstSeq) > lastSeq {
          NoRangesPastTheEnd(p, i, firstSeq, lastSeq);
        }
      }
    }
  }

  lemma {:induction false} TilesEnd(ranges: seq<Range>, a: int, b: int)
    requires Tiles(ranges, a, b) && ranges != []
    ensures ranges[|ranges| - 1].toSeq == b
    decreases |ranges|
  {
    if |ranges| > 1 {
      TilesEnd(ranges[1..], ranges[0].toSeq + 1, b);
      assert ranges[1..][|ranges| - 2] == ranges[|ranges| - 1];
    }
  }

  lemma {:induction false} TilesHold(ranges: seq<Range>, a: int, b: int, s: int)
    requires Tiles(ranges, a, b)
    ensures a <= s <= b <==> exists k :: 0 <= k < |ranges| && ranges[k].fromSeq <= s <= ranges[k].toSeq
    ensures forall j, k :: 0 <= j < k < |ranges| ==> ranges[j].toSeq < ranges[k].fromSeq
    ensures forall k :: 0 <= k < |ranges| ==> a <= ranges[k].fromSeq
    decreases |ranges|
  {
    if ranges != [] {
      var rest := ranges[1..];
      TilesHold(rest, ranges[0].toSeq + 1, b, s);
      assert forall k :: 1 <= k < |ranges| ==> ranges[k] == rest[k - 1];
      if ranges[0].toSeq + 1 <= s <= b {
        var k :| 0 <= k < |rest| && rest[k].fromSeq <= s <= rest[k].toSeq;
        assert ranges[k + 1].fromSeq <= s <= ranges[k + 1].toSeq;
      }
    }
  }

  /** Everything a result says of the receipts' positions: each is in one range or
      among the unproven at the end, and in one only; and it is in a range exactly
      when some proven tree includes it. */
  ghost predicate Partitions(p: seq<ProvenCheckpoint>, ranges: seq<Range>, unproven: Option<Unproven>, firstSeq: nat,
      lastSeq: int) {
    && (forall j, k :: 0 <= j < k < |ranges| ==> ranges[j].toSeq < ranges[k].fromSeq)
    && (forall k :: 0 <= k < |ranges| ==> firstSeq <= ranges[k].fromSeq <= ranges[k].toSeq <= lastSeq)
    && (unproven.Some? ==>
          unproven.value.toSeq == lastSeq
          && unproven.value.count == lastSeq - unproven.value.fromSeq + 1 >= 1
          && unproven.value.fromSeq >= firstSeq)
    && forall s :: firstSeq <= s <= lastSeq ==>
         && (InSome(ranges, s) <==> IsProven(p, s))
         && (InSome(ranges, s) <==> !(unproven.Some? && s >= unproven.value.fromSeq))
  }

  ghost predicate InSome(ranges: seq<Range>, s: int) {
    exists k :: 0 <= k < |ranges| && ranges[k].fromSeq <= s <= ranges[k].toSeq
  }

  lemma {:induction false} TilesAreWithin(ranges: seq<Range>, a: int, b: int)
    requires Tiles(ranges, a, b)
    ensures forall k :: 0 <= k < |ranges| ==> a <= ranges[k].fromSeq <= ranges[k].toSeq <= b
    decreases |ranges|
  {
    if ranges != [] {
      TilesAreWithin(ranges[1..], ranges[0].toSeq + 1, b);
      assert forall k :: 1 <= k < |ranges| ==> ranges[k] == ranges[1..][k - 1];
    }
  }

  lemma {:induction false} NothingLeftOver(ranges: seq<Range>, a: int, b: int)
    requires Tiles(ranges, a, b)
    ensures ranges == [] ==> a > b
  {
  }

  lemma {:induction false} RangesApart(ranges: seq<Range>, a: int, b: int)
    requires Tiles(ranges, a, b)
    ensures forall j, k :: 0 <= j < k < |ranges| ==> ranges[j].toSeq < ranges[k].fromSeq
  {
    TilesHold(ranges, a, b, 0);
  }

  lemma {:induction false} PlaceInTiles(ranges: seq<Range>, a: int, b: int, s: int)
    requires Tiles(ranges, a, b) && a <= s
    ensures InSome(ranges, s) <==> s <= b
  {
    TilesHold(ranges, a, b, s);
  }

  lemma {:induction false} ProvenUpTo(p: seq<ProvenCheckpoint>, firstSeq: nat, lastSeq: int, s: int)
    requires SizesInOrder(p) && firstSeq <= s <= lastSeq
    ensures IsProven(p, s) <==> s <= Covered(p, firstSeq, lastSeq)
  {
    if p != [] {
      assert p[|p| - 1] in p;
      if IsProven(p, s) {
        var q :| q in p && q.treeSize > s;
        var i :| 0 <= i < |p| && p[i] == q;
        assert p[i].treeSize <= p[|p| - 1].treeSize;
      }
    }
  }

  /** The ranges and the unproven tile the export exactly. */
  lemma {:induction false} RangesPartitionTheExport(p: seq<ProvenCheckpoint>, firstSeq: nat, lastSeq: int)
    requires SizesInOrder(p) && firstSeq <= lastSeq + 1
    ensures var ranges := RangesFrom(p, 0, firstSeq, lastSeq);
            Partitions(p, ranges, UnprovenAfter(ranges, firstSeq, lastSeq), firstSeq, lastSeq)
  {
    hide RangesFrom, IsProven, SizesInOrder, Tiles, InSome;
    var ranges, b := RangesFrom(p, 0, firstSeq, lastSeq), Covered(p, firstSeq, lastSeq);
    RangesTile(p, 0, firstSeq, lastSeq);
    NothingLeftOver(ranges, firstSeq, b);
    if ranges != [] {
      TilesEnd(ranges, firstSeq, b);
    }
    TilesAreWithin(ranges, firstSeq, b);
    RangesApart(ranges, firstSeq, b);
    forall s | firstSeq <= s <= lastSeq
      ensures (InSome(ranges, s) <==> IsProven(p, s)) && (InSome(ranges, s) <==> s <= b)
    {
      PlaceInTiles(ranges, firstSeq, b, s);
      ProvenUpTo(p, firstSeq, lastSeq, s);
    }
  }

  // ----- each range's time is the minimum -----

  /** Every range is one of the walk's steps. */
  lemma {:induction false} RangeOf(
      p: seq<ProvenCheckpoint>, i: nat, firstSeq: nat, lastSeq: int, j: nat) returns (k: nat)
    requires i <= |p| && j < |RangesFrom(p, i, firstSeq, lastSeq)|
    ensures i <= k < |p| && Lowest(p, k, firstSeq) <= Highest(p, k, lastSeq)
    ensures RangesFrom(p, i, firstSeq, lastSeq)[j]
              == Range(Lowest(p, k, firstSeq), Highest(p, k, lastSeq), EarliestFrom(p, k).at)
    decreases |p| - i
  {
    hide EarliestFrom;
    var here := Lowest(p, i, firstSeq) <= Highest(p, i, lastSeq);
    if here && j == 0 {
      k := i;
    } else {
      k := RangeOf(p, i + 1, firstSeq, lastSeq, if here then j - 1 else j);
    }
  }

  /** From step k on are exactly the trees that include a position of its range. */
  lemma {:induction false} EarliestIsExistedBy(p: seq<ProvenCheckpoint>, k: nat, firstSeq: nat, lastSeq: int, s: int)
    requires SizesInOrder(p) && k < |p| && Lowest(p, k, firstSeq) <= s <= Highest(p, k, lastSeq)
    ensures ExistedBy(p, s, EarliestFrom(p, k).at)
  {
    var e := EarliestFrom(p, k);
    var m :| 0 <= m < |p[k..]| && p[k..][m] == e;
    assert p[k + m] == e && p[k].treeSize <= p[k + m].treeSize;
    forall q | q in p && q.treeSize > s
      ensures e.at <= q.at
    {
      var i :| 0 <= i < |p| && p[i] == q;
      assert i >= k;
    }
  }

  /** existedBy is the minimum over all the trees that include the receipt. */
  lemma {:induction false} RangesAreMinima(p: seq<ProvenCheckpoint>, firstSeq: nat, lastSeq: int, j: nat, s: int)
    requires SizesInOrder(p) && j < |RangesFrom(p, 0, firstSeq, lastSeq)|
    requires var r := RangesFrom(p, 0, firstSeq, lastSeq)[j]; r.fromSeq <= s <= r.toSeq
    ensures ExistedBy(p, s, RangesFrom(p, 0, firstSeq, lastSeq)[j].existedBy)
  {
    var k := RangeOf(p, 0, firstSeq, lastSeq, j);
    EarliestIsExistedBy(p, k, firstSeq, lastSeq, s);
  }

  /** And so it never goes back as the sequence goes on. */
  lemma {:induction false} ExistedByIsMonotone(p: seq<ProvenCheckpoint>, s: int, t: int, u: int, v: int)
    requires s <= t && ExistedBy(p, s, u) && ExistedBy(p, t, v)
    ensures u <= v
  {
    var q :| q in p && q.treeSize > t && q.at == v;
    assert q.treeSize > s;
  }

  // ----- anchor-time -----

  /** A receipt received, beyond the tolerance, after a tree that includes it was dated. */
  ghost predicate ReceivedTooLate(rs: seq<Received>, p: seq<ProvenCheckpoint>, toleranceMs: int, i: nat,
      q: ProvenCheckpoint) {
    i < |rs| && q in p && q.treeSize > rs[i].seq_ && rs[i].tsReceived > q.at + toleranceMs
  }

  lemma {:induction false} NoTimeErrors(
      rs: seq<Received>, p: seq<ProvenCheckpoint>, i: nat, firstSeq: nat, lastSeq: int, toleranceMs: int)
    requires i <= |p|
    ensures TimeErrorsFrom(rs, p, i, firstSeq, lastSeq, toleranceMs) == [] <==>
            forall k :: i <= k < |p| ==> TimeErrorAt(rs, p, k, firstSeq, lastSeq, toleranceMs).None?
    decreases |p| - i
  {
    hide TimeErrorAt;
    if i < |p| {
      NoTimeErrors(rs, p, i + 1, firstSeq, lastSeq, toleranceMs);
    }
  }

  /** The first tree that includes position s. */
  function FirstReaching(p: seq<ProvenCheckpoint>, i: nat, s: int): (k: nat)
    requires i <= |p|
    ensures i <= k <= |p| && (k < |p| ==> p[k].treeSize > s)
    ensures forall j :: i <= j < k ==> p[j].treeSize <= s
    decreases |p| - i
  {
    if i == |p| || p[i].treeSize > s then i else FirstReaching(p, i + 1, s)
  }

  lemma {:induction false} LateReceiptIsFound(
      rs: seq<Received>, p: seq<ProvenCheckpoint>, toleranceMs: int, i: nat, q: ProvenCheckpoint) returns (k: nat)
    requires SizesInOrder(p) && InSequence(rs) && ReceivedTooLate(rs, p, toleranceMs, i, q)
    ensures k < |p| && TimeErrorAt(rs, p, k, FirstSeq(rs), LastSeq(rs), toleranceMs).Some?
  {
    var s := rs[i].seq_;
    k := FirstReaching(p, 0, s);
    var m :| 0 <= m < |p| && p[m] == q;
    assert k <= m;
    assert rs[|rs| - 1].seq_ == rs[0].seq_ + |rs| - 1;
    assert Lowest(p, k, FirstSeq(rs)) <= s <= Highest(p, k, LastSeq(rs));
    var e := EarliestFrom(p, k);
    assert e.at <= p[m].at;
    assert Offends(rs[i], Lowest(p, k, FirstSeq(rs)), Highest(p, k, LastSeq(rs)), e.at + toleranceMs);
  }

  lemma {:induction false} FoundReceiptIsLate(
      rs: seq<Received>, p: seq<ProvenCheckpoint>, toleranceMs: int, k: nat) returns (i: nat, q: ProvenCheckpoint)
    requires SizesInOrder(p) && k < |p| && TimeErrorAt(rs, p, k, FirstSeq(rs), LastSeq(rs), toleranceMs).Some?
    ensures ReceivedTooLate(rs, p, toleranceMs, i, q)
  {
    q := EarliestFrom(p, k);
    i := TimeErrorAt(rs, p, k, FirstSeq(rs), LastSeq(rs), toleranceMs).value.line - 1;
    var m :| 0 <= m < |p[k..]| && p[k..][m] == q;
    assert p[k + m] == q && p[k].treeSize <= p[k + m].treeSize;
    assert Offends(rs[i], Lowest(p, k, FirstSeq(rs)), Highest(p, k, LastSeq(rs)), q.at + toleranceMs);
  }

  /** The one pass finds an error exactly when some pair has one. */
  lemma {:induction false} NoTimeErrorsIffNoneLate(rs: seq<Received>, p: seq<ProvenCheckpoint>, toleranceMs: int)
    requires SizesInOrder(p) && InSequence(rs)
    ensures TimeErrorsFrom(rs, p, 0, FirstSeq(rs), LastSeq(rs), toleranceMs) == [] <==>
            forall i, q :: !ReceivedTooLate(rs, p, toleranceMs, i, q)
  {
    hide ReceivedTooLate, TimeErrorAt, TimeErrorsFrom;
    NoTimeErrors(rs, p, 0, FirstSeq(rs), LastSeq(rs), toleranceMs);
    if i, q :| ReceivedTooLate(rs, p, toleranceMs, i, q) {
      var k := LateReceiptIsFound(rs, p, toleranceMs, i, q);
    }
    if k :| 0 <= k < |p| && TimeErrorAt(rs, p, k, FirstSeq(rs), LastSeq(rs), toleranceMs).Some? {
      var i, q := FoundReceiptIsLate(rs, p, toleranceMs, k);
    }
  }

  // ----- anchor-order -----

  ghost predicate TimesInOrder(p: seq<ProvenCheckpoint>) {
    forall i, j :: 0 <= i < j < |p| ==> p[i].at <= p[j].at
  }

  lemma {:induction false} NoOrderErrorsIffInOrder(p: seq<ProvenCheckpoint>)
    ensures OrderErrors(p) == [] <==> TimesInOrder(p)
    decreases |p|
  {
    if |p| > 1 {
      var front := p[..|p| - 1];
      NoOrderErrorsIffInOrder(front);
      assert forall i :: 0 <= i < |front| ==> p[i] == front[i];
      var l := LatestOf(front);
      var m :| 0 <= m < |front| && front[m] == l;
      assert p[m] == l;
    }
  }

  /** Every order error names a smaller tree, dated later. */
  lemma {:induction false} OrderErrorsAreReal(p: seq<ProvenCheckpoint>, e: OrderError)
    requires SizesInOrder(p) && e in OrderErrors(p)
    ensures e.beforeSize <= e.treeSize && e.beforeAt > e.at
    ensures exists q :: q in p && q.treeSize == e.beforeSize && q.at == e.beforeAt
    ensures exists q :: q in p && q.treeSize == e.treeSize && q.at == e.at && q.line == e.line
    decreases |p|
  {
    var front := p[..|p| - 1];
    assert forall i :: 0 <= i < |front| ==> p[i] == front[i];
    if e in OrderErrors(front) {
      OrderErrorsAreReal(front, e);
    } else {
      var l := LatestOf(front);
      var m :| 0 <= m < |front| && front[m] == l;
      assert p[m] == l && p[m].treeSize <= p[|p| - 1].treeSize;
    }
  }

  // ----- anchor-delay -----

  predicate IsLate(q: ProvenCheckpoint, line: nat, maxDelayMs: int) { q.line == line && q.at - q.ts > maxDelayMs }

  /** A warning names a checkpoint exactly when the authority dated it too long after its own time. */
  lemma {:induction false} LateLinesAreLate(p: seq<ProvenCheckpoint>, maxDelayMs: int, line: nat)
    ensures line in LateLines(p, maxDelayMs) <==> exists q :: q in p && IsLate(q, line, maxDelayMs)
    decreases |p|
  {
    if p != [] {
      var front, last := p[..|p| - 1], p[|p| - 1];
      LateLinesAreLate(front, maxDelayMs, line);
      assert p == front + [last];
      if IsLate(last, line, maxDelayMs) {
        assert last in p;
      } else if line in LateLines(front, maxDelayMs) {
        var q :| q in front && IsLate(q, line, maxDelayMs);
        assert q in p;
      } else {
        assert forall q :: q in p ==> q in front || q == last;
      }
    }
  }

  // ----- each list is exactly what it should be, in order -----

  function CountAttested(sorted: seq<Sized<AnchoredCheckpoint>>): nat {
    if sorted == [] then 0
    else
      CountAttested(sorted[..|sorted| - 1])
      + (if Attested(sorted[|sorted| - 1].item.genTimes).Some? then 1 else 0)
  }

  /** Of the sorted checkpoints, those with a time, each once and in that order. */
  lemma {:induction false} ProvenInOrder(sorted: seq<Sized<AnchoredCheckpoint>>)
    ensures |ProvenOf(sorted)| == CountAttested(sorted)
    ensures forall i :: 0 <= i < |sorted| && Attested(sorted[i].item.genTimes).Some? ==>
              && CountAttested(sorted[..i]) < |ProvenOf(sorted)|
              && IsProvenAt(sorted[i].item, ProvenOf(sorted)[CountAttested(sorted[..i])])
    decreases |sorted|
  {
    hide Attested;
    if sorted != [] {
      var front := sorted[..|sorted| - 1];
      ProvenInOrder(front);
      assert forall i :: 0 <= i < |front| ==> sorted[..i] == front[..i] && sorted[i] == front[i];
    }
  }

  /** The first late receipt of a range, against the largest of the trees of its time. */
  ghost predicate IsTimeError(rs: seq<Received>, p: seq<ProvenCheckpoint>, r: Range, toleranceMs: int, e: TimeError) {
    && 1 <= e.line <= |rs|
    && Offends(rs[e.line - 1], r.fromSeq, r.toSeq, r.existedBy + toleranceMs)
    && (forall i :: 0 <= i < e.line - 1 ==> !Offends(rs[i], r.fromSeq, r.toSeq, r.existedBy + toleranceMs))
    && e.at == r.existedBy
    && e.treeSize > r.toSeq
    && (exists q :: q in p && q.at == e.at && q.treeSize == e.treeSize)
    && (forall q :: q in p && q.at == e.at ==> q.treeSize <= e.treeSize)
  }

  /** Of the trees from step k on, the largest of the earliest time is the largest of that time at all. */
  lemma {:induction false} EarliestIsLargest(p: seq<ProvenCheckpoint>, k: nat)
    requires SizesInOrder(p) && k < |p|
    ensures EarliestFrom(p, k) in p && EarliestFrom(p, k).treeSize >= p[k].treeSize
    ensures forall q :: q in p && q.at == EarliestFrom(p, k).at ==> q.treeSize <= EarliestFrom(p, k).treeSize
    decreases |p| - k
  {
    var e := EarliestFrom(p, k);
    var m :| 0 <= m < |p[k..]| && p[k..][m] == e;
    assert p[k + m] == e;
    forall q | q in p && q.at == e.at
      ensures q.treeSize <= e.treeSize
    {
      var i :| 0 <= i < |p| && p[i] == q;
      if k < i {
        assert e.at <= p[i].at;
        EarliestIsLargest(p, k + 1);
      } else {
        assert p[i].treeSize <= p[k].treeSize <= p[k + m].treeSize;
      }
    }
  }

  lemma {:induction false} TimeErrorIsOfRange(rs: seq<Received>, p: seq<ProvenCheckpoint>, k: nat, firstSeq: nat,
      lastSeq: int, toleranceMs: int, e: TimeError)
    requires SizesInOrder(p) && k < |p| && Lowest(p, k, firstSeq) <= Highest(p, k, lastSeq)
    ensures var r := Range(Lowest(p, k, firstSeq), Highest(p, k, lastSeq), EarliestFrom(p, k).at);
            TimeErrorAt(rs, p, k, firstSeq, lastSeq, toleranceMs) == Some(e) <==> IsTimeError(rs, p, r, toleranceMs, e)
  {
    EarliestIsLargest(p, k);
  }

  lemma {:induction false} OfOneOrTheRest(rs: seq<Received>, p: seq<ProvenCheckpoint>, r: Range, rest: seq<Range>,
      toleranceMs: int, e: TimeError)
    ensures (exists q :: q in [r] + rest && IsTimeError(rs, p, q, toleranceMs, e)) <==>
            IsTimeError(rs, p, r, toleranceMs, e) || (exists q :: q in rest && IsTimeError(rs, p, q, toleranceMs, e))
  {
    hide IsTimeError;
    if IsTimeError(rs, p, r, toleranceMs, e) {
      assert r in [r] + rest;
    }
    if q :| q in rest && IsTimeError(rs, p, q, toleranceMs, e) {
      assert q in [r] + rest;
    }
  }

  lemma {:induction false} TimeErrorsFollow(rs: seq<Received>, p: seq<ProvenCheckpoint>, i: nat, firstSeq: nat,
      lastSeq: int, toleranceMs: int, e: TimeError)
    requires SizesInOrder(p) && i <= |p|
    ensures e in TimeErrorsFrom(rs, p, i, firstSeq, lastSeq, toleranceMs) <==>
            exists r :: r in RangesFrom(p, i, firstSeq, lastSeq) && IsTimeError(rs, p, r, toleranceMs, e)
    decreases |p| - i
  {
    hide EarliestFrom, IsTimeError, FirstOffending, Lowest, Highest, SizesInOrder;
    if i < |p| {
      TimeErrorsFollow(rs, p, i + 1, firstSeq, lastSeq, toleranceMs, e);
      var a, b := Lowest(p, i, firstSeq), Highest(p, i, lastSeq);
      var rest := RangesFrom(p, i + 1, firstSeq, lastSeq);
      if a <= b {
        TimeErrorIsOfRange(rs, p, i, firstSeq, lastSeq, toleranceMs, e);
        OfOneOrTheRest(rs, p, Range(a, b, EarliestFrom(p, i).at), rest, toleranceMs, e);
      } else {
        assert RangesFrom(p, i, firstSeq, lastSeq) == rest;
      }
    }
  }

  /** They name receipts from position a on, in order. */
  ghost predicate Ascend(rs: seq<Received>, errors: seq<TimeError>, a: int) {
    && (forall m :: 0 <= m < |errors| ==> 1 <= errors[m].line <= |rs| && rs[errors[m].line - 1].seq_ >= a)
    && (forall m, n :: 0 <= m < n < |errors| ==> errors[m].line < errors[n].line)
  }

  lemma {:induction false} AscendsFromBefore(rs: seq<Received>, e: TimeError, rest: seq<TimeError>, a: int, b: int,
      c: int)
    requires InSequence(rs) && Ascend(rs, rest, c)
    requires 1 <= e.line <= |rs| && a <= rs[e.line - 1].seq_ <= b < c
    ensures Ascend(rs, [e] + rest, a)
  {
    var errors := [e] + rest;
    forall m | 0 <= m < |errors|
      ensures 1 <= errors[m].line <= |rs| && rs[errors[m].line - 1].seq_ >= a && (m > 0 ==> e.line < errors[m].line)
    {
      if m > 0 {
        assert errors[m] == rest[m - 1];
        assert rs[errors[m].line - 1].seq_ == rs[0].seq_ + errors[m].line - 1;
        assert rs[e.line - 1].seq_ == rs[0].seq_ + e.line - 1;
      }
    }
  }

  lemma {:induction false} TimeErrorsAscend(
      rs: seq<Received>, p: seq<ProvenCheckpoint>, i: nat, firstSeq: nat, lastSeq: int, toleranceMs: int)
    requires SizesInOrder(p) && InSequence(rs) && i <= |p|
    ensures Ascend(rs, TimeErrorsFrom(rs, p, i, firstSeq, lastSeq, toleranceMs), Lowest(p, i, firstSeq))
    decreases |p| - i
  {
    hide EarliestFrom, Ascend, InSequence;
    if i == |p| {
      assert Ascend(rs, [], Lowest(p, i, firstSeq)) by { NoneAscend(rs, Lowest(p, i, firstSeq)); }
    } else {
      TimeErrorsAscend(rs, p, i + 1, firstSeq, lastSeq, toleranceMs);
      assert i > 0 ==> p[i - 1].treeSize <= p[i].treeSize;
      var a, b, c := Lowest(p, i, firstSeq), Highest(p, i, lastSeq), Lowest(p, i + 1, firstSeq);
      var error := TimeErrorAt(rs, p, i, firstSeq, lastSeq, toleranceMs);
      var rest := TimeErrorsFrom(rs, p, i + 1, firstSeq, lastSeq, toleranceMs);
      if error.Some? {
        AscendsFromBefore(rs, error.value, rest, a, b, c);
      } else {
        assert [] + rest == rest;
        AscendsFurther(rs, rest, a, c);
      }
    }
  }

  lemma {:induction false} NoneAscend(rs: seq<Received>, a: int)
    ensures Ascend(rs, [], a)
  {
  }

  lemma {:induction false} AscendsFurther(rs: seq<Received>, rest: seq<TimeError>, a: int, c: int)
    requires Ascend(rs, rest, c) && a <= c
    ensures Ascend(rs, rest, a)
  {
  }

  /** The anchor-time errors: of each range that holds a late receipt exactly one,
      in the order of the receipts they name. */
  lemma {:induction false} TimeErrorsAreExact(rs: seq<Received>, p: seq<ProvenCheckpoint>, toleranceMs: int)
    requires SizesInOrder(p) && InSequence(rs)
    ensures var errors := TimeErrorsFrom(rs, p, 0, FirstSeq(rs), LastSeq(rs), toleranceMs);
            && (forall e :: e in errors <==>
                  exists r :: r in RangesFrom(p, 0, FirstSeq(rs), LastSeq(rs)) && IsTimeError(rs, p, r, toleranceMs, e))
            && Ascend(rs, errors, FirstSeq(rs))
  {
    hide TimeErrorsFrom, RangesFrom, IsTimeError, Ascend;
    forall e
      ensures e in TimeErrorsFrom(rs, p, 0, FirstSeq(rs), LastSeq(rs), toleranceMs) <==>
              exists r :: r in RangesFrom(p, 0, FirstSeq(rs), LastSeq(rs)) && IsTimeError(rs, p, r, toleranceMs, e)
    {
      TimeErrorsFollow(rs, p, 0, FirstSeq(rs), LastSeq(rs), toleranceMs, e);
    }
    TimeErrorsAscend(rs, p, 0, FirstSeq(rs), LastSeq(rs), toleranceMs);
  }

  /** Two positions share a range exactly when the same trees include them. */
  lemma {:induction false} RangesAreOfTheSameTrees(p: seq<ProvenCheckpoint>, firstSeq: nat, lastSeq: int, j: nat,
      s: int, t: int)
    requires SizesInOrder(p) && firstSeq <= t <= lastSeq && j < |RangesFrom(p, 0, firstSeq, lastSeq)|
    requires var r := RangesFrom(p, 0, firstSeq, lastSeq)[j]; r.fromSeq <= s <= r.toSeq
    ensures var r := RangesFrom(p, 0, firstSeq, lastSeq)[j];
            r.fromSeq <= t <= r.toSeq <==> forall q :: q in p ==> (q.treeSize > s <==> q.treeSize > t)
  {
    hide RangesFrom, EarliestFrom;
    var k := RangeOf(p, 0, firstSeq, lastSeq, j);
    forall q | q in p
      ensures q.treeSize > s <==> q.treeSize >= p[k].treeSize
    {
      var i :| 0 <= i < |p| && p[i] == q;
      assert i < k ==> p[i].treeSize <= p[k - 1].treeSize;
    }
    assert p[k] in p && (k > 0 ==> p[k - 1] in p);
  }

  /** Some smaller tree, or one of the same size before it, was dated later. */
  ghost predicate DatedBack(p: seq<ProvenCheckpoint>, i: nat)
    requires i < |p|
  {
    exists j :: 0 <= j < i && p[j].at > p[i].at
  }

  ghost function CountDatedBack(p: seq<ProvenCheckpoint>, n: nat): nat
    requires n <= |p|
  {
    if n == 0 then 0 else CountDatedBack(p, n - 1) + (if DatedBack(p, n - 1) then 1 else 0)
  }

  /** It names p[i] and p[j], the latest before it; of several, the last. */
  ghost predicate NamesTheLatest(p: seq<ProvenCheckpoint>, i: nat, e: OrderError, j: nat)
    requires i < |p|
  {
    && j < i
    && (forall k :: 0 <= k < i ==> p[k].at <= p[j].at && (j < k ==> p[k].at < p[j].at))
    && e == OrderError(p[i].line, p[i].treeSize, p[i].at, p[j].treeSize, p[j].at)
  }

  lemma {:induction false} LatestIsLast(p: seq<ProvenCheckpoint>) returns (j: nat)
    requires p != []
    ensures j < |p| && p[j] == LatestOf(p)
    ensures forall k :: 0 <= k < |p| ==> p[k].at <= p[j].at && (j < k ==> p[k].at < p[j].at)
    decreases |p|
  {
    var last := |p| - 1;
    if |p| == 1 || p[last].at >= LatestOf(p[..last]).at {
      j := last;
    } else {
      j := LatestIsLast(p[..last]);
    }
  }

  /** What counts as dated back in the first n depends on them alone. */
  lemma {:induction false} CountOfPrefix(p: seq<ProvenCheckpoint>, m: nat, n: nat)
    requires n <= m <= |p|
    ensures CountDatedBack(p[..m], n) == CountDatedBack(p, n)
  {
    if n > 0 {
      CountOfPrefix(p, m, n - 1);
      if DatedBack(p, n - 1) {
        var j :| 0 <= j < n - 1 && p[j].at > p[n - 1].at;
        assert p[..m][j].at > p[..m][n - 1].at;
      }
      if DatedBack(p[..m], n - 1) {
        var j :| 0 <= j < n - 1 && p[..m][j].at > p[..m][n - 1].at;
        assert p[j].at > p[n - 1].at;
      }
    }
  }

  ghost predicate OrderErrorStands(p: seq<ProvenCheckpoint>, errors: seq<OrderError>, i: nat)
    requires i < |p|
  {
    && CountDatedBack(p, i) < |errors|
    && exists j :: NamesTheLatest(p, i, errors[CountDatedBack(p, i)], j)
  }

  lemma {:induction false} StandsInLonger(p: seq<ProvenCheckpoint>, errors: seq<OrderError>, more: seq<OrderError>,
      i: nat)
    requires i < |p| - 1 && OrderErrorStands(p[..|p| - 1], errors, i)
    ensures OrderErrorStands(p, errors + more, i)
  {
    hide CountDatedBack;
    var front := p[..|p| - 1];
    CountOfPrefix(p, |p| - 1, i);
    var j :| NamesTheLatest(front, i, errors[CountDatedBack(front, i)], j);
    assert forall k :: 0 <= k <= i ==> front[k] == p[k];
    assert NamesTheLatest(p, i, (errors + more)[CountDatedBack(p, i)], j);
  }

  /** The anchor-order errors: of each checkpoint dated back exactly one, in their
      order, against the latest one before it. */
  lemma {:induction false} OrderErrorsAreExact(p: seq<ProvenCheckpoint>)
    ensures |OrderErrors(p)| == CountDatedBack(p, |p|)
    ensures forall i :: 0 <= i < |p| && DatedBack(p, i) ==> OrderErrorStands(p, OrderErrors(p), i)
    decreases |p|
  {
    hide LatestOf, OrderErrorStands, NamesTheLatest, DatedBack;
    if |p| == 1 {
      assert CountDatedBack(p, 0) == 0 && !DatedBack(p, 0) by { FirstIsNotDatedBack(p); }
    } else if |p| > 1 {
      var last := |p| - 1;
      var front := p[..last];
      OrderErrorsAreExact(front);
      CountOfPrefix(p, last, last);
      var j := LatestIsLast(front);
      LastIsDatedBackIff(p, front, j);
      var more := OrderErrors(p)[|OrderErrors(front)|..];
      assert OrderErrors(p) == OrderErrors(front) + more;
      forall i | 0 <= i < |p| && DatedBack(p, i)
        ensures OrderErrorStands(p, OrderErrors(p), i)
      {
        if i < last {
          LastIsOfFront(p, i);
          StandsInLonger(p, OrderErrors(front), more, i);
        } else {
          LastErrorStands(p, OrderErrors(p), j);
        }
      }
    }
  }

  lemma {:induction false} FirstIsNotDatedBack(p: seq<ProvenCheckpoint>)
    requires p != []
    ensures !DatedBack(p, 0)
  {
  }

  lemma {:induction false} LastIsDatedBackIff(p: seq<ProvenCheckpoint>, front: seq<ProvenCheckpoint>, j: nat)
    requires p != [] && front == p[..|p| - 1] && j < |front|
    requires forall k :: 0 <= k < |front| ==> front[k].at <= front[j].at && (j < k ==> front[k].at < front[j].at)
    ensures var e, l := p[|p| - 1], p[j];
            && (DatedBack(p, |p| - 1) <==> e.at < l.at)
            && NamesTheLatest(p, |p| - 1, OrderError(e.line, e.treeSize, e.at, l.treeSize, l.at), j)
  {
    assert forall k :: 0 <= k < |front| ==> front[k] == p[k];
  }

  lemma {:induction false} LastIsOfFront(p: seq<ProvenCheckpoint>, i: nat)
    requires i < |p| - 1 && DatedBack(p, i)
    ensures DatedBack(p[..|p| - 1], i)
  {
    var j :| 0 <= j < i && p[j].at > p[i].at;
    assert p[..|p| - 1][j].at > p[..|p| - 1][i].at;
  }

  lemma {:induction false} LastErrorStands(p: seq<ProvenCheckpoint>, errors: seq<OrderError>, j: nat)
    requires p != [] && |errors| == CountDatedBack(p, |p| - 1) + 1
    requires NamesTheLatest(p, |p| - 1, errors[|errors| - 1], j)
    ensures OrderErrorStands(p, errors, |p| - 1)
  {
  }

  function CountLate(p: seq<ProvenCheckpoint>, maxDelayMs: int): nat {
    if p == [] then 0
    else CountLate(p[..|p| - 1], maxDelayMs) + (if p[|p| - 1].at > p[|p| - 1].ts + maxDelayMs then 1 else 0)
  }

  ghost predicate LateStands(p: seq<ProvenCheckpoint>, maxDelayMs: int, lines: seq<nat>, i: nat)
    requires i < |p|
  {
    CountLate(p[..i], maxDelayMs) < |lines| && lines[CountLate(p[..i], maxDelayMs)] == p[i].line
  }

  lemma {:induction false} LateStandsInLonger(p: seq<ProvenCheckpoint>, maxDelayMs: int, lines: seq<nat>,
      more: seq<nat>,
      i: nat)
    requires i < |p| - 1 && LateStands(p[..|p| - 1], maxDelayMs, lines, i)
    ensures LateStands(p, maxDelayMs, lines + more, i)
  {
    hide CountLate;
    assert p[..|p| - 1][..i] == p[..i];
  }

  /** The delay warnings: of each checkpoint dated too late exactly one, in their order. */
  lemma {:induction false} LateLinesInOrder(p: seq<ProvenCheckpoint>, maxDelayMs: int)
    ensures |LateLines(p, maxDelayMs)| == CountLate(p, maxDelayMs)
    ensures forall i :: 0 <= i < |p| && p[i].at > p[i].ts + maxDelayMs ==>
              LateStands(p, maxDelayMs, LateLines(p, maxDelayMs), i)
    decreases |p|
  {
    if p != [] {
      var front, last := p[..|p| - 1], |p| - 1;
      LateLinesInOrder(front, maxDelayMs);
      var lines := LateLines(front, maxDelayMs);
      var more := LateLines(p, maxDelayMs)[|lines|..];
      assert LateLines(p, maxDelayMs) == lines + more;
      forall i | 0 <= i < |p| && p[i].at > p[i].ts + maxDelayMs
        ensures LateStands(p, maxDelayMs, lines + more, i)
      {
        if i < last {
          assert front[i] == p[i];
          LateStandsInLonger(p, maxDelayMs, lines, more, i);
        }
      }
    }
  }

  // ----- of the checkpoints given -----

  /** Checkpoint c includes receipt i, and the receipt was received too late for it. */
  ghost predicate LateFor(rs: seq<Received>, c: AnchoredCheckpoint, toleranceMs: int, i: nat) {
    && i < |rs| && Attested(c.genTimes).Some?
    && c.treeSize > rs[i].seq_ && rs[i].tsReceived > Attested(c.genTimes).value + toleranceMs
  }

  lemma {:induction false} LateForIffTooLate(rs: seq<Received>, cs: seq<AnchoredCheckpoint>, toleranceMs: int)
    ensures (exists c, i :: c in cs && LateFor(rs, c, toleranceMs, i)) <==>
            (exists i, q :: ReceivedTooLate(rs, Proven(cs), toleranceMs, i, q))
  {
    hide Attested, Proven;
    ProvenIsAll(cs);
    if c, i :| c in cs && LateFor(rs, c, toleranceMs, i) {
      var q :| q in Proven(cs) && IsProvenAt(c, q);
      assert ReceivedTooLate(rs, Proven(cs), toleranceMs, i, q);
    }
    if i, q :| ReceivedTooLate(rs, Proven(cs), toleranceMs, i, q) {
      var c :| c in cs && IsProvenAt(c, q);
      assert LateFor(rs, c, toleranceMs, i);
    }
  }

  ghost predicate IsPosition(rs: seq<Received>, s: int) { exists i :: 0 <= i < |rs| && rs[i].seq_ == s }

  ghost predicate AreThePositions(rs: seq<Received>, a: int, b: int) {
    a <= b + 1 && forall s :: IsPosition(rs, s) <==> a <= s <= b
  }

  lemma {:induction false} PositionsAreTheReceipts(rs: seq<Received>)
    requires InSequence(rs)
    ensures AreThePositions(rs, FirstSeq(rs), LastSeq(rs))
  {
    if rs != [] {
      assert rs[|rs| - 1].seq_ == rs[0].seq_ + |rs| - 1;
      forall s | FirstSeq(rs) <= s <= LastSeq(rs)
        ensures IsPosition(rs, s)
      {
        assert rs[s - rs[0].seq_].seq_ == s;
      }
    }
  }

  /**
   * anchorTimes over any checkpoints, in any order: the positions of the export are
   * partitioned into ranges and unproven; each range's time is the earliest of all
   * the trees that include it; there is no anchor-time error exactly when every
   * receipt is within the tolerance of every timestamped tree that includes it, and
   * no anchor-order error exactly when, by size, the attested times never go back.
   */
  lemma {:induction false} AnchorTimesMean(rs: seq<Received>, cs: seq<AnchoredCheckpoint>, toleranceMs: int)
    requires InSequence(rs)
    ensures var p, a, b := Proven(cs), FirstSeq(rs), LastSeq(rs);
            var ranges := RangesFrom(p, 0, a, b);
            && AreThePositions(rs, a, b)
            && Partitions(p, ranges, UnprovenAfter(ranges, a, b), a, b)
            && (forall j, s :: 0 <= j < |ranges| && ranges[j].fromSeq <= s <= ranges[j].toSeq ==>
                ExistedBy(p, s, ranges[j].existedBy))
            && (forall j, k :: 0 <= j < k < |ranges| ==> ranges[j].existedBy <= ranges[k].existedBy)
            && (TimeErrorsFrom(rs, p, 0, a, b, toleranceMs) == [] <==> forall c, i :: c in cs ==>
                !LateFor(rs, c, toleranceMs, i))
            && (OrderErrors(p) == [] <==> TimesInOrder(p))
  {
    hide Proven, RangesFrom, TimeErrorsFrom, OrderErrors, TimesInOrder, ExistedBy, SizesInOrder, IsPosition;
    var p, a, b := Proven(cs), FirstSeq(rs), LastSeq(rs);
    ProvenIsAll(cs);
    PositionsAreTheReceipts(rs);
    RangesPartitionTheExport(p, a, b);
    var ranges := RangesFrom(p, 0, a, b);
    forall j, s | 0 <= j < |ranges| && ranges[j].fromSeq <= s <= ranges[j].toSeq
      ensures ExistedBy(p, s, ranges[j].existedBy)
    {
      RangesAreMinima(p, a, b, j, s);
    }
    forall j, k | 0 <= j < k < |ranges|
      ensures ranges[j].existedBy <= ranges[k].existedBy
    {
      ExistedByIsMonotone(p, ranges[j].fromSeq, ranges[k].fromSeq, ranges[j].existedBy, ranges[k].existedBy);
    }
    LateForIffTooLate(rs, cs, toleranceMs);
    NoTimeErrorsIffNoneLate(rs, p, toleranceMs);
    NoOrderErrorsIffInOrder(p);
  }
}
