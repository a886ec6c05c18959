/**
 * A list of recent times, pruned as it is used: so many within a window and no
 * more (apps/server/src/connection/watch.ts, admitNewSession and gap;
 * apps/server/src/auth/throttle.ts, recordFailure).
 */
module SlidingWindow {
  import opened Prelude

  /** times.filter((at) => now - at < windowMs) */
  function Within(times: seq<int>, now: int, windowMs: int): (r: seq<int>)
    ensures |r| <= |times|
  {
    if times == [] then []
    else
      var last := times[|times| - 1];
      Within(times[..|times| - 1], now, windowMs) + (if now - last < windowMs then [last] else [])
  }

  /** Pruning early loses nothing that pruning later would keep. */
  lemma {:induction false} WithinLater(times: seq<int>, now: int, later: int, windowMs: int)
    requires now <= later
    ensures Within(Within(times, now, windowMs), later, windowMs) == Within(times, later, windowMs)
    decreases |times|
  {
    if times != [] {
      var front := times[..|times| - 1];
      WithinLater(front, now, later, windowMs);
      var kept, last := Within(front, now, windowMs), times[|times| - 1];
      if now - last < windowMs {
        assert (kept + [last])[..|kept|] == kept;
      } else {
        assert kept + [] == kept;
      }
    }
  }

  lemma {:induction false} WithinSnoc(times: seq<int>, now: int, windowMs: int)
    requires windowMs >= 1
    ensures Within(times + [now], now, windowMs) == Within(times, now, windowMs) + [now]
  {
    assert (times + [now])[..|times|] == times;
  }

  // ----- an allowance: at most so many within the window -----

  /** One more at `now`, unless the window is full. */
  function Admit(recent: seq<int>, now: int, windowMs: int, most: nat): Option<seq<int>> {
    var kept := Within(recent, now, windowMs);
    if |kept| >= most then None else Some(kept + [now])
  }

  predicate Rising(times: seq<int>) { forall i, j :: 0 <= i < j < |times| ==> times[i] <= times[j] }

  /** Those of all the times that lie in the window that ends at `end`. */
  function CountInWindow(times: seq<int>, end: int, windowMs: int): nat {
    if times == [] then 0
    else
      var last := times[|times| - 1];
      CountInWindow(times[..|times| - 1], end, windowMs) + (if end - windowMs < last <= end then 1 else 0)
  }

  /** At each time admitted, the window that ends with it holds no more than `most`. */
  ghost predicate Allowed(all: seq<int>, windowMs: int, most: nat) {
    Rising(all) && forall i :: 0 <= i < |all| ==> |Within(all[..i + 1], all[i], windowMs)| <= most
  }

  lemma {:induction false} CountIsWithin(times: seq<int>, end: int, windowMs: int)
    requires forall i :: 0 <= i < |times| ==> times[i] <= end
    ensures CountInWindow(times, end, windowMs) == |Within(times, end, windowMs)|
    decreases |times|
  {
    if times != [] {
      CountIsWithin(times[..|times| - 1], end, windowMs);
    }
  }

  lemma {:induction false} LaterWindowHoldsNoMore(times: seq<int>, now: int, later: int, windowMs: int)
    requires now <= later
    ensures |Within(times, later, windowMs)| <= |Within(times, now, windowMs)|
    decreases |times|
  {
    if times != [] {
      LaterWindowHoldsNoMore(times[..|times| - 1], now, later, windowMs);
    }
  }

  /** So no window of that length, wherever it ends, holds more. */
  lemma {:induction false} NoWindowHoldsMore(all: seq<int>, end: int, windowMs: int, most: nat)
    requires Allowed(all, windowMs, most)
    ensures CountInWindow(all, end, windowMs) <= most
    decreases |all|
  {
    if all != [] {
      var front, last := all[..|all| - 1], all[|all| - 1];
      if last <= end {
        assert all[..|all| - 1 + 1] == all;
        CountIsWithin(all, end, windowMs);
        LaterWindowHoldsNoMore(all, last, end, windowMs);
      } else {
        AllowedFront(all, windowMs, most);
        NoWindowHoldsMore(front, end, windowMs, most);
      }
    }
  }

  lemma {:induction false} AllowedFront(all: seq<int>, windowMs: int, most: nat)
    requires Allowed(all, windowMs, most) && all != []
    ensures Allowed(all[..|all| - 1], windowMs, most)
  {
    var front := all[..|all| - 1];
    forall i | 0 <= i < |front|
      ensures |Within(front[..i + 1], front[i], windowMs)| <= most
    {
      assert front[..i + 1] == all[..i + 1];
    }
  }

  /** What the pruned list is of all the times admitted, at the time of its last use. */
  ghost predicate Recalls(recent: seq<int>, all: seq<int>, lastUse: int, windowMs: int) {
    && recent == Within(all, lastUse, windowMs)
    && forall i :: 0 <= i < |all| ==> all[i] <= lastUse
  }

  /** One more time keeps the allowance if the window that ends with it has room. */
  lemma {:induction false} AllowedSnoc(all: seq<int>, now: int, windowMs: int, most: nat)
    requires Allowed(all, windowMs, most)
    requires forall i :: 0 <= i < |all| ==> all[i] <= now
    requires |Within(all + [now], now, windowMs)| <= most
    ensures Allowed(all + [now], windowMs, most)
  {
    hide Within;
    var more := all + [now];
    assert Rising(more);
    forall i | 0 <= i < |more|
      ensures |Within(more[..i + 1], more[i], windowMs)| <= most
    {
      if i < |all| {
        assert more[..i + 1] == all[..i + 1];
      } else {
        assert more[..i + 1] == more;
      }
    }
  }

  /** Using the pruned list keeps the allowance over all times. */
  lemma {:induction false} AdmitKeepsAllowance(
      recent: seq<int>, all: seq<int>, lastUse: int, now: int, windowMs: int, most: nat)
    requires windowMs >= 1 && lastUse <= now
    requires Recalls(recent, all, lastUse, windowMs) && Allowed(all, windowMs, most)
    ensures var r := Admit(recent, now, windowMs, most);
            if r.None? then Recalls(Within(recent, now, windowMs), all, now, windowMs)
            else Recalls(r.value, all + [now], now, windowMs) && Allowed(all + [now], windowMs, most)
  {
    hide Within, Allowed;
    WithinLater(all, lastUse, now, windowMs);
    WithinSnoc(all, now, windowMs);
    if Admit(recent, now, windowMs, most).Some? {
      AllowedSnoc(all, now, windowMs, most);
    }
  }

  lemma {:induction false} WithinDropsFirst(times: seq<int>, now: int, windowMs: int)
    requires times != [] && now - times[0] >= windowMs
    ensures |Within(times, now, windowMs)| < |times|
    decreases |times|
  {
    if |times| > 1 {
      WithinDropsFirst(times[..|times| - 1], now, windowMs);
    }
  }
}
