/** Array.prototype.sort by tree size: in order, and keeping the order of equals. */
module StableSort {
  import opened Prelude

  datatype Sized<T> = Sized(size: nat, item: T)

  ghost predicate InOrder<T>(xs: seq<Sized<T>>) {
    forall i, j :: 0 <= i < j < |xs| ==> xs[i].size <= xs[j].size
  }

  function Insert<T(!new)>(xs: seq<Sized<T>>, x: Sized<T>): (r: seq<Sized<T>>)
    ensures |r| == |xs| + 1
    ensures forall y :: y in r <==> y in xs || y == x
  {
    if xs == [] || xs[|xs| - 1].size <= x.size then xs + [x]
    else
      var front, last := xs[..|xs| - 1], xs[|xs| - 1];
      assert xs == front + [last];
      Insert(front, x) + [last]
  }

  function Sort<T(!new)>(xs: seq<Sized<T>>): (r: seq<Sized<T>>)
    ensures |r| == |xs|
    ensures forall y :: y in r <==> y in xs
  {
    if xs == [] then []
    else
      var front, last := xs[..|xs| - 1], xs[|xs| - 1];
      assert xs == front + [last];
      Insert(Sort(front), last)
  }

  lemma {:induction false} InsertKeepsOrder<T(!new)>(xs: seq<Sized<T>>, x: Sized<T>)
    requires InOrder(xs)
    ensures InOrder(Insert(xs, x))
    ensures Insert(xs, x)[|xs|].size == if xs == [] then x.size else Max(x.size, xs[|xs| - 1].size)
    decreases |xs|
  {
    if xs != [] && xs[|xs| - 1].size > x.size {
      InsertKeepsOrder(xs[..|xs| - 1], x);
    }
  }

  lemma {:induction false} SortIsInOrder<T(!new)>(xs: seq<Sized<T>>)
    ensures InOrder(Sort(xs))
    decreases |xs|
  {
    if xs != [] {
      SortIsInOrder(xs[..|xs| - 1]);
      InsertKeepsOrder(Sort(xs[..|xs| - 1]), xs[|xs| - 1]);
    }
  }

  /** The elements of one size, in order. */
  function OfSize<T>(xs: seq<Sized<T>>, n: nat): seq<Sized<T>> {
    if xs == [] then []
    else OfSize(xs[..|xs| - 1], n) + (if xs[|xs| - 1].size == n then [xs[|xs| - 1]] else [])
  }

  lemma {:induction false} InsertIsStable<T(!new)>(xs: seq<Sized<T>>, x: Sized<T>, n: nat)
    requires InOrder(xs)
    ensures OfSize(Insert(xs, x), n) == OfSize(xs, n) + (if x.size == n then [x] else [])
    decreases |xs|
  {
    if xs == [] || xs[|xs| - 1].size <= x.size {
      assert (xs + [x])[..|xs|] == xs;
    } else {
      var front, last := xs[..|xs| - 1], xs[|xs| - 1];
      InsertIsStable(front, x, n);
      var r := Insert(front, x);
      assert (r + [last])[..|r|] == r;
      if last.size == n {
        assert x.size != n;
      }
    }
  }

  /** The sort is stable; with the order, this determines it. */
  lemma {:induction false} SortIsStable<T(!new)>(xs: seq<Sized<T>>, n: nat)
    ensures OfSize(Sort(xs), n) == OfSize(xs, n)
    decreases |xs|
  {
    if xs != [] {
      SortIsStable(xs[..|xs| - 1], n);
      SortIsInOrder(xs[..|xs| - 1]);
      InsertIsStable(Sort(xs[..|xs| - 1]), xs[|xs| - 1], n);
    }
  }
}
