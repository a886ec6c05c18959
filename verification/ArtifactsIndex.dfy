/**
 * packages/verifier/src/verify.ts, step 9: the artifacts index against what the
 * receipts declare. They are compared as two texts, the sorted keys of each joined by
 * newlines; what that says of the two lists, and where it says less than it should.
 */
module ArtifactsIndex {
  import opened Prelude
  import opened Hex
  import opened Receipts
  import opened Verifier
  import opened Archive

  /** Decimal digits tell two numbers apart and hold no separator. */
  ghost predicate Decimals() {
    forall m, n :: Apart(Decimal(m), '\0') && Apart(Decimal(m), '\n') && (Decimal(m) == Decimal(n) ==> m == n)
  }

  /** Sorting keeps the strings and depends on nothing else. */
  ghost predicate Sorts() {
    && (forall xs :: multiset(Sorted(xs)) == multiset(xs))
    && (forall xs, ys :: multiset(xs) == multiset(ys) ==> Sorted(xs) == Sorted(ys))
  }

  predicate Apart(s: string, c: char) { c !in s }

  /** As the schema has it: the one canonicalization rule has a name without separators. */
  predicate IsOfSchema(a: Artifact) {
    a.text.Some? ==> a.text.value.0 != "" && Apart(a.text.value.0, '\0') && Apart(a.text.value.0, '\n')
  }

  /** The label, which the schema leaves free, holds no newline. */
  predicate IsOneLine(a: Artifact) { IsOfSchema(a) && Apart(a.lbl, '\n') }

  ghost predicate AreOneLine(es: seq<IndexEntry>) { forall i :: 0 <= i < |es| ==> IsOneLine(es[i].artifact) }

  // ----- one key -----

  lemma {:induction false} FirstPart(a: string, x: string, b: string, y: string, c: char)
    requires Apart(a, c) && Apart(b, c) && a + [c] + x == b + [c] + y
    ensures a == b && x == y
  {
    var all := a + [c] + x;
    assert all[|a|] == c && all[|b|] == c;
    assert forall i :: 0 <= i < |a| ==> all[i] == a[i];
    assert forall i :: 0 <= i < |b| ==> all[i] == b[i];
    assert |a| == |b|;
    assert a == all[..|a|] && b == all[..|b|];
    assert x == all[|a| + 1..] && y == all[|b| + 1..];
  }

  lemma {:induction false} LastPart(x: string, a: string, y: string, b: string, c: char)
    requires Apart(a, c) && Apart(b, c) && x + [c] + a == y + [c] + b
    ensures x == y && a == b
  {
    var all := x + [c] + a;
    assert all[|x|] == c && all[|y|] == c;
    assert forall i :: |x| < i < |all| ==> all[i] == a[i - |x| - 1];
    assert forall i :: |y| < i < |all| ==> all[i] == b[i - |y| - 1];
    assert |x| == |y|;
    assert x == all[..|x|] && y == all[..|y|];
    assert a == all[|x| + 1..] && b == all[|y| + 1..];
  }

  lemma {:induction false} HexIsApart(bytes: Bytes)
    ensures Apart(ToHex(bytes), '\0') && Apart(ToHex(bytes), '\n')
  {
  }

  lemma {:induction false} HexTellsApart(a: Bytes, b: Bytes)
    requires ToHex(a) == ToHex(b)
    ensures a == b
  {
    FromToHex(a);
    FromToHex(b);
  }

  function CanonOf(a: Artifact): string { if a.text.Some? then a.text.value.0 else "" }

  function TextOf(a: Artifact): string { if a.text.Some? then ToHex(a.text.value.1) else "" }

  /** What follows the label. */
  function AfterLabel(a: Artifact): string { "\0" + ToHex(a.sha256) + "\0" + CanonOf(a) + "\0" + TextOf(a) }

  /** The key, its parts written out. */
  lemma {:induction false} KeyIs(s: nat, a: Artifact)
    ensures ArtifactKey(s, a) ==
            Decimal(s) + "\0" + (RoleName(a.role) + "\0" + (a.lbl + AfterLabel(a)))
  {
    hide ToHex, Decimal, RoleName;
    var parts := [Decimal(s), RoleName(a.role), a.lbl, ToHex(a.sha256), CanonOf(a), TextOf(a)];
    assert Join(parts[4..], '\0') == CanonOf(a) + "\0" + TextOf(a);
    assert parts[3..][1..] == parts[4..] && parts[2..][1..] == parts[3..] && parts[1..][1..] == parts[2..];
    assert Join(parts[3..], '\0') == ToHex(a.sha256) + "\0" + Join(parts[4..], '\0');
    assert Join(parts[2..], '\0') == a.lbl + "\0" + Join(parts[3..], '\0');
    assert Join(parts[1..], '\0') == RoleName(a.role) + "\0" + Join(parts[2..], '\0');
  }

  /** Two artifacts with one key are the same, at the same position. */
  lemma {:induction false} KeyTellsApart(s: nat, a: Artifact, t: nat, b: Artifact)
    requires Decimals() && IsOfSchema(a) && IsOfSchema(b)
    requires ArtifactKey(s, a) == ArtifactKey(t, b)
    ensures s == t && a == b
  {
    hide ArtifactKey, AfterLabel;
    KeyIs(s, a);
    KeyIs(t, b);
    var x, y := a.lbl + AfterLabel(a), b.lbl + AfterLabel(b);
    FirstPart(Decimal(s), RoleName(a.role) + "\0" + x, Decimal(t), RoleName(b.role) + "\0" + y, '\0');
    FirstPart(RoleName(a.role), x, RoleName(b.role), y, '\0');
    TailTellsApart(a, b);
    assert RoleName(Input) != RoleName(Output) by { assert |RoleName(Input)| == 5 && |RoleName(Output)| == 6; }
  }

  lemma {:induction false} LabelFirst(a: Artifact)
    ensures a.lbl + AfterLabel(a) == a.lbl + "\0" + ToHex(a.sha256) + "\0" + CanonOf(a) + "\0" + TextOf(a)
    ensures Apart(ToHex(a.sha256), '\0') && Apart(TextOf(a), '\0')
    ensures IsOfSchema(a) ==> Apart(CanonOf(a), '\0') && (a.text.Some? <==> CanonOf(a) != "")
  {
    hide ToHex;
    HexIsApart(a.sha256);
    if a.text.Some? { HexIsApart(a.text.value.1); }
  }

  lemma {:induction false} TailTellsApart(a: Artifact, b: Artifact)
    requires IsOfSchema(a) && IsOfSchema(b)
    requires a.lbl + AfterLabel(a) == b.lbl + AfterLabel(b)
    ensures a.lbl == b.lbl && a.sha256 == b.sha256 && a.text == b.text
  {
    hide ToHex, IsOfSchema, AfterLabel;
    var p, q := a.lbl + "\0" + ToHex(a.sha256), b.lbl + "\0" + ToHex(b.sha256);
    LabelFirst(a);
    LabelFirst(b);
    LastPart(p + "\0" + CanonOf(a), TextOf(a), q + "\0" + CanonOf(b), TextOf(b), '\0');
    LastPart(p, CanonOf(a), q, CanonOf(b), '\0');
    LastPart(a.lbl, ToHex(a.sha256), b.lbl, ToHex(b.sha256), '\0');
    HexTellsApart(a.sha256, b.sha256);
    if a.text.Some? && b.text.Some? { HexTellsApart(a.text.value.1, b.text.value.1); }
  }

  lemma {:induction false} KeyIsOneLine(s: nat, a: Artifact)
    requires Decimals() && IsOneLine(a)
    ensures ArtifactKey(s, a) != "" && Apart(ArtifactKey(s, a), '\n')
  {
    hide ArtifactKey, ToHex;
    KeyIs(s, a);
    HexIsApart(a.sha256);
    if a.text.Some? { HexIsApart(a.text.value.1); }
    assert Apart(Decimal(s), '\n');
  }

  // ----- the joined keys -----

  ghost predicate AreLines(xs: seq<string>) { forall x :: x in xs ==> x != "" && Apart(x, '\n') }

  lemma {:induction false} JoinOfSeveral(xs: seq<string>)
    requires AreLines(xs)
    ensures Apart(Join(xs, '\n'), '\n') <==> |xs| <= 1
    ensures Join(xs, '\n') == "" <==> xs == []
  {
    assert xs != [] ==> xs[0] in xs;
    if |xs| > 1 {
      assert Join(xs, '\n')[|xs[0]|] == '\n';
    }
  }

  /** Lines joined are told apart, one from the other. */
  lemma {:induction false} JoinTellsApart(xs: seq<string>, ys: seq<string>)
    requires AreLines(xs) && AreLines(ys) && Join(xs, '\n') == Join(ys, '\n')
    ensures xs == ys
    decreases |xs|
  {
    JoinOfSeveral(xs);
    JoinOfSeveral(ys);
    if |xs| > 1 {
      assert xs[0] in xs && ys[0] in ys;
      FirstPart(xs[0], Join(xs[1..], '\n'), ys[0], Join(ys[1..], '\n'), '\n');
      assert (forall x :: x in xs[1..] ==> x in xs) && (forall y :: y in ys[1..] ==> y in ys);
      JoinTellsApart(xs[1..], ys[1..]);
      assert xs == [xs[0]] + xs[1..] && ys == [ys[0]] + ys[1..];
    }
  }

  lemma {:induction false} SortJoinTellsApart(xs: seq<string>, ys: seq<string>)
    requires Sorts() && AreLines(xs) && AreLines(ys)
    ensures SortJoin(xs) == SortJoin(ys) <==> multiset(xs) == multiset(ys)
  {
    hide Join;
    SortedAreLines(xs);
    SortedAreLines(ys);
    if SortJoin(xs) == SortJoin(ys) {
      JoinTellsApart(Sorted(xs), Sorted(ys));
      assert multiset(xs) == multiset(Sorted(xs));
    }
  }

  lemma {:induction false} SortedAreLines(xs: seq<string>)
    requires Sorts() && AreLines(xs)
    ensures AreLines(Sorted(xs))
  {
    forall x | x in Sorted(xs)
      ensures x in xs
    {
      assert x in multiset(Sorted(xs));
      assert x in multiset(xs);
    }
  }

  // ----- the keys of a list of entries -----

  lemma {:induction false} KeyOfEach(es: seq<IndexEntry>)
    ensures |IndexedArtifacts(es)| == |es|
    ensures forall i :: 0 <= i < |es| ==> IndexedArtifacts(es)[i] == ArtifactKey(es[i].seq_, es[i].artifact)
    decreases |es|
  {
    hide ArtifactKey;
    if es != [] {
      KeyOfEach(es[..|es| - 1]);
    }
  }

  /** As often as the entry, so often its key. */
  lemma {:induction false} KeyCounts(es: seq<IndexEntry>, e: IndexEntry)
    requires Decimals() && AreOneLine(es) && IsOneLine(e.artifact)
    ensures multiset(IndexedArtifacts(es))[ArtifactKey(e.seq_, e.artifact)] == multiset(es)[e]
    decreases |es|
  {
    hide ArtifactKey, Decimals;
    if es != [] {
      var front, last := es[..|es| - 1], es[|es| - 1];
      assert es == front + [last];
      KeyCounts(front, e);
      if ArtifactKey(last.seq_, last.artifact) == ArtifactKey(e.seq_, e.artifact) {
        KeyTellsApart(last.seq_, last.artifact, e.seq_, e.artifact);
        assert last == e;
      }
    }
  }

  lemma {:induction false} SameKeysIff(xs: seq<IndexEntry>, ys: seq<IndexEntry>)
    requires Decimals() && AreOneLine(xs) && AreOneLine(ys)
    ensures multiset(IndexedArtifacts(xs)) == multiset(IndexedArtifacts(ys)) <==> multiset(xs) == multiset(ys)
  {
    hide IndexedArtifacts, ArtifactKey, Decimals;
    var p, q := IndexedArtifacts(xs), IndexedArtifacts(ys);
    if multiset(p) == multiset(q) {
      forall e
        ensures multiset(xs)[e] == multiset(ys)[e]
      {
        if e in xs || e in ys {
          KeyCounts(xs, e);
          KeyCounts(ys, e);
        }
      }
    }
    if multiset(xs) == multiset(ys) {
      forall k
        ensures multiset(p)[k] == multiset(q)[k]
      {
        SameCountOfKey(xs, ys, k);
        SameCountOfKey(ys, xs, k);
      }
    }
  }

  lemma {:induction false} SameCountOfKey(xs: seq<IndexEntry>, ys: seq<IndexEntry>, k: string)
    requires Decimals() && AreOneLine(xs) && AreOneLine(ys) && multiset(xs) == multiset(ys)
    ensures k in IndexedArtifacts(xs) ==> multiset(IndexedArtifacts(xs))[k] == multiset(IndexedArtifacts(ys))[k]
  {
    hide ArtifactKey, Decimals;
    KeyOfEach(xs);
    if k in IndexedArtifacts(xs) {
      var i :| 0 <= i < |xs| && IndexedArtifacts(xs)[i] == k;
      KeyCounts(xs, xs[i]);
      KeyCounts(ys, xs[i]);
    }
  }

  lemma {:induction false} EntriesAreLines(es: seq<IndexEntry>)
    requires Decimals() && AreOneLine(es)
    ensures AreLines(IndexedArtifacts(es))
  {
    hide ArtifactKey, Decimals;
    KeyOfEach(es);
    forall x | x in IndexedArtifacts(es)
      ensures x != "" && Apart(x, '\n')
    {
      var i :| 0 <= i < |es| && IndexedArtifacts(es)[i] == x;
      KeyIsOneLine(es[i].seq_, es[i].artifact);
    }
  }

  // ----- what the receipts declare -----

  /** How often the receipt at position s declares the artifact; one of version 1 declares none. */
  ghost function TimesDeclared(rs: seq<Receipt>, s: nat, a: Artifact): nat
    requires |rs| > 0
  {
    var from := rs[0].body.seq_;
    if from <= s < from + |rs| && rs[s - from].body.v != 1 then multiset(rs[s - from].body.artifacts)[a] else 0
  }

  lemma {:induction false} LinesCount(s: nat, artifacts: seq<Artifact>, e: IndexEntry)
    ensures multiset(IndexLines(s, artifacts))[e] == if e.seq_ == s then multiset(artifacts)[e.artifact] else 0
    decreases |artifacts|
  {
    if artifacts != [] {
      var front, last := artifacts[..|artifacts| - 1], artifacts[|artifacts| - 1];
      assert artifacts == front + [last];
      LinesCount(s, front, e);
    }
  }

  lemma {:induction false} IndexCounts(rs: seq<Receipt>, e: IndexEntry)
    requires SequenceOk(rs) && |rs| > 0
    ensures multiset(IndexOf(rs))[e] == TimesDeclared(rs, e.seq_, e.artifact)
    decreases |rs|
  {
    hide IndexLines;
    var front, last := rs[..|rs| - 1], rs[|rs| - 1];
    if last.body.v != 1 {
      LinesCount(last.body.seq_, last.body.artifacts, e);
    }
    assert last.body.seq_ == rs[0].body.seq_ + |front|;
    if front != [] {
      IndexCounts(front, e);
    }
  }

  ghost predicate DeclareOneLines(rs: seq<Receipt>) {
    forall i, j :: 0 <= i < |rs| && 0 <= j < |rs[i].body.artifacts| ==> IsOneLine(rs[i].body.artifacts[j])
  }

  lemma {:induction false} DeclaredAreOneLine(rs: seq<Receipt>)
    requires SequenceOk(rs) && |rs| > 0 && DeclareOneLines(rs)
    ensures AreOneLine(IndexOf(rs))
  {
    hide IndexOf;
    forall i | 0 <= i < |IndexOf(rs)|
      ensures IsOneLine(IndexOf(rs)[i].artifact)
    {
      var e := IndexOf(rs)[i];
      IndexCounts(rs, e);
      assert e in multiset(IndexOf(rs));
      var r := rs[e.seq_ - rs[0].body.seq_];
      assert e.artifact in multiset(r.body.artifacts);
      var j :| 0 <= j < |r.body.artifacts| && r.body.artifacts[j] == e.artifact;
    }
  }

  /**
   * Where no label holds a newline, the index passes exactly when it lists every
   * artifact at its position as often as the receipt there declares it, and nothing else.
   */
  lemma {:induction false} IndexIsExact(rs: seq<Receipt>, lines: seq<Line<IndexEntry>>)
    requires Decimals() && Sorts() && SequenceOk(rs) && |rs| > 0
    requires DeclareOneLines(rs) && (AllParsed(lines) ==> AreOneLine(Values(lines)))
    ensures IndexFailure(rs, lines).None? <==>
            && AllParsed(lines)
            && forall s: nat, a: Artifact :: multiset(Values(lines))[IndexEntry(s, a)] == TimesDeclared(rs, s, a)
  {
    hide Decimals, Sorts, SequenceOk, DeclareOneLines, AreOneLine, Values, IndexOf, IndexedArtifacts, DeclaredArtifacts,
      SortJoin, TimesDeclared;
    var declared := IndexOf(rs);
    DeclaredAreOneLine(rs);
    IndexIsDeclared(rs);
    forall e: IndexEntry
      ensures multiset(declared)[e] == TimesDeclared(rs, e.seq_, e.artifact)
    {
      IndexCounts(rs, e);
    }
    if AllParsed(lines) {
      var indexed := Values(lines);
      SameKeysIff(declared, indexed);
      EntriesAreLines(declared);
      EntriesAreLines(indexed);
      SortJoinTellsApart(IndexedArtifacts(declared), IndexedArtifacts(indexed));
      SameCountsIff(indexed, rs, declared);
    }
  }

  lemma {:induction false} SameCountsIff(indexed: seq<IndexEntry>, rs: seq<Receipt>, declared: seq<IndexEntry>)
    requires |rs| > 0
    requires forall e: IndexEntry :: multiset(declared)[e] == TimesDeclared(rs, e.seq_, e.artifact)
    ensures multiset(indexed) == multiset(declared) <==>
            forall s: nat, a: Artifact :: multiset(indexed)[IndexEntry(s, a)] == TimesDeclared(rs, s, a)
  {
    hide TimesDeclared;
    if forall s: nat, a: Artifact :: multiset(indexed)[IndexEntry(s, a)] == TimesDeclared(rs, s, a) {
      forall e: IndexEntry
        ensures multiset(indexed)[e] == multiset(declared)[e]
      {
        assert e == IndexEntry(e.seq_, e.artifact);
      }
    }
  }

  // ----- where a label holds a newline -----

  /** Where it does, it need not: a receipt that declares two artifacts has an index of one entry that
      passes, its label all that stands between the first label and the second, both included. Of two
      short labels it is no longer than the schema allows. */
  lemma {:induction false} OneEntryPassesForTwo(r: Receipt) returns (e: IndexEntry)
    requires Sorts() && r.body.v != 1 && |r.body.artifacts| == 2
    ensures '\n' in e.artifact.lbl
    ensures IndexFailure([r], [Parsed(e)]).None?
    ensures var a, b := r.body.artifacts[0], r.body.artifacts[1];
            a.text.None? && b.text.None? ==> |e.artifact.lbl| <= |a.lbl| + |b.lbl| + |Decimal(r.body.seq_)| + 76
  {
    hide ArtifactKey, ToHex;
    var s := r.body.seq_;
    var k, l := ArtifactKey(s, r.body.artifacts[0]), ArtifactKey(s, r.body.artifacts[1]);
    var sorted := Sorted([k, l]);
    DeclaredOfOne(r);
    assert sorted == [k, l] || sorted == [l, k] by { TwoSorted(k, l); }
    var a, b := r.body.artifacts[0], r.body.artifacts[1];
    if sorted != [k, l] {
      a, b := b, a;
    }
    e := BetweenTwo(s, a, b);
    OneSorted(ArtifactKey(s, e.artifact));
    assert IndexedArtifacts([e]) == [ArtifactKey(s, e.artifact)] by { assert [e][..0] == []; }
    assert Values([Parsed(e)]) == [e];
    assert sorted[1..] == [ArtifactKey(s, b)];
    assert Join(sorted, '\n') == ArtifactKey(s, a) + "\n" + ArtifactKey(s, b);
  }

  lemma {:induction false} DeclaredOfOne(r: Receipt)
    requires r.body.v != 1 && |r.body.artifacts| == 2
    ensures DeclaredArtifacts([r])
              == [ArtifactKey(r.body.seq_, r.body.artifacts[0]), ArtifactKey(r.body.seq_, r.body.artifacts[1])]
  {
    hide ArtifactKey;
    var artifacts := r.body.artifacts;
    assert [r][..0] == [] && artifacts[..1][..0] == [];
    assert ArtifactKeys(r.body.seq_, artifacts[..1]) == [ArtifactKey(r.body.seq_, artifacts[0])];
  }

  lemma {:induction false} TwoSorted(k: string, l: string)
    requires Sorts()
    ensures Sorted([k, l]) == [k, l] || Sorted([k, l]) == [l, k]
  {
    var s := Sorted([k, l]);
    assert multiset(s) == multiset([k, l]);
    assert |s| == |multiset(s)| == 2;
    assert s == [s[0], s[1]];
    assert s[0] in multiset(s) && s[1] in multiset(s);
    assert multiset([k, l])[k] >= 1 && multiset([k, l])[l] >= 1;
  }

  lemma {:induction false} OneSorted(k: string)
    requires Sorts()
    ensures Sorted([k]) == [k]
  {
    var s := Sorted([k]);
    assert multiset(s) == multiset([k]);
    assert |s| == |multiset(s)| == 1;
    assert s[0] in multiset(s);
  }

  lemma {:induction false} Regroup(d: string, r: string, x: string, q: string, l: string, t: string)
    ensures d + "\0" + (r + "\0" + ((x + "\n" + d + "\0" + q + "\0" + l) + t))
            == (d + "\0" + (r + "\0" + x)) + "\n" + (d + "\0" + (q + "\0" + (l + t)))
  {
    var y := d + "\0" + (q + "\0" + (l + t));
    assert (x + "\n" + d + "\0" + q + "\0" + l) + t == x + "\n" + y;
    assert r + "\0" + (x + "\n" + y) == (r + "\0" + x) + "\n" + y;
  }

  /** An artifact whose key is the keys of a and of b, a newline between them. */
  lemma {:induction false} BetweenTwo(s: nat, a: Artifact, b: Artifact) returns (e: IndexEntry)
    ensures e.seq_ == s && '\n' in e.artifact.lbl
    ensures ArtifactKey(s, e.artifact) == ArtifactKey(s, a) + "\n" + ArtifactKey(s, b)
    ensures a.text.None? ==> |e.artifact.lbl| <= |a.lbl| + |b.lbl| + |Decimal(s)| + 76
  {
    hide ArtifactKey;
    var x := a.lbl + AfterLabel(a);
    var lbl := x + "\n" + Decimal(s) + "\0" + RoleName(b.role) + "\0" + b.lbl;
    assert lbl[|x|] == '\n';
    e := IndexEntry(s, Artifact(a.role, lbl, b.sha256, b.text));
    KeyIs(s, e.artifact);
    KeyIs(s, a);
    KeyIs(s, b);
    assert AfterLabel(e.artifact) == AfterLabel(b);
    hide AfterLabel;
    Regroup(Decimal(s), RoleName(a.role), x, RoleName(b.role), b.lbl, AfterLabel(b));
  }
}
