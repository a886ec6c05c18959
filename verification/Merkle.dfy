/**
 * packages/core/src/merkle.ts: the Merkle tree of RFC 6962 section 2.1 over the
 * receipt hashes of a chain, its audit paths, and the loop that rebuilds a root
 * from a path (RFC 9162 section 2.1.3.2).
 */
module Merkle {
  import opened Prelude
  import opened PowersOfTwo

  type Entry = Bytes

  function LeafHash(entry: Entry): Digest { SHA256([0] + entry) }

  function NodeHash(left: Digest, right: Digest): Digest { SHA256([1] + left + right) }

  // ----- where a tree splits -----

  ghost predicate SplitsAt(n: nat, h: nat) { Pow2(h) < n <= 2 * Pow2(h) }

  /** The exponent of the split: the height of the perfect left subtree. */
  ghost function SplitHeight(n: nat): (h: nat)
    requires n >= 2
    ensures SplitsAt(n, h)
  {
    Log2(n - 1)
  }

  ghost function Split(n: nat): (k: nat)
    requires n >= 2
    ensures 1 <= k < n <= 2 * k
  {
    Pow2(SplitHeight(n))
  }

  lemma {:induction false} SplitUnique(n: nat, h: nat)
    requires n >= 2 && SplitsAt(n, h)
    ensures SplitHeight(n) == h
  {
    Log2Unique(n - 1, h);
  }

  /** The loop of splitPoint: the largest power of two strictly below n. */
  method SplitPoint(n: nat) returns (k: nat)
    requires n >= 2
    ensures k == Split(n)
    ensures IsPow2(k) && k < n && (forall j: nat :: IsPow2(j) && j < n ==> j <= k)
  {
    k := 1;
    ghost var h := 0;
    while k * 2 < n
      invariant k == Pow2(h) && k < n
    {
      k := k * 2;
      h := h + 1;
    }
    assert SplitsAt(n, h);
    SplitUnique(n, h);
    forall j: nat | IsPow2(j) && j < n
      ensures j <= k
    {
      var e: nat :| j == Pow2(e);
      if e > h {
        Pow2Monotone(h, e);
      } else {
        Pow2Monotone(e, h);
      }
    }
  }

  // ----- roots and audit paths -----

  ghost function Root(es: seq<Entry>): Digest {
    if |es| == 0 then SHA256([])
    else if |es| == 1 then LeafHash(es[0])
    else
      var k := Split(|es|);
      NodeHash(Root(es[..k]), Root(es[k..]))
  }

  ghost function PathLength(index: nat, size: nat): nat
    requires index < size
  {
    if size <= 1 then 0
    else
      var k := Split(size);
      1 + (if index < k then PathLength(index, k) else PathLength(index - k, size - k))
  }

  /** The audit path, sibling hashes from the leaf upwards. */
  ghost function Path(es: seq<Entry>, index: nat): (p: seq<Digest>)
    requires index < |es|
    ensures |p| == PathLength(index, |es|)
    decreases |es|
  {
    if |es| == 1 then []
    else
      var k := Split(|es|);
      if index < k then Path(es[..k], index) + [Root(es[k..])]
      else Path(es[k..], index - k) + [Root(es[..k])]
  }

  /** What an audit path means, by recursion on the split: its last step is the
      sibling just below the root. */
  ghost function PathRoot(node: Digest, index: nat, size: nat, proof: seq<Digest>): Digest
    requires index < size && |proof| == PathLength(index, size)
    decreases size
  {
    if size <= 1 then node
    else
      var k := Split(size);
      var top := proof[|proof| - 1];
      var rest := proof[..|proof| - 1];
      if index < k then NodeHash(PathRoot(node, index, k, rest), top)
      else NodeHash(top, PathRoot(node, index - k, size - k, rest))
  }

  /** An honest path rebuilds the root. */
  lemma {:induction false} PathRebuildsRoot(es: seq<Entry>, index: nat)
    requires index < |es|
    ensures PathRoot(LeafHash(es[index]), index, |es|, Path(es, index)) == Root(es)
    decreases |es|
  {
    hide LeafHash, NodeHash, Split;
    if |es| > 1 {
      var k := Split(|es|);
      var p := Path(es, index);
      if index < k {
        PathRebuildsRoot(es[..k], index);
        assert p[..|p| - 1] == Path(es[..k], index);
      } else {
        PathRebuildsRoot(es[k..], index - k);
        assert p[..|p| - 1] == Path(es[k..], index - k);
      }
    }
  }

  // ----- the verifier's walk -----

  /** What the loop of rootFromInclusionProof holds between two steps. */
  datatype Walk = Walk(node: Digest, leaf: nat, last: nat)

  /** The inner loop: both indices halved while the leaf index is even and not 0. */
  function SkipEven(leaf: nat, last: nat): (nat, nat)
    decreases leaf
  {
    if leaf != 0 && leaf % 2 == 0 then SkipEven(leaf / 2, last / 2) else (leaf, last)
  }

  function Step(w: Walk, sibling: Digest): Walk {
    if w.leaf == w.last || w.leaf % 2 == 1 then
      var (leaf, last) := SkipEven(w.leaf, w.last);
      Walk(NodeHash(sibling, w.node), leaf / 2, last / 2)
    else
      Walk(NodeHash(w.node, sibling), w.leaf / 2, w.last / 2)
  }

  function Steps(w: Walk, proof: seq<Digest>): Walk {
    if proof == [] then w else Step(Steps(w, proof[..|proof| - 1]), proof[|proof| - 1])
  }

  lemma {:induction false} SkipEvenIsShift(odd: nat, h: nat, last: nat)
    requires odd % 2 == 1
    ensures SkipEven(Shl(odd, h), last) == (odd, Shr(last, h))
    decreases h
  {
    if h > 0 {
      assert Shl(odd, h) >= 1 by { ShlPositive(odd, h); }
      assert Shl(odd, h) / 2 == Shl(odd, h - 1);
      SkipEvenIsShift(odd, h - 1, last / 2);
    }
  }

  /** The height at which a tree of n leaves is one node: the least h with n <= 2^h. */
  ghost function Height(n: nat): (h: nat)
    requires n >= 1
  {
    if n == 1 then 0 else SplitHeight(n) + 1
  }

  lemma {:induction false} HeightCovers(n: nat)
    requires n >= 1
    ensures n <= Pow2(Height(n))
  {
    if n > 1 {
      assert SplitsAt(n, SplitHeight(n));
    }
  }

  lemma {:induction false} HeightOfPerfect(h: nat)
    ensures Pow2(h) >= 1 && Height(Pow2(h)) == h
  {
    Pow2Monotone(0, h);
    if h > 0 {
      Pow2Monotone(0, h - 1);
      assert SplitsAt(Pow2(h), h - 1);
      SplitUnique(Pow2(h), h - 1);
    }
  }

  lemma {:induction false} HeightMonotone(m: nat, h: nat)
    requires 1 <= m <= Pow2(h)
    ensures Height(m) <= h
  {
    if m > 1 && SplitHeight(m) >= h {
      assert SplitsAt(m, SplitHeight(m));
      Pow2Monotone(h, SplitHeight(m));
    }
  }

  /** A subtree of `size` leaves that starts at leaf m * 2^Height(size) of a tree
      whose last leaf is `last`: either it reaches the right edge of that tree, or
      it is perfect and ends before it. Every subtree RFC 6962 splits off is one. */
  ghost predicate Placed(m: nat, size: nat, last: nat)
    requires size >= 1
  {
    OnEdge(m, size, last)
    || (size == Pow2(Height(size)) && last >= Shl(m, Height(size)) + size)
  }

  ghost predicate OnEdge(m: nat, size: nat, last: nat)
    requires size >= 1
  {
    last == Shl(m, Height(size)) + size - 1
  }

  /** The left part of a split is perfect, at an even place, and never on the edge. */
  lemma {:induction false} PlacedLeft(m: nat, size: nat, last: nat)
    requires size >= 2 && Placed(m, size, last)
    ensures Height(Split(size)) == SplitHeight(size)
    ensures Placed(2 * m, Split(size), last)
    ensures Shr(last, SplitHeight(size)) > 2 * m
    ensures Shr(last, SplitHeight(size)) == 2 * m + 1 || !OnEdge(m, size, last)
  {
    var h := SplitHeight(size);
    assert SplitsAt(size, h);
    HeightOfPerfect(h);
    ShlDouble(m, h);
    ShlAdd(2 * m, 1, h);
    ShrAtLeast(last, h, 2 * m + 1);
    if OnEdge(m, size, last) {
      ShrOfShl(2 * m + 1, h, size - 1 - Pow2(h));
    }
  }

  /** The right part starts at an odd multiple of 2^h, which is the multiple
      (2m+1) * 2^d of its own, possibly smaller, width. */
  lemma {:induction false} PlacedRight(m: nat, size: nat, last: nat) returns (d: nat)
    requires size >= 2 && Placed(m, size, last)
    ensures Height(size - Split(size)) + d == SplitHeight(size)
    ensures Shl(Shl(2 * m + 1, d), Height(size - Split(size))) == Shl(m, Height(size)) + Split(size)
    ensures Placed(Shl(2 * m + 1, d), size - Split(size), last)
    ensures OnEdge(m, size, last) ==> OnEdge(Shl(2 * m + 1, d), size - Split(size), last)
    ensures !OnEdge(m, size, last) ==> d == 0
  {
    var h := SplitHeight(size);
    assert SplitsAt(size, h);
    var g := Height(size - Split(size));
    HeightMonotone(size - Split(size), h);
    d := h - g;
    ShlMore(2 * m + 1, d, g);
    ShlDouble(m, h);
    ShlAdd(2 * m, 1, h);
    if !OnEdge(m, size, last) {
      HeightOfPerfect(h);
    }
  }

  /** One step up from a left part. */
  lemma {:induction false} StepFromLeft(w: Walk, m: nat, last: nat, h: nat, top: Digest)
    requires w.leaf == 2 * m && w.last == Shr(last, h) && w.last > 2 * m
    ensures Step(w, top) == Walk(NodeHash(w.node, top), m, Shr(last, h + 1))
  {
    ShrStep(last, h);
  }

  /** One step up from a right part: on the edge both indices are equal and the
      inner loop climbs the d levels the edge was promoted through; off the edge
      the leaf index is odd already. */
  lemma {:induction false} StepFromRight(w: Walk, m: nat, d: nat, last: nat, g: nat, top: Digest)
    requires w.leaf == Shl(2 * m + 1, d) && w.last == Shr(last, g)
    requires w.leaf == w.last || d == 0
    ensures Step(w, top) == Walk(NodeHash(top, w.node), m, Shr(last, g + d + 1))
  {
    SkipEvenIsShift(2 * m + 1, d, w.last);
    ShrMore(last, g, d);
    ShrStep(last, g + d);
  }

  /** The walk over one subtree's path, wherever the subtree lies, computes the
      recursive root of the subtree and leaves both indices shifted by its height. */
  ghost predicate WalkAgrees(node: Digest, m: nat, index: nat, size: nat, last: nat, proof: seq<Digest>)
    requires index < size && |proof| == PathLength(index, size)
  {
    Steps(Walk(node, Shl(m, Height(size)) + index, last), proof)
    == Walk(PathRoot(node, index, size, proof), m, Shr(last, Height(size)))
  }

  /** Before the last step of the path the walk has not reached the top. */
  ghost predicate StillBelow(node: Digest, m: nat, index: nat, size: nat, last: nat, proof: seq<Digest>)
    requires size >= 1 && |proof| >= 1
  {
    Steps(Walk(node, Shl(m, Height(size)) + index, last), proof[..|proof| - 1]).last > 0
  }

  lemma {:induction false} WalkIsPathRoot(node: Digest, m: nat, index: nat, size: nat, last: nat, proof: seq<Digest>)
    requires index < size && |proof| == PathLength(index, size) && Placed(m, size, last)
    ensures WalkAgrees(node, m, index, size, last, proof)
    ensures size >= 2 ==> StillBelow(node, m, index, size, last, proof)
    decreases size
  {
    if size == 1 {
      assert proof == [];
    } else if index < Split(size) {
      PlacedLeft(m, size, last);
      WalkIsPathRoot(node, 2 * m, index, Split(size), last, proof[..|proof| - 1]);
      WalkUpLeft(node, m, index, size, last, proof);
    } else {
      var k := Split(size);
      var d := PlacedRight(m, size, last);
      WalkIsPathRoot(node, Shl(2 * m + 1, d), index - k, size - k, last, proof[..|proof| - 1]);
      WalkUpRight(node, m, d, index, size, last, proof);
    }
  }

  lemma {:induction false} WalkUpLeft(node: Digest, m: nat, index: nat, size: nat, last: nat, proof: seq<Digest>)
    requires size >= 2 && index < Split(size) && |proof| == PathLength(index, size) && Placed(m, size, last)
    requires WalkAgrees(node, 2 * m, index, Split(size), last, proof[..|proof| - 1])
    ensures WalkAgrees(node, m, index, size, last, proof)
    ensures StillBelow(node, m, index, size, last, proof)
  {
    hide NodeHash, Shl, Shr;
    var h := SplitHeight(size);
    PlacedLeft(m, size, last);
    ShlDouble(m, h);
    StepFromLeft(Steps(Walk(node, Shl(2 * m, h) + index, last), proof[..|proof| - 1]), m, last, h, proof[|proof| - 1]);
  }

  lemma {:induction false} WalkUpRight(
      node: Digest, m: nat, d: nat, index: nat, size: nat, last: nat, proof: seq<Digest>)
    requires size >= 2 && Split(size) <= index < size && |proof| == PathLength(index, size) && Placed(m, size, last)
    requires var k := Split(size); var g := Height(size - k); var w := Shl(2 * m + 1, d);
             g + d == SplitHeight(size) && Shl(w, g) == Shl(m, Height(size)) + k && Placed(w, size - k, last)
             && (d == 0 || OnEdge(w, size - k, last))
    requires WalkAgrees(node, Shl(2 * m + 1, d), index - Split(size), size - Split(size), last, proof[..|proof| - 1])
    ensures WalkAgrees(node, m, index, size, last, proof)
    ensures StillBelow(node, m, index, size, last, proof)
  {
    hide NodeHash, Shl, Shr;
    var k := Split(size);
    var g := Height(size - k);
    var w := Shl(2 * m + 1, d);
    var rest, top := proof[..|proof| - 1], proof[|proof| - 1];
    var below := Steps(Walk(node, Shl(w, g) + (index - k), last), rest);
    assert below.last == Shr(last, g) >= w && (d == 0 || below.last == w) by { EdgeMeets(w, size - k, last); }
    assert w >= 1 by { ShlPositive(2 * m + 1, d); }
    assert Step(below, top) == Walk(NodeHash(top, below.node), m, Shr(last, g + d + 1)) by {
      StepFromRight(below, m, d, last, g, top);
    }
    assert Walk(node, Shl(m, Height(size)) + index, last) == Walk(node, Shl(w, g) + (index - k), last);
  }

  lemma {:induction false} EdgeMeets(m: nat, size: nat, last: nat)
    requires size >= 1 && Placed(m, size, last)
    ensures Shr(last, Height(size)) >= m
    ensures OnEdge(m, size, last) ==> Shr(last, Height(size)) == m
  {
    HeightCovers(size);
    ShrAtLeast(last, Height(size), m);
    if OnEdge(m, size, last) {
      ShrOfShl(m, Height(size), size - 1);
    }
  }

  // ----- the walk from the leaf to the root -----

  function Start(entry: Entry, index: nat, size: nat): Walk
    requires index < size
  {
    Walk(LeafHash(entry), index, size - 1)
  }

  /** The loop over a path of the expected length rebuilds the recursive root and
      ends with both indices at the root. */
  lemma {:induction false} WalkRebuildsRoot(entry: Entry, index: nat, size: nat, proof: seq<Digest>)
    requires index < size && |proof| == PathLength(index, size)
    ensures Steps(Start(entry, index, size), proof)
            == Walk(PathRoot(LeafHash(entry), index, size, proof), 0, 0)
  {
    ShlPositive(0, Height(size));
    assert Placed(0, size, size - 1);
    WalkIsPathRoot(LeafHash(entry), 0, index, size, size - 1, proof);
    EdgeMeets(0, size, size - 1);
  }

  lemma {:induction false} SkipEvenKeepsTop(leaf: nat)
    ensures SkipEven(leaf, 0).1 == 0
    decreases leaf
  {
    if leaf != 0 && leaf % 2 == 0 {
      SkipEvenKeepsTop(leaf / 2);
    }
  }

  lemma {:induction false} TopIsFinal(w: Walk, proof: seq<Digest>, j: nat)
    requires j <= |proof| && Steps(w, proof[..j]).last == 0
    ensures Steps(w, proof).last == 0
    decreases |proof| - j
  {
    if j < |proof| {
      TakeStep(proof, j);
      SkipEvenKeepsTop(Steps(w, proof[..j]).leaf);
      assert proof[..j + 1][..j] == proof[..j];
      TopIsFinal(w, proof, j + 1);
    } else {
      assert proof[..j] == proof;
    }
  }

  /** The loop never reaches the root with steps left over. */
  lemma {:induction false} NeverAtTheTopEarly(entry: Entry, index: nat, size: nat, proof: seq<Digest>, j: nat)
    requires index < size && |proof| == PathLength(index, size) && j < |proof|
    ensures Steps(Start(entry, index, size), proof[..j]).last > 0
  {
    var rest := proof[..|proof| - 1];
    assert rest[..j] == proof[..j];
    assert Steps(Start(entry, index, size), rest).last > 0 by {
      ShlPositive(0, Height(size));
      assert Placed(0, size, size - 1);
      WalkIsPathRoot(LeafHash(entry), 0, index, size, size - 1, proof);
      assert StillBelow(LeafHash(entry), 0, index, size, size - 1, proof);
    }
    if Steps(Start(entry, index, size), proof[..j]).last == 0 {
      TopIsFinal(Start(entry, index, size), rest, j);
    }
  }

  // ----- the code -----

  /** merkleRoot */
  method MerkleRoot(es: seq<Entry>) returns (root: Digest)
    ensures root == Root(es)
    decreases |es|
  {
    if |es| == 0 {
      return SHA256([]);
    }
    if |es| == 1 {
      return LeafHash(es[0]);
    }
    var k := SplitPoint(|es|);
    var left := MerkleRoot(es[..k]);
    var right := MerkleRoot(es[k..]);
    root := NodeHash(left, right);
  }

  /** inclusionProof: refused exactly when the index is outside the tree. */
  method InclusionProof(es: seq<Entry>, index: int) returns (r: Result<seq<Digest>, ProofError>)
    ensures 0 <= index < |es| ==> r == Ok(Path(es, index))
    ensures !(0 <= index < |es|) ==> r == Err(NotInTree)
    decreases |es|
  {
    hide Root, PathLength;
    if index < 0 || index >= |es| {
      return Err(NotInTree);
    }
    if |es| == 1 {
      return Ok([]);
    }
    var k := SplitPoint(|es|);
    if index < k {
      var inner := InclusionProof(es[..k], index);
      var sibling := MerkleRoot(es[k..]);
      r := Ok(inner.value + [sibling]);
    } else {
      var inner := InclusionProof(es[k..], index - k);
      var sibling := MerkleRoot(es[..k]);
      r := Ok(inner.value + [sibling]);
    }
  }

  method AuditPathLength(index: nat, treeSize: nat) returns (length: nat)
    requires index < treeSize
    ensures length == PathLength(index, treeSize)
    decreases treeSize
  {
    if treeSize <= 1 {
      return 0;
    }
    var k := SplitPoint(treeSize);
    if index < k {
      length := AuditPathLength(index, k);
    } else {
      length := AuditPathLength(index - k, treeSize - k);
    }
    length := 1 + length;
  }

  datatype ProofError = NotInTree | WrongLength | StepNotADigest

  /** A proof as it arrives: any number of steps, each of any length. */
  predicate AllDigests(proof: seq<Bytes>) { forall j :: 0 <= j < |proof| ==> |proof[j]| == 32 }

  /** What rootFromInclusionProof answers, by the recursion on the split. */
  ghost function RootFromProof(entry: Entry, index: int, treeSize: int, proof: seq<Bytes>): Result<Digest, ProofError> {
    if !(0 <= index < treeSize) then Err(NotInTree)
    else if |proof| != PathLength(index, treeSize) then Err(WrongLength)
    else if !AllDigests(proof) then Err(StepNotADigest)
    else Ok(PathRoot(LeafHash(entry), index, treeSize, proof))
  }

  /** rootFromInclusionProof: the loop over leafIndex and lastIndex. */
  method RootFromInclusionProof(entry: Entry, index: int, treeSize: int, proof: seq<Bytes>)
    returns (r: Result<Digest, ProofError>)
    ensures r == RootFromProof(entry, index, treeSize, proof)
  {
    if index < 0 || index >= treeSize {
      return Err(NotInTree);
    }
    var expected := AuditPathLength(index, treeSize);
    if |proof| != expected {
      return Err(WrongLength);
    }
    var node := LeafHash(entry);
    var leafIndex: nat := index;
    var lastIndex: nat := treeSize - 1;
    for j := 0 to |proof|
      invariant AllDigests(proof[..j])
      invariant Walk(node, leafIndex, lastIndex) == Steps(Start(entry, index, treeSize), proof[..j])
    {
      var sibling := proof[j];
      TakeStep(proof, j);
      if |sibling| != 32 {
        return Err(StepNotADigest);
      }
      assert proof[..j + 1][..j] == proof[..j];
      if leafIndex == lastIndex || leafIndex % 2 == 1 {
        node := NodeHash(sibling, node);
        ghost var skipped := SkipEven(leafIndex, lastIndex);
        while leafIndex != 0 && leafIndex % 2 == 0
          invariant SkipEven(leafIndex, lastIndex) == skipped
        {
          leafIndex := leafIndex / 2;
          lastIndex := lastIndex / 2;
        }
      } else {
        node := NodeHash(node, sibling);
      }
      leafIndex := leafIndex / 2;
      lastIndex := lastIndex / 2;
    }
    assert proof[..|proof|] == proof;
    WalkRebuildsRoot(entry, index, treeSize, proof);
    return Ok(node);
  }

  /** Every honest proof is accepted and rebuilds the tree's root. */
  lemma {:induction false} HonestProofRebuildsRoot(es: seq<Entry>, index: nat)
    requires index < |es|
    ensures RootFromProof(es[index], index, |es|, Path(es, index)) == Ok(Root(es))
  {
    PathRebuildsRoot(es, index);
  }
}
