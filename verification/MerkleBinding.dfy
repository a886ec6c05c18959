/**
 * What a Merkle root pins down. SHA-256 is not assumed injective: from any two
 * lists, or any two audit paths, that share a root and differ, a pair of
 * different messages with one digest is computed.
 */
module MerkleBinding {
  import opened Prelude
  import opened Merkle

  /** The message whose digest a tree's root is. */
  ghost function Preimage(es: seq<Entry>): (m: Bytes)
    ensures SHA256(m) == Root(es)
  {
    if |es| == 0 then []
    else if |es| == 1 then [0] + es[0]
    else
      var k := Split(|es|);
      [1] + Root(es[..k]) + Root(es[k..])
  }

  /** Equal node messages have equal children: 32 bytes each after the prefix. */
  lemma {:induction false} NodeMessageSplits(l1: Digest, r1: Digest, l2: Digest, r2: Digest)
    requires [1] + l1 + r1 == [1] + l2 + r2
    ensures l1 == l2 && r1 == r2
  {
    var m1, m2 := [1] + l1 + r1, [1] + l2 + r2;
    assert l1 == m1[1..33] && l2 == m2[1..33];
    assert r1 == m1[33..] && r2 == m2[33..];
  }

  lemma {:induction false} LeafMessageSplits(e1: Entry, e2: Entry)
    requires [0 as byte] + e1 == [0] + e2
    ensures e1 == e2
  {
    assert e1 == ([0 as byte] + e1)[1..] && e2 == ([0 as byte] + e2)[1..];
  }

  /** From two different lists with one root, of whatever sizes, a collision. */
  ghost function TreeCollision(xs: seq<Entry>, ys: seq<Entry>): (c: Collision)
    requires Root(xs) == Root(ys) && xs != ys
    ensures c.IsReal()
    decreases |xs|
  {
    if Preimage(xs) != Preimage(ys) then
      Collision(Preimage(xs), Preimage(ys))
    else
      SamePreimageSameShape(xs, ys);
      var j, k := Split(|xs|), Split(|ys|);
      SamePreimageSameChildren(xs, ys);
      if xs[..j] != ys[..k] then TreeCollision(xs[..j], ys[..k]) else TreeCollision(xs[j..], ys[k..])
  }

  lemma {:induction false} SamePreimageSameShape(xs: seq<Entry>, ys: seq<Entry>)
    requires Preimage(xs) == Preimage(ys) && xs != ys
    ensures |xs| >= 2 && |ys| >= 2
  {
    var m := Preimage(xs);
    if |xs| >= 2 {
      assert m[0] == 1;
    }
    if |ys| >= 2 {
      assert m[0] == 1;
    }
    if |xs| == 1 {
      assert m[0] == 0;
    }
    if |ys| == 1 {
      assert m[0] == 0;
    }
    if |xs| == 1 && |ys| == 1 {
      LeafMessageSplits(xs[0], ys[0]);
    }
  }

  lemma {:induction false} SamePreimageSameChildren(xs: seq<Entry>, ys: seq<Entry>)
    requires |xs| >= 2 && |ys| >= 2 && Preimage(xs) == Preimage(ys) && xs != ys
    ensures var j, k := Split(|xs|), Split(|ys|);
            Root(xs[..j]) == Root(ys[..k]) && Root(xs[j..]) == Root(ys[k..])
            && (xs[..j] != ys[..k] || xs[j..] != ys[k..])
  {
    var j, k := Split(|xs|), Split(|ys|);
    NodeMessageSplits(Root(xs[..j]), Root(xs[j..]), Root(ys[..k]), Root(ys[k..]));
    assert xs == xs[..j] + xs[j..] && ys == ys[..k] + ys[k..];
  }

  /** merkleRoot is binding. */
  lemma {:induction false} RootBinds(xs: seq<Entry>, ys: seq<Entry>)
    requires Root(xs) == Root(ys)
    ensures xs == ys || TreeCollision(xs, ys).IsReal()
  {
  }

  /** From two different (entry, path) pairs that rebuild one root at one place of
      one tree, a collision. */
  ghost function PathCollision(index: nat, size: nat, e1: Entry, p1: seq<Digest>, e2: Entry,
      p2: seq<Digest>): (c: Collision)
    requires index < size && |p1| == |p2| == PathLength(index, size)
    requires PathRoot(LeafHash(e1), index, size, p1) == PathRoot(LeafHash(e2), index, size, p2)
    requires e1 != e2 || p1 != p2
    ensures c.IsReal()
    decreases size
  {
    if size <= 1 then
      assert p1 == p2;
      if [0 as byte] + e1 == [0] + e2 then LeafMessageSplits(e1, e2); Collision([], [0])
      else Collision([0] + e1, [0] + e2)
    else
      var k := Split(size);
      var t1, r1 := p1[|p1| - 1], p1[..|p1| - 1];
      var t2, r2 := p2[|p2| - 1], p2[..|p2| - 1];
      assert p1 == r1 + [t1] && p2 == r2 + [t2];
      if index < k then
        var n1, n2 := PathRoot(LeafHash(e1), index, k, r1), PathRoot(LeafHash(e2), index, k, r2);
        if [1] + n1 + t1 != [1] + n2 + t2 then Collision([1] + n1 + t1, [1] + n2 + t2)
        else
          NodeMessageSplits(n1, t1, n2, t2);
          PathCollision(index, k, e1, r1, e2, r2)
      else
        var n1, n2 := PathRoot(LeafHash(e1), index - k, size - k, r1), PathRoot(LeafHash(e2), index - k, size - k, r2);
        if [1] + t1 + n1 != [1] + t2 + n2 then Collision([1] + t1 + n1, [1] + t2 + n2)
        else
          NodeMessageSplits(t1, n1, t2, n2);
          PathCollision(index - k, size - k, e1, r1, e2, r2)
  }

  /** A proof accepted against the root of a tree is the tree's own proof of the
      tree's own entry, or a collision is at hand. */
  lemma {:induction false} AcceptedProofIsHonest(
      es: seq<Entry>, entry: Entry, index: nat, proof: seq<Bytes>) returns (c: Collision)
    requires RootFromProof(entry, index, |es|, proof) == Ok(Root(es))
    ensures c.IsReal() || (entry == es[index] && proof == Path(es, index))
  {
    c := Collision([], []);
    PathRebuildsRoot(es, index);
    if entry != es[index] || proof != Path(es, index) {
      c := PathCollision(index, |es|, entry, proof, es[index], Path(es, index));
    }
  }
}
