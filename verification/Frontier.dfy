/**
 * packages/core/src/merkle-frontier.ts: the frontier of a tree, the roots of the
 * perfect subtrees its size splits into, and the append that carries like a
 * binary counter (RFC 9162 section 2.1.2).
 */
module Frontier {
  import opened Prelude
  import opened PowersOfTwo
  import opened Merkle
  import opened Hex

  datatype MerkleFrontier = MerkleFrontier(size: nat, nodes: seq<Digest>)

  const EMPTY_FRONTIER := MerkleFrontier(0, [])

  /** "a frontier holds fewer nodes than its size requires" */
  datatype FrontierError = FewerNodesThanSize

  // ----- what a frontier stands for -----

  /** The largest perfect subtree first, then those of what remains. */
  ghost function PerfectRoots(es: seq<Entry>): seq<Digest> {
    if |es| == 0 then []
    else
      var k := Pow2(Log2(|es|));
      assert IsLog2(Log2(|es|), |es|) && k >= 1 by { Pow2Monotone(0, Log2(|es|)); }
      [Root(es[..k])] + PerfectRoots(es[k..])
  }

  ghost function FrontierOf(es: seq<Entry>): MerkleFrontier {
    MerkleFrontier(|es|, PerfectRoots(es))
  }

  function SetBits(n: nat): nat {
    if n == 0 then 0 else n % 2 + SetBits(n / 2)
  }

  // ----- append -----

  /** The carry loop of frontierAppend. */
  function Carry(nodes: seq<Digest>, node: Digest, carry: nat): Result<seq<Digest>, FrontierError>
    decreases carry
  {
    if carry % 2 == 1 then
      if nodes == [] then Err(FewerNodesThanSize)
      else Carry(nodes[..|nodes| - 1], NodeHash(nodes[|nodes| - 1], node), carry / 2)
    else Ok(nodes + [node])
  }

  function Append(frontier: MerkleFrontier, entry: Entry): Result<MerkleFrontier, FrontierError> {
    var c := Carry(frontier.nodes, LeafHash(entry), frontier.size);
    if c.Ok? then Ok(MerkleFrontier(frontier.size + 1, c.value)) else Err(FewerNodesThanSize)
  }

  method FrontierAppend(frontier: MerkleFrontier, entry: Entry) returns (r: Result<MerkleFrontier, FrontierError>)
    ensures r == Append(frontier, entry)
  {
    var nodes := frontier.nodes;
    var node := LeafHash(entry);
    var carry := frontier.size;
    while carry % 2 == 1
      invariant Carry(nodes, node, carry) == Carry(frontier.nodes, LeafHash(entry), frontier.size)
      decreases carry
    {
      if |nodes| == 0 {
        return Err(FewerNodesThanSize);
      }
      node := NodeHash(nodes[|nodes| - 1], node);
      nodes := nodes[..|nodes| - 1];
      carry := carry / 2;
    }
    return Ok(MerkleFrontier(frontier.size + 1, nodes + [node]));
  }

  // ----- root -----

  /** The nodes folded from the right. */
  function Fold(nodes: seq<Digest>): Digest
    requires |nodes| > 0
  {
    if |nodes| == 1 then nodes[0] else NodeHash(nodes[0], Fold(nodes[1..]))
  }

  function RootOfFrontier(frontier: MerkleFrontier): Digest {
    if frontier.nodes == [] then SHA256([]) else Fold(frontier.nodes)
  }

  method FrontierRoot(frontier: MerkleFrontier) returns (root: Digest)
    ensures root == RootOfFrontier(frontier)
  {
    var n := |frontier.nodes|;
    if n == 0 {
      return SHA256([]);
    }
    root := frontier.nodes[n - 1];
    for index := n - 1 downto 0
      invariant root == Fold(frontier.nodes[index..])
    {
      assert frontier.nodes[index..][1..] == frontier.nodes[index + 1..];
      root := NodeHash(frontier.nodes[index], root);
    }
    assert frontier.nodes[0..] == frontier.nodes;
  }

  method CountSetBits(n: nat) returns (count: nat)
    ensures count == SetBits(n)
  {
    count := 0;
    var rest := n;
    while rest > 0
      invariant count + SetBits(rest) == SetBits(n)
    {
      count := count + rest % 2;
      rest := rest / 2;
    }
  }

  // ----- the frontier is the tree's -----

  /** Folding the frontier's nodes gives the root of all the entries. */
  lemma {:induction false} FoldIsRoot(es: seq<Entry>)
    ensures RootOfFrontier(FrontierOf(es)) == Root(es)
    decreases |es|
  {
    if |es| > 0 {
      var h := Log2(|es|);
      var k := Pow2(h);
      Pow2Monotone(0, h);
      assert IsLog2(h, |es|);
      var nodes := PerfectRoots(es);
      assert nodes[0] == Root(es[..k]);
      assert nodes[1..] == PerfectRoots(es[k..]);
      if k == |es| {
        assert es[..k] == es;
        assert es[k..] == [];
        assert nodes == [Root(es)];
      } else {
        FoldIsRoot(es[k..]);
        assert SplitsAt(|es|, h);
        SplitUnique(|es|, h);
        assert PerfectRoots(es[k..]) != [];
      }
    }
  }

  /** A size that is a multiple of 2^(h+1) leaves room for a block of 2^h below
      twice its own largest power of two, and stays a multiple without it. */
  lemma {:induction false} RoomBelow(m: nat, h: nat) returns (r: nat)
    requires m >= 1
    ensures var n := Shl(2 * m, h);
            n >= 1 && IsLog2(Log2(n), n + Pow2(h)) && n == Pow2(Log2(n)) + Shl(2 * r, h)
  {
    var p := Pow2(Log2(m));
    var e := h + 1 + Log2(m);
    assert IsLog2(Log2(m), m);
    assert Pow2(e) == Shl(2 * p, h) by {
      ShlMore(1, Log2(m), h + 1);
      ShlDouble(p, h);
    }
    r := m - p;
    ShlAdd(2 * p, 2 * r, h);
    assert Shl(2 * m, h) + 2 * Pow2(h) <= 2 * Pow2(e) by {
      ShlAdd(2 * m, 1, h);
      ShlMonotone(2 * m + 1, 2 * (2 * p), h);
      ShlDouble(2 * p, h);
    }
    Pow2Monotone(0, e);
    Pow2Monotone(0, h);
    assert IsLog2(e, Shl(2 * m, h));
    Log2Unique(Shl(2 * m, h), e);
  }

  /** A perfect block of 2^h entries after a multiple of 2^(h+1) adds one node. */
  lemma {:induction false} PerfectRootsSnoc(es: seq<Entry>, block: seq<Entry>, m: nat, h: nat)
    requires |es| == Shl(2 * m, h) && |block| == Pow2(h)
    ensures PerfectRoots(es + block) == PerfectRoots(es) + [Root(block)]
    decreases |es|
  {
    Pow2Monotone(0, h);
    if m == 0 {
      ShlPositive(0, h);
      assert es == [] && es + block == block;
      assert IsLog2(h, |block|);
      Log2Unique(|block|, h);
      assert block[..|block|] == block && block[|block|..] == [];
    } else {
      var r := RoomBelow(m, h);
      var k := Pow2(Log2(|es|));
      Log2Unique(|es + block|, Log2(|es|));
      Pow2Monotone(0, Log2(|es|));
      assert (es + block)[..k] == es[..k];
      assert (es + block)[k..] == es[k..] + block;
      PerfectRootsSnoc(es[k..], block, r, h);
    }
  }

  /** Two perfect halves make the perfect tree of twice the size. */
  lemma {:induction false} RootOfHalves(left: seq<Entry>, right: seq<Entry>, h: nat)
    requires |left| == |right| == Pow2(h)
    ensures Root(left + right) == NodeHash(Root(left), Root(right))
  {
    Pow2Monotone(0, h);
    assert SplitsAt(|left + right|, h);
    SplitUnique(|left + right|, h);
    assert (left + right)[..|left|] == left && (left + right)[|left|..] == right;
  }

  /** The carry loop, at any level h: the nodes of `carry` blocks of 2^h entries,
      and one more such block, become the nodes of all of them. */
  ghost predicate CarryWorks(es: seq<Entry>, block: seq<Entry>, carry: nat) {
    Carry(PerfectRoots(es), Root(block), carry) == Ok(PerfectRoots(es + block))
  }

  lemma {:induction false} CarryAppends(es: seq<Entry>, block: seq<Entry>, carry: nat, h: nat)
    requires |es| == Shl(carry, h) && |block| == Pow2(h)
    ensures CarryWorks(es, block, carry)
    decreases carry
  {
    var m := carry / 2;
    if carry % 2 == 0 {
      PerfectRootsSnoc(es, block, m, h);
    } else {
      ShlAdd(2 * m, 1, h);
      var front, last := es[..Shl(2 * m, h)], es[Shl(2 * m, h)..];
      assert es == front + last;
      ShlDouble(m, h);
      CarryAppends(front, last + block, m, h + 1);
      CarryOnce(front, last, block, m, h);
    }
  }

  lemma {:induction false} CarryUnfold(
      nodes: seq<Digest>, front: seq<Digest>, left: Digest, node: Digest, merged: Digest,
                    m: nat, result: seq<Digest>)
    requires nodes == front + [left] && merged == NodeHash(left, node) && Carry(front, merged, m) == Ok(result)
    ensures Carry(nodes, node, 2 * m + 1) == Ok(result)
  {
    hide NodeHash;
    assert (2 * m + 1) % 2 == 1 && (2 * m + 1) / 2 == m;
    assert nodes[..|nodes| - 1] == front;
  }

  lemma {:induction false} CarryOnce(front: seq<Entry>, last: seq<Entry>, block: seq<Entry>, m: nat, h: nat)
    requires |front| == Shl(2 * m, h) && |last| == |block| == Pow2(h)
    requires CarryWorks(front, last + block, m)
    ensures CarryWorks(front + last, block, 2 * m + 1)
  {
    var nodes := PerfectRoots(front + last);
    var merged := Root(last + block);
    var result := PerfectRoots(front + (last + block));
    assert front + (last + block) == front + last + block;
    assert nodes == PerfectRoots(front) + [Root(last)] by { PerfectRootsSnoc(front, last, m, h); }
    assert merged == NodeHash(Root(last), Root(block)) by { RootOfHalves(last, block, h); }
    CarryUnfold(nodes, PerfectRoots(front), Root(last), Root(block), merged, m, result);
  }

  /** Appending to the frontier of a list gives the frontier of the longer list:
      the throw is unreachable. */
  lemma {:induction false} AppendIsFrontier(es: seq<Entry>, entry: Entry)
    ensures Append(FrontierOf(es), entry) == Ok(FrontierOf(es + [entry]))
  {
    assert Root([entry]) == LeafHash(entry);
    CarryAppends(es, [entry], |es|, 0);
  }

  /** The entries appended one by one to an empty frontier. */
  method FrontierFold(es: seq<Entry>) returns (frontier: MerkleFrontier)
    ensures frontier == FrontierOf(es)
    ensures RootOfFrontier(frontier) == Root(es)
  {
    frontier := EMPTY_FRONTIER;
    for i := 0 to |es|
      invariant frontier == FrontierOf(es[..i])
    {
      TakeStep(es, i);
      AppendIsFrontier(es[..i], es[i]);
      var next := FrontierAppend(frontier, es[i]);
      frontier := next.value;
    }
    assert es[..|es|] == es;
    FoldIsRoot(es);
  }

  lemma {:induction false} SetBitsOfSum(h: nat, r: nat)
    requires r < Pow2(h)
    ensures SetBits(Pow2(h) + r) == 1 + SetBits(r)
    decreases h
  {
    if h == 0 {
      assert SetBits(1) == 1 + SetBits(0);
    } else {
      SetBitsOfSum(h - 1, r / 2);
    }
  }

  lemma {:induction false} RestOfNodes(es: seq<Entry>)
    requires |es| > 0
    ensures |PerfectRoots(es)| > 0
    ensures var k := Pow2(Log2(|es|));
            1 <= k <= |es| < 2 * k
            && PerfectRoots(es)[0] == Root(es[..k]) && PerfectRoots(es)[1..] == PerfectRoots(es[k..])
  {
    hide Root;
    assert IsLog2(Log2(|es|), |es|);
    Pow2Monotone(0, Log2(|es|));
    var k := Pow2(Log2(|es|));
    assert ([Root(es[..k])] + PerfectRoots(es[k..]))[1..] == PerfectRoots(es[k..]);
  }

  /** One node per set bit of the size. */
  lemma {:induction false} OneNodePerSetBit(es: seq<Entry>)
    ensures |PerfectRoots(es)| == SetBits(|es|)
    decreases |es|
  {
    hide Root;
    if |es| > 0 {
      hide PerfectRoots;
      var h := Log2(|es|);
      assert IsLog2(h, |es|);
      RestOfNodes(es);
      OneNodePerSetBit(es[Pow2(h)..]);
      SetBitsOfSum(h, |es| - Pow2(h));
    }
  }

  /** Node i is the root of the perfect subtree of 2^h leaves from `from` on, and
      that subtree is more than half of what is left from there. */
  ghost predicate PerfectNode(es: seq<Entry>, i: nat, from: nat, h: nat) {
    && from + Pow2(h) <= |es| < from + 2 * Pow2(h)
    && i < |PerfectRoots(es)| && PerfectRoots(es)[i] == Root(es[from..][..Pow2(h)])
    && PerfectRoots(es[from..]) == PerfectRoots(es)[i..]
  }

  lemma {:induction false} NodesArePerfectSubtrees(es: seq<Entry>, i: nat) returns (from: nat, h: nat)
    requires i < |PerfectRoots(es)|
    ensures PerfectNode(es, i, from, h)
    decreases |es|
  {
    hide Root, PerfectRoots;
    NodesOfSome(es, i);
    RestOfNodes(es);
    if i == 0 {
      from, h := 0, Log2(|es|);
      assert es[0..] == es;
    } else {
      var k := Pow2(Log2(|es|));
      from, h := NodesArePerfectSubtrees(es[k..], i - 1);
      assert es[k..][from..] == es[k + from..];
      assert PerfectRoots(es)[1..][i - 1..] == PerfectRoots(es)[i..];
      from := k + from;
    }
  }

  lemma {:induction false} NodesOfSome(es: seq<Entry>, i: nat)
    requires i < |PerfectRoots(es)|
    ensures |es| > 0
  {
  }

  // ----- serialisation -----

  /** A frontier as JSON holds it. */
  datatype SerializedFrontier = SerializedFrontier(size: int, nodes: seq<string>)

  predicate IsNodeHex(s: string) { |s| == 64 && IsHex(s) }

  function SerializeNodes(nodes: seq<Digest>): (r: seq<string>)
    ensures |r| == |nodes|
  {
    if nodes == [] then [] else [ToHex(nodes[0])] + SerializeNodes(nodes[1..])
  }

  function SerializeFrontier(f: MerkleFrontier): SerializedFrontier {
    SerializedFrontier(f.size, SerializeNodes(f.nodes))
  }

  function ParseNodes(nodes: seq<string>): (r: Option<seq<Digest>>)
    ensures r.Some? <==> forall i :: 0 <= i < |nodes| ==> IsNodeHex(nodes[i])
    ensures r.Some? ==> |r.value| == |nodes|
  {
    if nodes == [] then Some([])
    else
      var rest := ParseNodes(nodes[1..]);
      if IsNodeHex(nodes[0]) && rest.Some? then
        assert forall i :: 1 <= i < |nodes| ==> nodes[i] == nodes[1..][i - 1];
        Some([FromHex(nodes[0]).value] + rest.value)
      else None
  }

  datatype FrontierParseError = BadSize | WrongNodeCount | BadNode

  /** parseFrontier, over a value that already has the two members. */
  function ParseFrontier(v: SerializedFrontier): Result<MerkleFrontier, FrontierParseError> {
    if v.size < 0 then Err(BadSize)
    else if |v.nodes| != SetBits(v.size) then Err(WrongNodeCount)
    else
      var nodes := ParseNodes(v.nodes);
      if nodes.Some? then Ok(MerkleFrontier(v.size, nodes.value)) else Err(BadNode)
  }

  lemma {:induction false} ParseSerializedNodes(nodes: seq<Digest>)
    ensures ParseNodes(SerializeNodes(nodes)) == Some(nodes)
  {
    if nodes != [] {
      FromToHex(nodes[0]);
      ParseSerializedNodes(nodes[1..]);
      assert SerializeNodes(nodes)[1..] == SerializeNodes(nodes[1..]);
      assert nodes == [nodes[0]] + nodes[1..];
    }
  }

  /** A serialised frontier is read back exactly when it has one node per set bit
      of its size, and then unchanged; the frontier of a tree always is. */
  lemma {:induction false} ParseSerialized(f: MerkleFrontier)
    ensures |f.nodes| == SetBits(f.size) ==> ParseFrontier(SerializeFrontier(f)) == Ok(f)
    ensures |f.nodes| != SetBits(f.size) ==> ParseFrontier(SerializeFrontier(f)) == Err(WrongNodeCount)
  {
    ParseSerializedNodes(f.nodes);
  }

  lemma {:induction false} FrontierOfParses(es: seq<Entry>)
    ensures ParseFrontier(SerializeFrontier(FrontierOf(es))) == Ok(FrontierOf(es))
  {
    OneNodePerSetBit(es);
    ParseSerialized(FrontierOf(es));
  }

  lemma {:induction false} NodesParsed(nodes: seq<string>)
    requires ParseNodes(nodes).Some?
    ensures forall i :: 0 <= i < |nodes| ==> Some(ParseNodes(nodes).value[i]) == FromHex(nodes[i])
    decreases |nodes|
  {
    if nodes != [] {
      NodesParsed(nodes[1..]);
      forall i | 1 <= i < |nodes|
        ensures Some(ParseNodes(nodes).value[i]) == FromHex(nodes[i])
      {
        assert nodes[i] == nodes[1..][i - 1];
      }
    }
  }

  /** One digest in hex for every set bit of the size. */
  ghost predicate IsFrontierText(v: SerializedFrontier) {
    v.size >= 0 && |v.nodes| == SetBits(v.size) && forall i :: 0 <= i < |v.nodes| ==> IsNodeHex(v.nodes[i])
  }

  /** Nothing else is read as a frontier, and it is read as those digests. */
  lemma {:induction false} ParsesExactlyFrontiers(v: SerializedFrontier)
    ensures ParseFrontier(v).Ok? <==> IsFrontierText(v)
    ensures ParseFrontier(v).Ok? ==>
              var f := ParseFrontier(v).value;
              f.size == v.size && |f.nodes| == |v.nodes|
              && forall i :: 0 <= i < |v.nodes| ==> Some(f.nodes[i]) == FromHex(v.nodes[i])
  {
    hide SetBits, IsNodeHex;
    if ParseFrontier(v).Ok? {
      NodesParsed(v.nodes);
    }
  }
}
