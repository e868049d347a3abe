/** internal/core/merkle_tree.go: the tree of node hashes, built level by level. */
module Merkle {
  import opened Prelude
  import opened Ledger

  type Hash = Bytes -> Digest

  function Join(left: Bytes, right: Bytes): Bytes {
    left + right
  }

  lemma JoinInjective(a0: Digest, a1: Digest, b0: Digest, b1: Digest)
    requires Join(a0, a1) == Join(b0, b1)
    ensures a0 == b0 && a1 == b1
  {
    assert a0 == Join(a0, a1)[..32] && b0 == Join(b0, b1)[..32];
    assert a1 == Join(a0, a1)[32..] && b1 == Join(b0, b1)[32..];
  }

  // ---------- The loop, level by level ----------

  function LeafLevel(h: Hash, data: seq<Bytes>): (level: seq<Digest>)
    ensures |level| == |data|
    ensures forall i :: 0 <= i < |data| ==> level[i] == h(data[i])
  {
    seq(|data|, i requires 0 <= i < |data| => h(data[i]))
  }

  /** An odd level gets one more node: the hash of its last node. */
  function Padded(h: Hash, level: seq<Digest>): (p: seq<Digest>)
    requires |level| > 1
    ensures |p| % 2 == 0
  {
    if |level| % 2 != 0 then level + [h(level[|level| - 1])] else level
  }

  function ParentLevel(h: Hash, level: seq<Digest>): (p: seq<Digest>)
    requires |level| % 2 == 0
    ensures |p| == |level| / 2
    ensures forall i :: 0 <= i < |p| ==> p[i] == h(Join(level[2 * i], level[2 * i + 1]))
  {
    seq(|level| / 2, i requires 0 <= i < |level| / 2 => h(Join(level[2 * i], level[2 * i + 1])))
  }

  // ---------- The tree, node by node ----------

  /** How many nodes level `k` has before padding. */
  function Count(n: nat, k: nat): (c: nat)
    ensures n >= 1 ==> c >= 1
  {
    if k == 0 then n else (Count(n, k - 1) + 1) / 2
  }

  function PaddedCount(n: nat, k: nat): nat {
    var c := Count(n, k);
    if c == 1 then 1 else c + c % 2
  }

  function DepthFrom(n: nat, k: nat): (d: nat)
    requires n >= 1
    ensures d >= k && Count(n, d) == 1
    ensures forall j :: k <= j < d ==> Count(n, j) > 1
    decreases Count(n, k)
  {
    if Count(n, k) == 1 then k else DepthFrom(n, k + 1)
  }

  /** The level of the root: the first one with a single node. */
  function Depth(n: nat): (d: nat)
    requires n >= 1
    ensures Count(n, d) == 1
    ensures forall j :: 0 <= j < d ==> Count(n, j) > 1
  {
    DepthFrom(n, 0)
  }

  predicate IsNode(n: nat, k: nat, i: nat) {
    n >= 1 && k <= Depth(n) && i < PaddedCount(n, k)
  }

  /** The string hashed to make node `i` of level `k`: a datum, two child hashes, or, for
      the padding node, its left neighbour. */
  function Preimage(h: Hash, data: seq<Bytes>, k: nat, i: nat): (s: Bytes)
    requires IsNode(|data|, k, i)
    ensures i == Count(|data|, k) ==> |s| == 32
    ensures i < Count(|data|, k) && k > 0 ==> |s| == 64
    decreases k, i, 0
  {
    var c := Count(|data|, k);
    if i == c then NodeValue(h, data, k, i - 1)
    else if k == 0 then data[i]
    else Join(NodeValue(h, data, k - 1, 2 * i), NodeValue(h, data, k - 1, 2 * i + 1))
  }

  function NodeValue(h: Hash, data: seq<Bytes>, k: nat, i: nat): Digest
    requires IsNode(|data|, k, i)
    decreases k, i, 1
  {
    h(Preimage(h, data, k, i))
  }

  /** The Merkle root, read off the tree from the top. */
  function Root(h: Hash, data: seq<Bytes>): Digest
    requires data != []
  {
    NodeValue(h, data, Depth(|data|), 0)
  }

  /** The smallest trees written out: a single datum, a pair, and three data with the third one's
      hash hashed again beside it. */
  lemma SmallRoots(h: Hash, a: Bytes, b: Bytes, c: Bytes)
    ensures Root(h, [a]) == h(a)
    ensures Root(h, [a, b]) == h(h(a) + h(b))
    ensures Root(h, [a, b, c]) == h(h(h(a) + h(b)) + h(h(c) + h(h(c))))
  {
    assert Count(2, 1) == 1 && Depth(2) == 1;
    assert Count(3, 1) == 2 && Count(3, 2) == 1 && Depth(3) == 2;
    assert NodeValue(h, [a, b, c], 1, 0) == h(h(a) + h(b));
    assert NodeValue(h, [a, b, c], 1, 1) == h(h(c) + h(h(c)));
  }

  predicate IsLevel(h: Hash, data: seq<Bytes>, k: nat, level: seq<Digest>) {
    data != [] && k <= Depth(|data|) && |level| == Count(|data|, k) &&
    forall i :: 0 <= i < |level| ==> level[i] == NodeValue(h, data, k, i)
  }

  lemma NextLevel(h: Hash, data: seq<Bytes>, k: nat, level: seq<Digest>)
    requires |level| > 1 && IsLevel(h, data, k, level)
    ensures IsLevel(h, data, k + 1, ParentLevel(h, Padded(h, level)))
  {
    var p := Padded(h, level);
    var q := ParentLevel(h, p);
    forall j | 0 <= j < |p| ensures p[j] == NodeValue(h, data, k, j) {
    }
    forall i | 0 <= i < |q| ensures q[i] == NodeValue(h, data, k + 1, i) {
    }
  }

  /** merkle_tree.go NewMerkleTree, returning the root hash, or None for empty input. */
  method NewMerkleTree(h: Hash, data: seq<Bytes>) returns (root: Option<Digest>)
    ensures root == if data == [] then None else Some(Root(h, data))
  {
    if |data| == 0 {
      return None;
    }
    var nodes: seq<Digest> := [];
    for i := 0 to |data|
      invariant nodes == LeafLevel(h, data[..i])
    {
      nodes := nodes + [h(data[i])];
    }
    assert data[..|data|] == data;
    ghost var k := 0;
    while |nodes| > 1
      invariant IsLevel(h, data, k, nodes)
      invariant Depth(|data|) == DepthFrom(|data|, k)
      decreases |nodes|
    {
      NextLevel(h, data, k, nodes);
      if |nodes| % 2 != 0 {
        nodes := nodes + [h(nodes[|nodes| - 1])];
      }
      var newLevel: seq<Digest> := [];
      var j := 0;
      while j < |nodes|
        invariant 0 <= j <= |nodes| && j % 2 == 0 && |newLevel| == j / 2
        invariant forall i :: 0 <= i < j / 2 ==> newLevel[i] == h(Join(nodes[2 * i], nodes[2 * i + 1]))
      {
        newLevel := newLevel + [h(Join(nodes[j], nodes[j + 1]))];
        j := j + 2;
      }
      assert newLevel == ParentLevel(h, nodes);
      nodes, k := newLevel, k + 1;
    }
    root := Some(nodes[0]);
  }

  // ---------- Binding ----------

  /** Some string hashed while building one tree collides with one hashed for the other. */
  ghost predicate TreesCollide(h: Hash, xs: seq<Bytes>, ys: seq<Bytes>) {
    exists k: nat, i: nat, l: nat, j: nat ::
      IsNode(|xs|, k, i) && IsNode(|ys|, l, j) && Collision(h, Preimage(h, xs, k, i), Preimage(h, ys, l, j))
  }

  lemma SamePreimage(h: Hash, xs: seq<Bytes>, ys: seq<Bytes>, k: nat, l: nat, i: nat)
    requires !TreesCollide(h, xs, ys)
    requires IsNode(|xs|, k, i) && IsNode(|ys|, l, i)
    requires NodeValue(h, xs, k, i) == NodeValue(h, ys, l, i)
    ensures Preimage(h, xs, k, i) == Preimage(h, ys, l, i)
  {
    var x, y := Preimage(h, xs, k, i), Preimage(h, ys, l, i);
    assert x == y || Collision(h, x, y);
  }

  ghost predicate SameLevel(h: Hash, xs: seq<Bytes>, ys: seq<Bytes>, k: nat, l: nat) {
    xs != [] && ys != [] && k <= Depth(|xs|) && l <= Depth(|ys|) &&
    Count(|xs|, k) == Count(|ys|, l) &&
    forall i :: 0 <= i < Count(|xs|, k) ==> NodeValue(h, xs, k, i) == NodeValue(h, ys, l, i)
  }

  lemma InnerPreimage(h: Hash, data: seq<Bytes>, k: nat, p: nat)
    requires data != [] && k < Depth(|data|) && p < Count(|data|, k + 1)
    ensures 2 * p + 1 < PaddedCount(|data|, k)
    ensures Preimage(h, data, k + 1, p) == Join(NodeValue(h, data, k, 2 * p), NodeValue(h, data, k, 2 * p + 1))
  {
  }

  lemma ChildrenOfPreimage(h: Hash, xs: seq<Bytes>, ys: seq<Bytes>, k: nat, l: nat, p: nat)
    requires xs != [] && ys != [] && k < Depth(|xs|) && l < Depth(|ys|)
    requires p < Count(|xs|, k + 1) && p < Count(|ys|, l + 1)
    requires Preimage(h, xs, k + 1, p) == Preimage(h, ys, l + 1, p)
    ensures 2 * p + 1 < PaddedCount(|xs|, k) && 2 * p + 1 < PaddedCount(|ys|, l)
    ensures NodeValue(h, xs, k, 2 * p) == NodeValue(h, ys, l, 2 * p)
    ensures NodeValue(h, xs, k, 2 * p + 1) == NodeValue(h, ys, l, 2 * p + 1)
  {
    InnerPreimage(h, xs, k, p);
    InnerPreimage(h, ys, l, p);
    JoinInjective(NodeValue(h, xs, k, 2 * p), NodeValue(h, xs, k, 2 * p + 1),
                  NodeValue(h, ys, l, 2 * p), NodeValue(h, ys, l, 2 * p + 1));
  }

  /** Equal parents have equal children, padding included. */
  lemma SameChildren(h: Hash, xs: seq<Bytes>, ys: seq<Bytes>, k: nat, l: nat, p: nat)
    requires !TreesCollide(h, xs, ys)
    requires SameLevel(h, xs, ys, k + 1, l + 1)
    requires p < Count(|xs|, k + 1)
    ensures 2 * p + 1 < PaddedCount(|xs|, k) && 2 * p + 1 < PaddedCount(|ys|, l)
    ensures NodeValue(h, xs, k, 2 * p) == NodeValue(h, ys, l, 2 * p)
    ensures NodeValue(h, xs, k, 2 * p + 1) == NodeValue(h, ys, l, 2 * p + 1)
  {
    SamePreimage(h, xs, ys, k + 1, l + 1, p);
    ChildrenOfPreimage(h, xs, ys, k, l, p);
  }

  lemma SameLevelBelow(h: Hash, xs: seq<Bytes>, ys: seq<Bytes>, k: nat, l: nat)
    requires !TreesCollide(h, xs, ys)
    requires SameLevel(h, xs, ys, k + 1, l + 1)
    requires Count(|xs|, k) == Count(|ys|, l)
    ensures SameLevel(h, xs, ys, k, l)
  {
    forall i: nat | i < Count(|xs|, k) ensures NodeValue(h, xs, k, i) == NodeValue(h, ys, l, i) {
      SameChildren(h, xs, ys, k, l, i / 2);
      assert i == 2 * (i / 2) || i == 2 * (i / 2) + 1;
    }
  }

  /** Level by level from the top, when both lists have the same length. */
  lemma {:induction false} EqualLengthLevels(h: Hash, xs: seq<Bytes>, ys: seq<Bytes>, t: nat)
    requires xs != [] && |xs| == |ys| && Root(h, xs) == Root(h, ys)
    requires !TreesCollide(h, xs, ys)
    requires t <= Depth(|xs|)
    ensures SameLevel(h, xs, ys, Depth(|xs|) - t, Depth(|xs|) - t)
  {
    if t > 0 {
      EqualLengthLevels(h, xs, ys, t - 1);
      SameLevelBelow(h, xs, ys, Depth(|xs|) - t, Depth(|xs|) - t);
    }
  }

  lemma SameLeaves(h: Hash, xs: seq<Bytes>, ys: seq<Bytes>)
    requires !TreesCollide(h, xs, ys)
    requires SameLevel(h, xs, ys, 0, 0)
    ensures xs == ys
  {
    forall i: nat | i < |xs| ensures xs[i] == ys[i] {
      SamePreimage(h, xs, ys, 0, 0, i);
    }
  }

  /** Lists of one length: a common root means equal lists or a collision between the two trees. */
  lemma EqualLengthBinding(h: Hash, xs: seq<Bytes>, ys: seq<Bytes>)
    requires xs != [] && |xs| == |ys| && Root(h, xs) == Root(h, ys)
    ensures xs == ys || TreesCollide(h, xs, ys)
  {
    if !TreesCollide(h, xs, ys) {
      EqualLengthLevels(h, xs, ys, Depth(|xs|));
      SameLeaves(h, xs, ys);
    }
  }

  /** No datum could be mistaken for a digest or for a pair of digests. */
  predicate NoDigestSized(data: seq<Bytes>) {
    forall i :: 0 <= i < |data| ==> |data[i]| != 32 && |data[i]| != 64
  }

  /** A padding node on one side cannot face an ordinary node on the other. */
  lemma SameParity(h: Hash, xs: seq<Bytes>, ys: seq<Bytes>, k: nat, l: nat)
    requires !TreesCollide(h, xs, ys)
    requires NoDigestSized(ys)
    requires SameLevel(h, xs, ys, k + 1, l + 1)
    ensures Count(|xs|, k) >= Count(|ys|, l)
  {
    if Count(|xs|, k) < Count(|ys|, l) {
      var i := Count(|xs|, k);
      assert i == Count(|ys|, l) - 1;
      SameChildren(h, xs, ys, k, l, i / 2);
      SamePreimage(h, xs, ys, k, l, i);
    }
  }

  lemma TreesCollideSymmetric(h: Hash, xs: seq<Bytes>, ys: seq<Bytes>)
    requires TreesCollide(h, ys, xs)
    ensures TreesCollide(h, xs, ys)
  {
    var k: nat, i: nat, l: nat, j: nat :|
      IsNode(|ys|, k, i) && IsNode(|xs|, l, j) && Collision(h, Preimage(h, ys, k, i), Preimage(h, xs, l, j));
    assert Collision(h, Preimage(h, xs, l, j), Preimage(h, ys, k, i));
  }

  lemma {:induction false} AlignedLevels(h: Hash, xs: seq<Bytes>, ys: seq<Bytes>, t: nat)
    requires xs != [] && ys != [] && Root(h, xs) == Root(h, ys)
    requires !TreesCollide(h, xs, ys)
    requires NoDigestSized(xs) && NoDigestSized(ys)
    requires t <= Depth(|xs|) && t <= Depth(|ys|)
    ensures SameLevel(h, xs, ys, Depth(|xs|) - t, Depth(|ys|) - t)
  {
    if t > 0 {
      AlignedLevels(h, xs, ys, t - 1);
      var k, l := Depth(|xs|) - t, Depth(|ys|) - t;
      SameParity(h, xs, ys, k, l);
      if TreesCollide(h, ys, xs) {
        TreesCollideSymmetric(h, xs, ys);
      }
      SameParity(h, ys, xs, l, k);
      SameLevelBelow(h, xs, ys, k, l);
    }
  }

  lemma SameDepth(h: Hash, xs: seq<Bytes>, ys: seq<Bytes>)
    requires xs != [] && ys != [] && Root(h, xs) == Root(h, ys)
    requires !TreesCollide(h, xs, ys)
    requires NoDigestSized(xs) && NoDigestSized(ys)
    ensures Depth(|xs|) >= Depth(|ys|)
  {
    if Depth(|xs|) < Depth(|ys|) {
      AlignedLevels(h, xs, ys, Depth(|xs|));
      SamePreimage(h, xs, ys, 0, Depth(|ys|) - Depth(|xs|), 0);
    }
  }

  /** Lists of any lengths, when no datum is 32 or 64 bytes long: a common root means equal
      lists or a collision between the two trees. */
  lemma AnyLengthBinding(h: Hash, xs: seq<Bytes>, ys: seq<Bytes>)
    requires xs != [] && ys != [] && Root(h, xs) == Root(h, ys)
    requires NoDigestSized(xs) && NoDigestSized(ys)
    ensures xs == ys || TreesCollide(h, xs, ys)
  {
    if !TreesCollide(h, xs, ys) {
      SameDepth(h, xs, ys);
      if TreesCollide(h, ys, xs) {
        TreesCollideSymmetric(h, xs, ys);
      }
      SameDepth(h, ys, xs);
      AlignedLevels(h, xs, ys, Depth(|xs|));
      SameLeaves(h, xs, ys);
    }
  }

  // ---------- The condition on datum sizes is exact ----------

  predicate SizesAllowed(allowed: int -> bool, data: seq<Bytes>) {
    data != [] && forall i :: 0 <= i < |data| ==> allowed(|data[i]|)
  }

  /** Over data of the allowed sizes a root determines the list, short of a collision. */
  ghost predicate Binds(h: Hash, allowed: int -> bool) {
    forall xs, ys :: SizesAllowed(allowed, xs) && SizesAllowed(allowed, ys) && Root(h, xs) == Root(h, ys) ==>
      xs == ys || TreesCollide(h, xs, ys)
  }

  /** A 64-byte datum can be the two leaf hashes of a two-element list. */
  lemma PairAsDatum(h: Hash, a: Bytes, b: Bytes)
    ensures Root(h, [a, b]) == Root(h, [Join(h(a), h(b))])
  {
    var xs, ys := [a, b], [Join(h(a), h(b))];
    assert Count(2, 0) == 2 && Count(2, 1) == 1;
    assert DepthFrom(2, 1) == 1 && Depth(2) == 1;
    assert NodeValue(h, xs, 0, 0) == h(a) && NodeValue(h, xs, 0, 1) == h(b);
    assert Preimage(h, xs, 1, 0) == Join(h(a), h(b));
    assert Depth(1) == 0 && Preimage(h, ys, 0, 0) == ys[0];
  }

  lemma SmallDepths()
    ensures Depth(1) == 0 && Depth(2) == 1 && Depth(3) == 2 && Depth(4) == 2
    ensures Count(2, 1) == 1 && Count(3, 1) == 2 && Count(4, 1) == 2 && Count(3, 2) == 1 && Count(4, 2) == 1
  {
    assert Count(2, 1) == 1;
    assert Count(3, 1) == 2 && Count(3, 2) == 1;
    assert Count(4, 1) == 2 && Count(4, 2) == 1;
    assert DepthFrom(1, 0) == 0;
    assert DepthFrom(2, 1) == 1;
    assert DepthFrom(3, 2) == 2 && DepthFrom(3, 1) == 2;
    assert DepthFrom(4, 2) == 2 && DepthFrom(4, 1) == 2;
  }

  /** A 32-byte datum can be the rehashed last leaf of an odd list. */
  lemma PaddingAsDatum(h: Hash, a: Bytes, b: Bytes, c: Bytes)
    ensures Root(h, [a, b, c]) == Root(h, [a, b, c, h(c)])
  {
    var xs, ys := [a, b, c], [a, b, c, h(c)];
    SmallDepths();
    forall i: nat | i < 4 ensures NodeValue(h, xs, 0, i) == NodeValue(h, ys, 0, i) {
      if i == 3 {
        assert Preimage(h, xs, 0, 3) == NodeValue(h, xs, 0, 2) == h(c);
      }
    }
    forall p: nat | p < 2 ensures NodeValue(h, xs, 1, p) == NodeValue(h, ys, 1, p) {
      InnerPreimage(h, xs, 0, p);
      InnerPreimage(h, ys, 0, p);
    }
    InnerPreimage(h, xs, 1, 0);
    InnerPreimage(h, ys, 1, 0);
  }

  function Fill(n: nat, b: byte): (s: Bytes)
    ensures |s| == n && forall i :: 0 <= i < n ==> s[i] == b
  {
    seq(n, _ => b)
  }

  function Constant(s: Bytes): Digest {
    Fill(32, 0)
  }

  /** With a constant hash the two lists of `PairAsDatum` hash nothing but one string. */
  lemma PairWithoutCollision()
    ensures !TreesCollide(Constant, [Fill(64, 0), Fill(64, 0)], [Fill(64, 0)])
  {
    var xs, ys := [Fill(64, 0), Fill(64, 0)], [Fill(64, 0)];
    SmallDepths();
    forall k: nat, i: nat | IsNode(2, k, i) ensures Preimage(Constant, xs, k, i) == Fill(64, 0) {
      if k == 1 {
        InnerPreimage(Constant, xs, 0, 0);
      }
    }
    assert forall l: nat, j: nat :: IsNode(1, l, j) ==> Preimage(Constant, ys, l, j) == Fill(64, 0);
  }

  function Layered(s: Bytes): Digest {
    if |s| == 32 then Fill(32, 0) else if s == Fill(64, 0) then Fill(32, 1) else Fill(32, 2)
  }

  /** The strings hashed for a list of three or four zero digests under `Layered`. */
  lemma LayeredPreimage(data: seq<Bytes>, k: nat, i: nat)
    requires data == [Fill(32, 0), Fill(32, 0), Fill(32, 0)] ||
             data == [Fill(32, 0), Fill(32, 0), Fill(32, 0), Fill(32, 0)]
    requires IsNode(|data|, k, i)
    ensures Preimage(Layered, data, k, i) == if k == 0 then Fill(32, 0) else if k == 1 then Fill(64, 0) else Fill(64, 1)
  {
    SmallDepths();
    if k > 0 {
      LayeredPreimage(data, k - 1, 2 * i);
      LayeredPreimage(data, k - 1, 2 * i + 1);
      InnerPreimage(Layered, data, k - 1, i);
    } else if i == 3 && |data| == 3 {
      LayeredPreimage(data, 0, 2);
    }
  }

  lemma PaddingWithoutCollision()
    ensures var zero := Fill(32, 0);
            !TreesCollide(Layered, [zero, zero, zero], [zero, zero, zero, zero])
  {
    var xs, ys := [Fill(32, 0), Fill(32, 0), Fill(32, 0)], [Fill(32, 0), Fill(32, 0), Fill(32, 0), Fill(32, 0)];
    forall k: nat, i: nat, l: nat, j: nat | IsNode(3, k, i) && IsNode(4, l, j)
      ensures !Collision(Layered, Preimage(Layered, xs, k, i), Preimage(Layered, ys, l, j))
    {
      LayeredPreimage(xs, k, i);
      LayeredPreimage(ys, l, j);
      assert Fill(64, 0)[0] != Fill(64, 1)[0];
      assert Layered(Fill(32, 0))[0] == 0 && Layered(Fill(64, 0))[0] == 1 && Layered(Fill(64, 1))[0] == 2;
    }
  }

  lemma SixtyFourBreaksBinding(allowed: int -> bool)
    requires allowed(64)
    ensures exists h: Hash :: !Binds(h, allowed)
  {
    var xs, ys := [Fill(64, 0), Fill(64, 0)], [Fill(64, 0)];
    PairAsDatum(Constant, Fill(64, 0), Fill(64, 0));
    assert Join(Fill(32, 0), Fill(32, 0)) == Fill(64, 0);
    PairWithoutCollision();
    assert SizesAllowed(allowed, xs) && SizesAllowed(allowed, ys);
    assert !Binds(Constant, allowed);
  }

  lemma ThirtyTwoBreaksBinding(allowed: int -> bool)
    requires allowed(32)
    ensures exists h: Hash :: !Binds(h, allowed)
  {
    var xs, ys := [Fill(32, 0), Fill(32, 0), Fill(32, 0)], [Fill(32, 0), Fill(32, 0), Fill(32, 0), Fill(32, 0)];
    PaddingAsDatum(Layered, Fill(32, 0), Fill(32, 0), Fill(32, 0));
    PaddingWithoutCollision();
    assert SizesAllowed(allowed, xs) && SizesAllowed(allowed, ys);
    assert !Binds(Layered, allowed);
  }

  /** A set of datum sizes is safe under every hash function exactly when it excludes 32 and
      64 bytes. The rehash rule alone does not protect 32-byte data. */
  lemma BindingExact(allowed: int -> bool)
    ensures (forall h: Hash :: Binds(h, allowed)) <==> !allowed(32) && !allowed(64)
  {
    if allowed(64) {
      SixtyFourBreaksBinding(allowed);
    } else if allowed(32) {
      ThirtyTwoBreaksBinding(allowed);
    } else {
      forall h: Hash, xs, ys | SizesAllowed(allowed, xs) && SizesAllowed(allowed, ys) && Root(h, xs) == Root(h, ys)
        ensures xs == ys || TreesCollide(h, xs, ys)
      {
        AnyLengthBinding(h, xs, ys);
      }
    }
  }
}
