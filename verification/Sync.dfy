/** Block download in internal/network/server.go: the inv / getdata / block exchange between a
    node and one peer, as a state machine. */
module Sync {
  import opened Prelude
  import opened Ledger
  import opened Chain
  import opened Utxo
  import opened ProofOfWork

  datatype NodeState = NodeState(chain: State, inTransit: seq<Bytes>, utxo: StoredTable)

  /** A handler's new state and the block it asks the peer for, if any. */
  datatype Reaction = Reaction(node: NodeState, request: Option<Bytes>)

  function Without(items: seq<Bytes>, h: Bytes): seq<Bytes> {
    if items == [] then []
    else Without(items[..|items| - 1], h) + if items[|items| - 1] != h then [items[|items| - 1]] else []
  }

  /** server.go handleInv for blocks: ask for the first item, queue the others. */
  function HandleInv(s: NodeState, items: seq<Bytes>): Reaction {
    if items == [] then Reaction(s, None)
    else Reaction(s.(inTransit := Without(items, items[0])), Some(items[0]))
  }

  /** UTXOSet.Reindex on the node's chain, which returns only if the walk from the tip ends. */
  function Reindexed(s: NodeState): NodeState {
    s.(utxo := Stored(FindTable(ChainTxs(s.chain))))
  }

  /** server.go handleBlock: a block that cannot be added ends the download. */
  function HandleBlock(c: Suite, s: NodeState, b: Block): Reaction {
    if !AddSucceeds(c, s.chain, b) then Reaction(s, None)
    else
      var s' := s.(chain := AddBlock(c, s.chain, b));
      if |s'.inTransit| > 0 then Reaction(s'.(inTransit := s'.inTransit[1..]), Some(s'.inTransit[0]))
      else Reaction(Reindexed(s'), None)
  }

  /** The exchange with a peer that answers each request from its own store (handleGetData),
      with nothing else in between. Each answer consumes a queued hash, so it ends. */
  function Exchange(c: Suite, r: Reaction, peer: BlockMap): NodeState
    decreases |r.node.inTransit|, if r.request.Some? then 1 else 0
  {
    if r.request.None? || r.request.value !in peer then r.node
    else Exchange(c, HandleBlock(c, r.node, peer[r.request.value]), peer)
  }

  /** How many blocks the exchange asks for. */
  function Requests(c: Suite, r: Reaction, peer: BlockMap): nat
    decreases |r.node.inTransit|, if r.request.Some? then 1 else 0
  {
    if r.request.None? then 0
    else if r.request.value !in peer then 1
    else 1 + Requests(c, HandleBlock(c, r.node, peer[r.request.value]), peer)
  }

  /** server.go handleGetBlocks: the hashes of the peer's chain, newest first. */
  function Hashes(bs: seq<Block>): (hs: seq<Bytes>)
    ensures |hs| == |bs|
    ensures forall i :: 0 <= i < |bs| ==> hs[i] == bs[i].hash
  {
    seq(|bs|, i requires 0 <= i < |bs| => bs[i].hash)
  }

  // ---------- The peer's chain as a list ----------

  predicate HashesDistinct(q: seq<Block>) {
    forall i, j :: 0 <= i < j < |q| ==> q[i].hash != q[j].hash
  }

  /** Blocks under distinct hashes, none above the first, each the parent of the one before. */
  predicate IsPath(q: seq<Block>) {
    |q| > 0 && HashesDistinct(q) && (forall i :: 0 <= i < |q| - 1 ==> q[i].prev == q[i + 1].hash) &&
    (forall i :: 0 <= i < |q| ==> q[i].hash != [] && q[i].hash != TIP_KEY && q[i].height <= q[0].height)
  }

  /** The parent the last block asks for; empty for a chain down to genesis. */
  function Below(q: seq<Block>): Bytes
    requires q != []
  {
    q[|q| - 1].prev
  }

  predicate Keyed(m: BlockMap) {
    forall h :: h in m ==> m[h].hash == h
  }

  predicate PeerHolds(peer: BlockMap, q: seq<Block>) {
    forall i :: 0 <= i < |q| ==> q[i].hash in peer && peer[q[i].hash] == q[i]
  }

  /** Where the walk ends it is a path of stored blocks that stops at a hash not held. */
  lemma {:induction false} TrailIsPath(m: BlockMap, h: Bytes, seen: set<Bytes>)
    requires Keyed(m) && Held(m, h) && EndsFrom(m, h, seen)
    ensures var t := Trail(m, h, seen);
            t != [] && t[0] == m[h] && PeerHolds(m, t) && HashesDistinct(t) && !Held(m, Below(t)) &&
            (forall i :: 0 <= i < |t| - 1 ==> t[i].prev == t[i + 1].hash) &&
            (forall i :: 0 <= i < |t| ==> t[i].hash !in seen)
    decreases m.Keys - seen
  {
    assert h in m.Keys - seen;
    if Held(m, m[h].prev) {
      TrailIsPath(m, m[h].prev, seen + {h});
      ConsPath(m, m[h], Trail(m, m[h].prev, seen + {h}), seen);
    } else {
      assert Trail(m, m[h].prev, seen + {h}) == [];
    }
  }

  lemma ConsPath(m: BlockMap, b: Block, rest: seq<Block>, seen: set<Bytes>)
    requires rest != [] && b.hash in m && m[b.hash] == b && b.hash !in seen && b.prev == rest[0].hash
    requires PeerHolds(m, rest) && HashesDistinct(rest) && !Held(m, Below(rest))
    requires forall i :: 0 <= i < |rest| - 1 ==> rest[i].prev == rest[i + 1].hash
    requires forall i :: 0 <= i < |rest| ==> rest[i].hash !in seen + {b.hash}
    ensures var t := [b] + rest;
            PeerHolds(m, t) && HashesDistinct(t) && !Held(m, Below(t)) &&
            (forall i :: 0 <= i < |t| - 1 ==> t[i].prev == t[i + 1].hash) &&
            (forall i :: 0 <= i < |t| ==> t[i].hash !in seen)
  {
  }

  lemma PeerPath(peer: State)
    requires Inv(peer) && Ends(peer.blocks, peer.tip)
    ensures var q := Walk(peer.blocks, peer.tip);
            IsPath(q) && PeerHolds(peer.blocks, q) && !Held(peer.blocks, Below(q)) && q[0].hash == peer.tip
  {
    TrailIsPath(peer.blocks, peer.tip, {});
    var q := Walk(peer.blocks, peer.tip);
    forall i | 0 <= i < |q| ensures q[i].hash != [] && q[i].hash != TIP_KEY && q[i].height <= q[0].height {
      assert q[i].hash in peer.blocks && peer.blocks[q[i].hash] == q[i];
    }
  }

  // ---------- The node's store with the peer's blocks added ----------

  /** Both stores hold the same block under a common hash. */
  predicate Agree(m: BlockMap, q: seq<Block>) {
    forall i :: 0 <= i < |q| && q[i].hash in m ==> m[q[i].hash] == q[i]
  }

  /** The node's store with the first `k` blocks of the peer's chain added. */
  function Merged(m: BlockMap, q: seq<Block>, k: nat): BlockMap
    requires k <= |q|
  {
    if k == 0 then m else Merged(m, q, k - 1)[q[k - 1].hash := q[k - 1]]
  }

  predicate Among(q: seq<Block>, k: nat, h: Bytes)
    requires k <= |q|
  {
    exists i :: 0 <= i < k && q[i].hash == h
  }

  lemma {:induction false} MergedHas(m: BlockMap, q: seq<Block>, k: nat, h: Bytes)
    requires k <= |q|
    ensures h in Merged(m, q, k) <==> h in m || Among(q, k, h)
  {
    if k > 0 {
      MergedHas(m, q, k - 1, h);
      if Among(q, k - 1, h) {
        assert Among(q, k, h);
      }
    }
  }

  lemma {:induction false} MergedOld(m: BlockMap, q: seq<Block>, k: nat, h: Bytes)
    requires k <= |q| && Agree(m, q) && h in m
    ensures h in Merged(m, q, k) && Merged(m, q, k)[h] == m[h]
  {
    if k > 0 {
      MergedOld(m, q, k - 1, h);
    }
  }

  lemma {:induction false} MergedNew(m: BlockMap, q: seq<Block>, k: nat, i: nat)
    requires i < k <= |q| && HashesDistinct(q)
    ensures q[i].hash in Merged(m, q, k) && Merged(m, q, k)[q[i].hash] == q[i]
  {
    if i < k - 1 {
      MergedNew(m, q, k - 1, i);
    }
  }

  /** A block of the peer's chain that is already held makes no difference. */
  lemma MergedSame(m: BlockMap, q: seq<Block>, k: nat)
    requires k < |q| && Agree(m, q) && HashesDistinct(q) && q[k].hash in Merged(m, q, k)
    ensures Merged(m, q, k + 1) == Merged(m, q, k)
  {
    MergedHas(m, q, k, q[k].hash);
    MergedOld(m, q, k, q[k].hash);
  }

  // ---------- The walk while downloading ----------

  /** `m` holds the blocks `q[i..n]` and not the hash below them. */
  predicate HoldsPart(m: BlockMap, q: seq<Block>, i: nat, n: nat)
    requires i <= n <= |q|
  {
    (forall j :: i <= j < n ==> Held(m, q[j].hash) && m[q[j].hash] == q[j]) &&
    (n > 0 ==> !Held(m, q[n - 1].prev))
  }

  /** From the first of them the walk is these blocks. */
  lemma {:induction false} TrailOfPart(m: BlockMap, q: seq<Block>, i: nat, n: nat, seen: set<Bytes>)
    requires i < n <= |q| && IsPath(q) && HoldsPart(m, q, i, n)
    requires forall j :: i <= j < n ==> q[j].hash !in seen
    ensures EndsFrom(m, q[i].hash, seen) && Trail(m, q[i].hash, seen) == q[i..n]
    decreases n - i
  {
    var h := q[i].hash;
    assert h in m.Keys - seen;
    if i + 1 < n {
      TrailOfPart(m, q, i + 1, n, seen + {h});
      assert [q[i]] + q[i + 1..n] == q[i..n];
    } else {
      assert Trail(m, q[i].prev, seen + {h}) == [] && q[i..n] == [q[i]];
    }
  }

  /** How far down from `k` the node already holds the peer's chain. */
  lemma {:induction false} HeldUntil(m: BlockMap, q: seq<Block>, k: nat) returns (n: nat)
    requires IsPath(q) && Agree(m, q) && !Held(m, Below(q)) && 0 < k <= |q|
    ensures k <= n <= |q| && HoldsPart(m, q, k, n)
    decreases |q| - k
  {
    n := k;
    if k < |q| && q[k].hash in m {
      n := HeldUntil(m, q, k + 1);
    }
  }

  lemma MergedPart(m: BlockMap, q: seq<Block>, k: nat, n: nat)
    requires IsPath(q) && Agree(m, q) && 0 < k <= n <= |q| && HoldsPart(m, q, k, n)
    requires forall j :: 0 <= j < |q| ==> q[j].hash != Below(q)
    ensures HoldsPart(Merged(m, q, k), q, 0, n)
  {
    forall j | 0 <= j < n ensures Held(Merged(m, q, k), q[j].hash) && Merged(m, q, k)[q[j].hash] == q[j] {
      if j < k {
        MergedNew(m, q, k, j);
      } else {
        MergedOld(m, q, k, q[j].hash);
      }
    }
    MergedHas(m, q, k, q[n - 1].prev);
    assert n < |q| ==> q[n - 1].prev == q[n].hash;
  }

  /** While downloading, iteration ends, and yields the contiguous downloaded part and then
      whatever of the peer's chain was already held below it. */
  lemma WalkWhileDownloading(m: BlockMap, q: seq<Block>, k: nat)
    requires 0 < k <= |q| && IsPath(q) && Agree(m, q) && !Held(m, Below(q))
    requires forall j :: 0 <= j < |q| ==> q[j].hash != Below(q)
    ensures Ends(Merged(m, q, k), q[0].hash)
    ensures Walk(Merged(m, q, k), q[0].hash) == q[..k] + Walk(m, q[k - 1].prev)
  {
    var n := HeldUntil(m, q, k);
    MergedPart(m, q, k, n);
    TrailOfPart(Merged(m, q, k), q, 0, n, {});
    if k < n {
      TrailOfPart(m, q, k, n, {});
    }
    assert q[0..n] == q[..k] + q[k..n];
  }

  // ---------- The download, block by block ----------

  /** After `k` blocks: they are stored, the tip is the peer's, and the rest is queued with
      one request pending. */
  ghost predicate Downloaded(s0: NodeState, q: seq<Block>, k: nat, r: Reaction) {
    0 < k <= |q| && r.node.chain == State(Merged(s0.chain.blocks, q, k), q[0].hash, q[0].hash) &&
    (k < |q| ==> r.node.inTransit == Hashes(q)[k + 1..] && r.request == Some(q[k].hash)) &&
    (k == |q| ==> r.node == Reindexed(r.node) && r.node.inTransit == [] && r.request == None)
  }

  /** What the node needs before the download: its tip is lower, or already the peer's; it holds no
      other block under a hash of the peer's chain, nor the parent that chain lacks; and the blocks
      it does not hold pass AddBlock's check. */
  predicate Behind(c: Suite, s: State, q: seq<Block>)
    requires q != [] && s.tip in s.blocks
  {
    (s.blocks[s.tip].height < q[0].height || s.tip == q[0].hash) && Agree(s.blocks, q) && !Held(s.blocks, Below(q)) &&
    forall i :: 0 <= i < |q| && q[i].hash !in s.blocks ==> Admissible(c, q[i])
  }

  lemma WithoutFirst(items: seq<Bytes>, n: nat)
    requires 0 < n <= |items| && forall i :: 0 < i < |items| ==> items[i] != items[0]
    ensures Without(items[..n], items[0]) == items[1..n]
  {
    assert items[..n][..n - 1] == items[..n - 1];
    if n > 1 {
      WithoutFirst(items, n - 1);
    }
  }

  /** The inventory asks for the peer's tip and queues the rest in order. */
  lemma InvStarts(s0: NodeState, q: seq<Block>)
    requires IsPath(q)
    ensures var r := HandleInv(s0, Hashes(q));
            r.node == s0.(inTransit := Hashes(q)[1..]) && r.request == Some(q[0].hash)
  {
    var hs := Hashes(q);
    WithoutFirst(hs, |hs|);
    assert hs[..|hs|] == hs;
  }

  /** The first block is above the node's tip and becomes the tip, or is the tip already. */
  lemma FirstBlock(c: Suite, s: State, q: seq<Block>)
    requires Inv(s) && IsPath(q) && Behind(c, s, q)
    ensures AddSucceeds(c, s, q[0]) && AddBlock(c, s, q[0]) == State(Merged(s.blocks, q, 1), q[0].hash, q[0].hash)
  {
    assert Merged(s.blocks, q, 1) == s.blocks[q[0].hash := q[0]];
  }

  /** Every later block is not above the tip: stored if new, ignored if held. */
  lemma LaterBlock(c: Suite, s0: State, q: seq<Block>, k: nat)
    requires Inv(s0) && IsPath(q) && Behind(c, s0, q) && 0 < k < |q|
    ensures var s := State(Merged(s0.blocks, q, k), q[0].hash, q[0].hash);
            AddSucceeds(c, s, q[k]) &&
            AddBlock(c, s, q[k]) == State(Merged(s0.blocks, q, k + 1), q[0].hash, q[0].hash)
  {
    var m := s0.blocks;
    MergedNew(m, q, k, 0);
    MergedHas(m, q, k, q[k].hash);
    if q[k].hash in Merged(m, q, k) {
      MergedSame(m, q, k);
    }
  }

  lemma DownloadStep(c: Suite, s0: NodeState, q: seq<Block>, k: nat, r: Reaction)
    requires Inv(s0.chain) && IsPath(q) && Behind(c, s0.chain, q) && Downloaded(s0, q, k, r) && k < |q|
    ensures Downloaded(s0, q, k + 1, HandleBlock(c, r.node, q[k]))
  {
    LaterBlock(c, s0.chain, q, k);
    NextQueued(q, k);
  }

  lemma NextQueued(q: seq<Block>, k: nat)
    requires k < |q|
    ensures var rest := Hashes(q)[k + 1..];
            if k + 1 == |q| then rest == []
            else rest != [] && rest[0] == q[k + 1].hash && rest[1..] == Hashes(q)[k + 2..]
  {
  }

  lemma DownloadStart(c: Suite, s0: NodeState, q: seq<Block>)
    requires Inv(s0.chain) && IsPath(q) && Behind(c, s0.chain, q)
    ensures Downloaded(s0, q, 1, HandleBlock(c, HandleInv(s0, Hashes(q)).node, q[0]))
  {
    InvStarts(s0, q);
    FirstBlock(c, s0.chain, q);
    NextQueued(q, 0);
  }

  /** After each block of the download iteration ends, and yields exactly the contiguous
      downloaded part followed by whatever of the peer's chain the node already held below it. */
  lemma IterationWhileDownloading(c: Suite, s0: NodeState, peer: State, k: nat, r: Reaction)
    requires Inv(s0.chain) && Inv(peer) && Ends(peer.blocks, peer.tip)
    requires var q := Walk(peer.blocks, peer.tip); q != [] && Behind(c, s0.chain, q) && Downloaded(s0, q, k, r)
    ensures Ends(r.node.chain.blocks, r.node.chain.tip)
    ensures var q := Walk(peer.blocks, peer.tip);
            Walk(r.node.chain.blocks, r.node.chain.tip) == q[..k] + Walk(s0.chain.blocks, q[k - 1].prev)
  {
    PeerPath(peer);
    WalkWhileDownloading(s0.chain.blocks, Walk(peer.blocks, peer.tip), k);
  }

  lemma {:induction false} ExchangeFinishes(c: Suite, s0: NodeState, q: seq<Block>, k: nat, r: Reaction, peer: BlockMap)
    requires Inv(s0.chain) && IsPath(q) && Behind(c, s0.chain, q) && PeerHolds(peer, q) && Downloaded(s0, q, k, r)
    ensures Downloaded(s0, q, |q|, Reaction(Exchange(c, r, peer), None)) && Requests(c, r, peer) == |q| - k
    decreases |q| - k
  {
    if k < |q| {
      DownloadStep(c, s0, q, k, r);
      ExchangeFinishes(c, s0, q, k + 1, HandleBlock(c, r.node, q[k]), peer);
    }
  }

  /** The whole exchange, from the inventory on: every block of the peer's chain is asked for once. */
  lemma WholeExchange(c: Suite, s0: NodeState, q: seq<Block>, peer: BlockMap)
    requires Inv(s0.chain) && IsPath(q) && Behind(c, s0.chain, q) && PeerHolds(peer, q)
    ensures Downloaded(s0, q, |q|, Reaction(Exchange(c, HandleInv(s0, Hashes(q)), peer), None))
    ensures Requests(c, HandleInv(s0, Hashes(q)), peer) == |q|
  {
    InvStarts(s0, q);
    DownloadStart(c, s0, q);
    ExchangeFinishes(c, s0, q, 1, HandleBlock(c, HandleInv(s0, Hashes(q)).node, q[0]), peer);
  }

  // ---------- What every exchange keeps ----------

  /** Whatever a peer sends, nothing stored is lost or changed, everything new has passed the check,
      and the tip stays or gets higher. */
  predicate Grown(c: Suite, s: State, s': State) {
    Inv(s') && Extends(s, s') && (forall h :: h in s'.blocks && h !in s.blocks ==> Admissible(c, s'.blocks[h])) &&
    (s'.tip == s.tip || s'.blocks[s'.tip].height > s.blocks[s.tip].height)
  }

  lemma GrownByBlock(c: Suite, s: State, b: Block)
    requires Inv(s)
    ensures Grown(c, s, AddBlock(c, s, b))
  {
  }

  lemma GrownTwice(c: Suite, s: State, mid: State, s': State)
    requires Grown(c, s, mid) && Grown(c, mid, s')
    ensures Grown(c, s, s')
  {
    forall h | h in s'.blocks && h !in s.blocks ensures Admissible(c, s'.blocks[h]) {
      assert h in mid.blocks ==> s'.blocks[h] == mid.blocks[h];
    }
  }

  lemma {:induction false} ExchangeGrows(c: Suite, r: Reaction, peer: BlockMap)
    requires Inv(r.node.chain)
    ensures Grown(c, r.node.chain, Exchange(c, r, peer).chain)
    decreases |r.node.inTransit|, if r.request.Some? then 1 else 0
  {
    if r.request.Some? && r.request.value in peer {
      var r' := HandleBlock(c, r.node, peer[r.request.value]);
      GrownByBlock(c, r.node.chain, peer[r.request.value]);
      ExchangeGrows(c, r', peer);
      GrownTwice(c, r.node.chain, r'.node.chain, Exchange(c, r, peer).chain);
    }
  }

  // ---------- Convergence ----------

  /** The node has the peer's tip, the peer's chain and the UTXO index of that chain. */
  predicate Synced(node: NodeState, peer: State) {
    node.chain.tip == node.chain.storedTip == peer.tip && node.inTransit == [] &&
    Ends(node.chain.blocks, peer.tip) && Walk(node.chain.blocks, peer.tip) == Walk(peer.blocks, peer.tip) &&
    node.utxo == Stored(FindTable(ChainTxs(peer)))
  }

  lemma BehindSyncs(c: Suite, s0: NodeState, peer: State)
    requires Inv(s0.chain) && Inv(peer) && Ends(peer.blocks, peer.tip)
    requires var q := Walk(peer.blocks, peer.tip); q != [] && Behind(c, s0.chain, q)
    ensures var q := Walk(peer.blocks, peer.tip);
            Synced(Exchange(c, HandleInv(s0, Hashes(q)), peer.blocks), peer) &&
            Requests(c, HandleInv(s0, Hashes(q)), peer.blocks) == |q|
  {
    var q := Walk(peer.blocks, peer.tip);
    PeerPath(peer);
    WholeExchange(c, s0, q, peer.blocks);
    WalkWhileDownloading(s0.chain.blocks, q, |q|);
    assert q[..|q|] == q && Walk(s0.chain.blocks, Below(q)) == [];
  }

  lemma SyncedWasBehind(c: Suite, s0: State, final: NodeState, peer: State)
    requires Inv(s0) && Inv(peer) && Ends(peer.blocks, peer.tip) && Grown(c, s0, final.chain) && Synced(final, peer)
    ensures var q := Walk(peer.blocks, peer.tip); q != [] && Behind(c, s0, q)
  {
    var q, m := Walk(peer.blocks, peer.tip), final.chain.blocks;
    PeerPath(peer);
    TrailIsPath(m, peer.tip, {});
    forall i | 0 <= i < |q| ensures q[i].hash in m && m[q[i].hash] == q[i] {
    }
  }

  /** For every node and every peer whose walk ends, in any two states that calls can reach: a node
      that is sent the peer's inventory, and then nothing but the blocks it asks for, ends with the
      peer's tip, chain and UTXO index exactly when it is behind that peer. It then asks for every
      block of the peer's chain once. */
  lemma SyncConverges(c: Suite, s0: NodeState, peer: State)
    requires Inv(s0.chain) && Inv(peer) && Ends(peer.blocks, peer.tip)
    ensures var q := Walk(peer.blocks, peer.tip);
            var inv := HandleInv(s0, Hashes(q));
            q != [] && (Synced(Exchange(c, inv, peer.blocks), peer) <==> Behind(c, s0.chain, q)) &&
            (Behind(c, s0.chain, q) ==> Requests(c, inv, peer.blocks) == |q|)
  {
    var q := Walk(peer.blocks, peer.tip);
    PeerPath(peer);
    InvStarts(s0, q);
    var final := Exchange(c, HandleInv(s0, Hashes(q)), peer.blocks);
    if Behind(c, s0.chain, q) {
      BehindSyncs(c, s0, peer);
    } else if Synced(final, peer) {
      ExchangeGrows(c, HandleInv(s0, Hashes(q)), peer.blocks);
      SyncedWasBehind(c, s0.chain, final, peer);
    }
  }

  /** An interrupted download leaves a state from which the same inventory, sent again, finishes it. */
  lemma InterruptedDownloadResumes(c: Suite, s0: NodeState, peer: State, k: nat, r: Reaction)
    requires Inv(s0.chain) && Inv(peer) && Ends(peer.blocks, peer.tip)
    requires var q := Walk(peer.blocks, peer.tip); q != [] && Behind(c, s0.chain, q) && Downloaded(s0, q, k, r)
    ensures var q := Walk(peer.blocks, peer.tip);
            Inv(r.node.chain) && Synced(Exchange(c, HandleInv(r.node, Hashes(q)), peer.blocks), peer)
  {
    var q := Walk(peer.blocks, peer.tip);
    PeerPath(peer);
    DownloadKeepsBehind(c, s0.chain, q, k);
    SyncConverges(c, r.node, peer);
  }

  lemma DownloadKeepsBehind(c: Suite, s0: State, q: seq<Block>, k: nat)
    requires Inv(s0) && IsPath(q) && Behind(c, s0, q) && 0 < k <= |q|
    requires forall j :: 0 <= j < |q| ==> q[j].hash != Below(q)
    ensures var s := State(Merged(s0.blocks, q, k), q[0].hash, q[0].hash);
            Inv(s) && Behind(c, s, q)
  {
    var m, mm := s0.blocks, Merged(s0.blocks, q, k);
    MergedNew(m, q, k, 0);
    forall h | h in mm
      ensures mm[h].hash == h && mm[h].height <= q[0].height && h != [] && h != TIP_KEY && (h in m ==> mm[h] == m[h])
    {
      MergedHas(m, q, k, h);
      if h in m {
        MergedOld(m, q, k, h);
      } else {
        var i :| 0 <= i < k && q[i].hash == h;
        MergedNew(m, q, k, i);
      }
    }
    forall i | 0 <= i < |q| && q[i].hash in mm ensures mm[q[i].hash] == q[i] {
      MergedHas(m, q, k, q[i].hash);
      if q[i].hash !in m {
        MergedNew(m, q, k, i);
      }
    }
    MergedHas(m, q, k, Below(q));
    forall i | 0 <= i < |q| && q[i].hash !in mm ensures Admissible(c, q[i]) {
      MergedHas(m, q, k, q[i].hash);
    }
  }
}
