/** The chain as a state machine: internal/core/blockchain.go over a block map and a tip. */
module Chain {
  import opened Prelude
  import opened Ledger
  import opened Transactions
  import opened ProofOfWork

  /** The key under which the tip is stored beside the blocks; no block can be saved under it. */
  const TIP_KEY: Bytes := ['l' as int]

  type BlockMap = map<Bytes, Block>

  /** The stored blocks, the stored tip and the tip held in memory. */
  datatype State = State(blocks: BlockMap, storedTip: Bytes, tip: Bytes)

  // ---------- Walking back from the tip ----------

  predicate Held(m: BlockMap, h: Bytes) {
    h != [] && h in m
  }

  /** The blocks from `h` back along parent hashes, up to a hash that is empty, not held, or
      already in `seen`. */
  function Trail(m: BlockMap, h: Bytes, seen: set<Bytes>): seq<Block>
    decreases m.Keys - seen
  {
    if !Held(m, h) || h in seen then []
    else
      assert h in m.Keys - seen;
      [m[h]] + Trail(m, m[h].prev, seen + {h})
  }

  /** No hash repeats on the way back from `h`, nor is one in `seen`. */
  predicate EndsFrom(m: BlockMap, h: Bytes, seen: set<Bytes>)
    decreases m.Keys - seen
  {
    !Held(m, h) || (h !in seen && (assert h in m.Keys - seen; EndsFrom(m, m[h].prev, seen + {h})))
  }

  /** blockchain.go Blocks: from `h` back along parent hashes until one is empty or not held.
      Where a hash repeats the source goes round for ever, and this stops before the repetition. */
  function Walk(m: BlockMap, h: Bytes): seq<Block> {
    Trail(m, h, {})
  }

  predicate Ends(m: BlockMap, h: Bytes) {
    EndsFrom(m, h, {})
  }

  lemma {:induction false} SeenLess(m: BlockMap, h: Bytes, less: set<Bytes>, more: set<Bytes>)
    requires less <= more && EndsFrom(m, h, more)
    ensures EndsFrom(m, h, less) && Trail(m, h, less) == Trail(m, h, more)
    decreases m.Keys - more
  {
    if Held(m, h) {
      assert h in m.Keys - more;
      SeenLess(m, m[h].prev, less + {h}, more + {h});
    }
  }

  lemma WalkUnfold(m: BlockMap, h: Bytes)
    requires Held(m, h) && (Ends(m, h) || Descending(m))
    ensures Ends(m, h) && Ends(m, m[h].prev) && Walk(m, h) == [m[h]] + Walk(m, m[h].prev)
  {
    if Descending(m) {
      DescendingEnds(m, h);
    }
    SeenLess(m, m[h].prev, {}, {} + {h});
  }

  /** The hash `n` steps back from `h`; an empty or missing hash has no parent and stays. */
  function Back(m: BlockMap, h: Bytes, n: nat): Bytes
    decreases n
  {
    if n == 0 || !Held(m, h) then h else Back(m, m[h].prev, n - 1)
  }

  lemma {:induction false} BackTwice(m: BlockMap, h: Bytes, a: nat, b: nat)
    ensures Back(m, h, a + b) == Back(m, Back(m, h, a), b)
    decreases a
  {
    if a > 0 && Held(m, h) {
      BackTwice(m, m[h].prev, a - 1, b);
    }
  }

  lemma {:induction false} StopsWhenEnding(m: BlockMap, h: Bytes, seen: set<Bytes>) returns (n: nat)
    requires EndsFrom(m, h, seen)
    ensures !Held(m, Back(m, h, n))
    decreases m.Keys - seen
  {
    n := 0;
    if Held(m, h) {
      assert h in m.Keys - seen;
      n := StopsWhenEnding(m, m[h].prev, seen + {h});
      n := n + 1;
    }
  }

  /** Of a walk that stops no hash can come back: it would have stopped earlier by the gap. */
  lemma NoReturn(m: BlockMap, h: Bytes, n: nat, i: nat, j: nat)
    requires i < j < n && !Held(m, Back(m, h, n)) && forall k :: 0 <= k < n ==> Held(m, Back(m, h, k))
    ensures Back(m, h, i) != Back(m, h, j)
  {
    if Back(m, h, i) == Back(m, h, j) {
      BackTwice(m, h, j, n - j);
      BackTwice(m, h, i, n - j);
    }
  }

  /** The first `n` hashes on the way back from `h`. */
  function Passed(m: BlockMap, h: Bytes, n: nat): set<Bytes> {
    set k | 0 <= k < n :: Back(m, h, k)
  }

  lemma {:induction false} EndsAfter(m: BlockMap, h: Bytes, n: nat, i: nat)
    requires i <= n && !Held(m, Back(m, h, n)) && forall k :: 0 <= k < n ==> Held(m, Back(m, h, k))
    ensures EndsFrom(m, Back(m, h, i), Passed(m, h, i))
    decreases n - i
  {
    if i < n {
      var here := Back(m, h, i);
      EndsAfter(m, h, n, i + 1);
      BackTwice(m, h, i, 1);
      assert Back(m, here, 1) == Back(m, m[here].prev, 0);
      assert Passed(m, h, i + 1) == Passed(m, h, i) + {here};
      forall k | 0 <= k < i ensures Back(m, h, k) != here {
        NoReturn(m, h, n, k, i);
      }
    }
  }

  /** The walk of the source ends, at a hash that is empty or not held, exactly when no hash
      repeats along it. */
  lemma WalkEndsExactly(m: BlockMap, h: Bytes)
    ensures (exists n: nat :: !Held(m, Back(m, h, n))) <==> Ends(m, h)
  {
    if Ends(m, h) {
      var n := StopsWhenEnding(m, h, {});
    }
    if exists n: nat :: !Held(m, Back(m, h, n)) {
      var n: nat :| !Held(m, Back(m, h, n));
      n := FirstStop(m, h, n);
      EndsAfter(m, h, n, 0);
      assert Passed(m, h, 0) == {};
    }
  }

  lemma {:induction false} FirstStop(m: BlockMap, h: Bytes, n: nat) returns (k: nat)
    requires !Held(m, Back(m, h, n))
    ensures k <= n && !Held(m, Back(m, h, k)) && forall i :: 0 <= i < k ==> Held(m, Back(m, h, i))
    decreases n
  {
    if forall i :: 0 <= i < n ==> Held(m, Back(m, h, i)) {
      k := n;
    } else {
      var i: nat :| i < n && !Held(m, Back(m, h, i));
      k := FirstStop(m, h, i);
    }
  }

  /** The walk on a store with one more block, as long as it does not meet that block. */
  lemma {:induction false} BackUntilNew(m: BlockMap, b: Block, h: Bytes, n: nat)
    requires b.hash !in m && forall k :: 0 <= k < n ==> Back(m, h, k) != b.hash
    ensures Back(m[b.hash := b], h, n) == Back(m, h, n)
  {
    if n > 0 {
      BackUntilNew(m, b, h, n - 1);
      BackTwice(m, h, n - 1, 1);
      BackTwice(m[b.hash := b], h, n - 1, 1);
      BackOne(m, Back(m, h, n - 1));
      BackOne(m[b.hash := b], Back(m, h, n - 1));
    }
  }

  lemma BackOne(m: BlockMap, h: Bytes)
    ensures Back(m, h, 1) == if Held(m, h) then m[h].prev else h
  {
    assert Held(m, h) ==> Back(m, m[h].prev, 0) == m[h].prev;
  }

  /** A walk that comes back to its start never stops. */
  lemma {:induction false} RoundAndRound(m: BlockMap, h: Bytes, period: nat, n: nat)
    requires period > 0 && Back(m, h, period) == h && !Held(m, Back(m, h, n))
    ensures !Held(m, h)
    decreases n
  {
    if n >= period {
      BackTwice(m, h, period, n - period);
      RoundAndRound(m, h, period, n - period);
    } else {
      BackTwice(m, h, n, period - n);
    }
  }

  /** The way back from `h` comes past `target`. */
  ghost predicate Meets(m: BlockMap, h: Bytes, target: Bytes) {
    exists n: nat :: Back(m, h, n) == target
  }

  /** What a caller can check before a block is stored: from it the walk ends exactly when the walk
      from its parent ends and does not meet the block's own hash. */
  lemma NewBlockEndsExactly(m: BlockMap, b: Block)
    requires b.hash != [] && b.hash !in m
    ensures Ends(m[b.hash := b], b.hash) <==> Ends(m, b.prev) && !Meets(m, b.prev, b.hash)
  {
    WalkEndsExactly(m[b.hash := b], b.hash);
    WalkEndsExactly(m, b.prev);
    if Ends(m[b.hash := b], b.hash) {
      var n: nat :| !Held(m[b.hash := b], Back(m[b.hash := b], b.hash, n));
      NeverMeetsItself(m, b, n);
      StopsBelow(m, b, n);
    } else if Ends(m, b.prev) && !Meets(m, b.prev, b.hash) {
      var n: nat :| !Held(m, Back(m, b.prev, n));
      StopsAbove(m, b, n);
    }
  }

  lemma StopsBelow(m: BlockMap, b: Block, n: nat)
    requires b.hash != [] && b.hash !in m && !Meets(m, b.prev, b.hash)
    requires !Held(m[b.hash := b], Back(m[b.hash := b], b.hash, n))
    ensures n > 0 && !Held(m, Back(m, b.prev, n - 1))
  {
    assert n > 0;
    BackUntilNew(m, b, b.prev, n - 1);
  }

  lemma StopsAbove(m: BlockMap, b: Block, n: nat)
    requires b.hash != [] && b.hash !in m && !Meets(m, b.prev, b.hash)
    requires !Held(m, Back(m, b.prev, n))
    ensures !Held(m[b.hash := b], Back(m[b.hash := b], b.hash, n + 1))
  {
    BackUntilNew(m, b, b.prev, n);
  }

  lemma NeverMeetsItself(m: BlockMap, b: Block, n: nat)
    requires b.hash != [] && b.hash !in m && !Held(m[b.hash := b], Back(m[b.hash := b], b.hash, n))
    ensures !Meets(m, b.prev, b.hash)
  {
    var m' := m[b.hash := b];
    if Meets(m, b.prev, b.hash) {
      var k: nat :| Back(m, b.prev, k) == b.hash;
      k := FirstMeeting(m, b, k);
      BackUntilNew(m, b, b.prev, k);
      assert Back(m', b.hash, k + 1) == Back(m', b.prev, k);
      RoundAndRound(m', b.hash, k + 1, n);
    }
  }

  lemma {:induction false} FirstMeeting(m: BlockMap, b: Block, k: nat) returns (first: nat)
    requires Back(m, b.prev, k) == b.hash
    ensures Back(m, b.prev, first) == b.hash && forall i :: 0 <= i < first ==> Back(m, b.prev, i) != b.hash
    decreases k
  {
    if i: nat :| i < k && Back(m, b.prev, i) == b.hash {
      first := FirstMeeting(m, b, i);
    } else {
      first := k;
    }
  }

  /** The way back from `h` reaches a height of at most `floor`, or a hash that is empty or not
      held, before a hash repeats. */
  predicate DescentEnds(m: BlockMap, h: Bytes, floor: int, seen: set<Bytes>)
    decreases m.Keys - seen
  {
    !Held(m, h) || m[h].height <= floor ||
    (h !in seen && (assert h in m.Keys - seen; DescentEnds(m, m[h].prev, floor, seen + {h})))
  }

  lemma {:induction false} EndingDescends(m: BlockMap, h: Bytes, floor: int, seen: set<Bytes>)
    requires EndsFrom(m, h, seen)
    ensures DescentEnds(m, h, floor, seen)
    decreases m.Keys - seen
  {
    if Held(m, h) {
      assert h in m.Keys - seen;
      EndingDescends(m, m[h].prev, floor, seen + {h});
    }
  }

  // ---------- Stores whose heights descend ----------

  /** Parents are strictly lower. */
  predicate Descending(m: BlockMap) {
    forall h :: h in m && Held(m, h) && Held(m, m[h].prev) ==> m[m[h].prev].height < m[h].height
  }

  function NotAbove(m: BlockMap, h: Bytes): set<Bytes> {
    set k | k in m && h in m && m[k].height <= m[h].height
  }

  lemma StepDown(m: BlockMap, h: Bytes)
    requires Descending(m) && Held(m, h) && Held(m, m[h].prev)
    ensures NotAbove(m, m[h].prev) < NotAbove(m, h)
  {
    assert h in NotAbove(m, h) && h !in NotAbove(m, m[h].prev);
  }

  lemma {:induction false} DescendingEndsFrom(m: BlockMap, h: Bytes, seen: set<Bytes>)
    requires Descending(m) && forall k :: k in seen && Held(m, h) ==> k in m && m[k].height > m[h].height
    ensures EndsFrom(m, h, seen)
    decreases m.Keys - seen
  {
    if Held(m, h) {
      assert h in m.Keys - seen;
      DescendingEndsFrom(m, m[h].prev, seen + {h});
    }
  }

  lemma DescendingEnds(m: BlockMap, h: Bytes)
    requires Descending(m)
    ensures Ends(m, h)
  {
    DescendingEndsFrom(m, h, {});
  }

  /** The transactions of a list of blocks, block by block, in order. */
  function Flatten(bs: seq<Block>): seq<Transaction> {
    if bs == [] then [] else bs[0].txs + Flatten(bs[1..])
  }

  /** blockchain.go FindTransaction: the first match in walking order. */
  function FindTx(txs: seq<Transaction>, id: Bytes): Option<Transaction> {
    if txs == [] then None else if txs[0].id == id then Some(txs[0]) else FindTx(txs[1..], id)
  }

  /** Of several transactions with one ID the lookup returns the first it meets, the newest on the chain. */
  lemma {:induction false} FindTxIsFirst(txs: seq<Transaction>, id: Bytes, i: nat)
    requires i < |txs| && txs[i].id == id && forall j :: 0 <= j < i ==> txs[j].id != id
    ensures FindTx(txs, id) == Some(txs[i])
  {
    if i > 0 {
      FindTxIsFirst(txs[1..], id, i - 1);
    }
  }

  lemma {:induction false} FindTxFinds(txs: seq<Transaction>, id: Bytes)
    ensures FindTx(txs, id).Some? ==> FindTx(txs, id).value in txs && FindTx(txs, id).value.id == id
    ensures FindTx(txs, id).None? <==> forall i :: 0 <= i < |txs| ==> txs[i].id != id
  {
    if txs != [] && txs[0].id != id {
      FindTxFinds(txs[1..], id);
    }
  }

  lemma {:induction false} FindInEither(a: seq<Transaction>, b: seq<Transaction>, id: Bytes)
    ensures FindTx(a + b, id) == if FindTx(a, id).Some? then FindTx(a, id) else FindTx(b, id)
  {
    if a == [] {
      assert a + b == b;
    } else {
      assert (a + b)[1..] == a[1..] + b;
      FindInEither(a[1..], b, id);
    }
  }

  // ---------- VerifyTransaction ----------

  /** Every transaction the inputs name, found on the chain; None if one is missing. */
  predicate AllFound(txs: seq<Transaction>, vin: seq<TxInput>) {
    forall i :: 0 <= i < |vin| ==> FindTx(txs, vin[i].txid).Some?
  }

  function Txids(vin: seq<TxInput>): set<Bytes> {
    set i | 0 <= i < |vin| :: vin[i].txid
  }

  function PrevFor(txs: seq<Transaction>, vin: seq<TxInput>): (prev: PrevTxs)
    ensures forall i :: 0 <= i < |vin| && FindTx(txs, vin[i].txid).Some? ==>
              vin[i].txid in prev && prev[vin[i].txid] == FindTx(txs, vin[i].txid).value
  {
    map id | id in Txids(vin) && FindTx(txs, id).Some? :: FindTx(txs, id).value
  }

  lemma PrevForStep(txs: seq<Transaction>, vin: seq<TxInput>, i: nat)
    requires i < |vin| && FindTx(txs, vin[i].txid).Some?
    ensures var found := FindTx(txs, vin[i].txid).value;
            PrevFor(txs, vin[..i + 1]) == PrevFor(txs, vin[..i])[found.id := found]
  {
    FindTxFinds(txs, vin[i].txid);
    TxidsStep(vin, i);
    PrevForIs(txs, vin[..i]);
    PrevForIs(txs, vin[..i + 1]);
    assert PrevFor(txs, vin[..i + 1]) == FoundAmong(txs, Txids(vin[..i]) + {vin[i].txid});
    FoundAmongOneMore(txs, Txids(vin[..i]), vin[i].txid);
  }

  function FoundAmong(txs: seq<Transaction>, ids: set<Bytes>): PrevTxs {
    map id | id in ids && FindTx(txs, id).Some? :: FindTx(txs, id).value
  }

  lemma PrevForIs(txs: seq<Transaction>, vin: seq<TxInput>)
    ensures PrevFor(txs, vin) == FoundAmong(txs, Txids(vin))
  {
  }

  lemma FoundAmongOneMore(txs: seq<Transaction>, ids: set<Bytes>, id: Bytes)
    requires FindTx(txs, id).Some?
    ensures FoundAmong(txs, ids + {id}) == FoundAmong(txs, ids)[id := FindTx(txs, id).value]
  {
  }

  lemma TxidsStep(vin: seq<TxInput>, i: nat)
    requires i < |vin|
    ensures Txids(vin[..i + 1]) == Txids(vin[..i]) + {vin[i].txid}
  {
    var a, b := vin[..i + 1], vin[..i];
    forall id | id in Txids(b) ensures id in Txids(a) {
      var k :| 0 <= k < |b| && b[k].txid == id;
      assert a[k].txid == id;
    }
    assert a[i].txid in Txids(a);
  }

  /** A verdict, or an error because a transaction or the tip's block is missing. */
  datatype Outcome = Judged(verdict: Verdict) | NoVerdict

  function ChainTxs(s: State): seq<Transaction> {
    Flatten(Walk(s.blocks, s.tip))
  }

  /** blockchain.go VerifyTransaction, at the height of the stored tip. */
  function VerifyTransaction(c: Suite, s: State, tx: Transaction): Outcome {
    if tx.IsCoinbase() then Judged(Accepted)
    else if !AllFound(ChainTxs(s), tx.vin) || s.storedTip !in s.blocks then NoVerdict
    else Judged(VerifyVerdict(c, tx, PrevFor(ChainTxs(s), tx.vin), s.blocks[s.storedTip].height))
  }

  // ---------- Steps ----------

  function Save(s: State, b: Block): State {
    s.(blocks := s.blocks[b.hash := b])
  }

  function SaveAsTip(s: State, b: Block): State {
    State(s.blocks[b.hash := b], b.hash, b.hash)
  }

  /** blockchain.go AddBlock. Every error leaves the state alone. */
  function AddBlock(c: Suite, s: State, b: Block): State {
    if b.hash in s.blocks || b.hash == TIP_KEY || b.hash == [] then s
    else if !Admissible(c, b) then s
    else if s.storedTip !in s.blocks then s
    else if b.height > s.blocks[s.storedTip].height then SaveAsTip(s, b)
    else Save(s, b)
  }

  /** NewProofOfWork shifts by `256 - bits`, which panics when that is negative; a known hash and
      an authority signature are looked at first. */
  predicate AddPanics(s: State, b: Block) {
    b.hash !in s.blocks && !(b.hash == TIP_KEY && s.storedTip != []) &&
    b.authoritySignature == [] && EffectiveBits(b.bits) > 256
  }

  predicate AddSucceeds(c: Suite, s: State, b: Block) {
    b.hash in AddBlock(c, s, b).blocks || (b.hash == TIP_KEY && s.storedTip != [])
  }

  /** The proof of work covers the parent hash but not the block's own, so AddBlock admits a block
      recorded under its parent's hash; as the tip it sends every later walk round for ever. */
  lemma AdmittedLoop(c: Suite, s: State, b: Block, n: nat)
    requires s.storedTip in s.blocks && b.height > s.blocks[s.storedTip].height
    requires b.authoritySignature == [] && Admissible(c, b)
    requires b.prev != [] && b.prev != TIP_KEY && b.prev !in s.blocks
    ensures var s' := AddBlock(c, s, b.(hash := b.prev));
            s'.tip == b.prev && !Ends(s'.blocks, s'.tip) && Held(s'.blocks, Back(s'.blocks, s'.tip, n))
  {
    var s' := AddBlock(c, s, b.(hash := b.prev));
    assert HashAt(c, b.(hash := b.prev), b.nonce) == HashAt(c, b, b.nonce);
    assert s'.blocks[b.prev].prev == b.prev;
    assert !EndsFrom(s'.blocks, b.prev, {} + {b.prev});
    StaysInLoop(s'.blocks, b.prev, n);
  }

  lemma {:induction false} StaysInLoop(m: BlockMap, h: Bytes, n: nat)
    requires Held(m, h) && m[h].prev == h
    ensures Back(m, h, n) == h
  {
    if n > 0 {
      StaysInLoop(m, h, n - 1);
    }
  }

  /** AddBlock does not look for the parent either: it stores any admissible block, and where the
      parent is missing the store has a gap. As the tip such a block is all that a walk finds. */
  lemma AdmittedGap(c: Suite, s: State, b: Block, g: Block)
    requires Inv(s) && Linked(s.blocks, g) && Admissible(c, b)
    requires b.hash !in s.blocks && b.hash != [] && b.hash != TIP_KEY && b.prev !in s.blocks && b.prev != b.hash
    ensures var s' := AddBlock(c, s, b);
            Inv(s') && !Linked(s'.blocks, g) &&
            (b.height > s.blocks[s.tip].height ==> Ends(s'.blocks, s'.tip) && Walk(s'.blocks, s'.tip) == [b])
  {
    var s' := AddBlock(c, s, b);
    StepKeepsInv(c, s, Add(b), s');
    assert b.hash in s'.blocks && s'.blocks[b.hash] == b && !Held(s'.blocks, b.prev);
    if b.height > s.blocks[s.tip].height {
      assert Trail(s'.blocks, b.prev, {} + {b.hash}) == [];
    }
  }

  /** What MineBlock does with a block it has mined from `txs`: all of `txs` verified in the
      state before, and the block is the child of the stored tip. */
  predicate MayMine(c: Suite, s: State, b: Block) {
    && s.storedTip in s.blocks
    && (forall i :: 0 <= i < |b.txs| ==> VerifyTransaction(c, s, b.txs[i]) == Judged(Accepted))
    && b.prev == s.storedTip
    && b.height == s.blocks[s.storedTip].height + 1
    && b.bits == EffectiveBits(s.blocks[s.storedTip].bits)
    && |b.hash| == 32
  }

  datatype Event = Mine(block: Block) | Add(block: Block)

  /** One call. A mined block's hash is assumed not to collide with a stored one. */
  predicate Next(c: Suite, s: State, e: Event, s': State) {
    match e
    case Mine(b) => MayMine(c, s, b) && b.hash !in s.blocks && s' == SaveAsTip(s, b)
    case Add(b) => s' == AddBlock(c, s, b)
  }

  /** A first block with one coinbase of one ordinary output. */
  predicate IsGenesis(b: Block) {
    b.height == 0 && b.prev == [] && |b.hash| == 32 && b.bits == TARGET_BITS && |b.txs| == 1 &&
    b.txs[0].IsCoinbase() && |b.txs[0].vout| == 1 && !IsContract(b.txs[0].vout[0])
  }

  /** blockchain.go CreateBlockchain on an empty store. */
  function Created(g: Block): State {
    State(map[g.hash := g], g.hash, g.hash)
  }

  predicate IsRun(c: Suite, states: seq<State>, events: seq<Event>) {
    |states| == |events| + 1 &&
    forall i :: 0 <= i < |events| ==> Next(c, states[i], events[i], states[i + 1])
  }

  // ---------- Invariants of every run ----------

  /** The two tips agree and name a stored block of greatest height; blocks are stored under
      their own hash, never the tip's key. */
  predicate Inv(s: State) {
    s.tip == s.storedTip && Held(s.blocks, s.tip) &&
    (forall h :: h in s.blocks ==> s.blocks[h].hash == h && s.blocks[h].height <= s.blocks[s.tip].height) &&
    (forall h :: h in s.blocks ==> h != [] && h != TIP_KEY)
  }

  /** Nothing stored is lost or changed, and the tip only gives way to a strictly higher block. */
  predicate Extends(s: State, s': State) {
    s.tip in s.blocks && s'.tip in s'.blocks &&
    (s'.tip == s.tip || s.blocks[s.tip].height < s'.blocks[s'.tip].height) &&
    (forall h :: h in s.blocks ==> h in s'.blocks && s'.blocks[h] == s.blocks[h])
  }

  lemma StepKeepsInv(c: Suite, s: State, e: Event, s': State)
    requires Inv(s) && Next(c, s, e, s')
    ensures Inv(s') && Extends(s, s')
  {
  }

  /** Along every run of MineBlock and AddBlock calls, in any order: the invariant holds in
      every state and each state extends all earlier ones. */
  lemma {:induction false} RunInvariant(c: Suite, states: seq<State>, events: seq<Event>, i: nat, j: nat)
    requires IsRun(c, states, events) && Inv(states[0])
    requires i <= j < |states|
    ensures Inv(states[i]) && Inv(states[j]) && Extends(states[i], states[j])
    decreases j
  {
    if i < j {
      RunInvariant(c, states, events, i, j - 1);
      StepKeepsInv(c, states[j - 1], events[j - 1], states[j]);
    } else if j > 0 {
      RunInvariant(c, states, events, j - 1, j - 1);
      StepKeepsInv(c, states[j - 1], events[j - 1], states[j]);
    }
  }

  lemma GenesisInv(g: Block)
    requires IsGenesis(g)
    ensures Inv(Created(g)) && Linked(Created(g).blocks, g)
  {
  }

  // ---------- Chains whose blocks extend stored parents ----------

  /** Every block but genesis sits one above its stored parent. */
  predicate Linked(m: BlockMap, g: Block) {
    Held(m, g.hash) && m[g.hash] == g && g.prev == [] && g.height == 0 &&
    forall h :: h in m && h != g.hash ==> Held(m, m[h].prev) && m[h].height == m[m[h].prev].height + 1
  }

  predicate ExtendsParent(s: State, e: Event) {
    e.Add? ==> Held(s.blocks, e.block.prev) && e.block.height == s.blocks[e.block.prev].height + 1
  }

  lemma LinkedDescends(m: BlockMap, g: Block)
    requires Linked(m, g)
    ensures Descending(m)
  {
  }

  lemma StepKeepsLinked(c: Suite, s: State, e: Event, s': State, g: Block)
    requires Inv(s) && Linked(s.blocks, g) && Next(c, s, e, s') && ExtendsParent(s, e)
    ensures Linked(s'.blocks, g)
  {
    if s' != s {
      LinkedWith(s.blocks, g, e.block);
    }
  }

  lemma LinkedWith(m: BlockMap, g: Block, b: Block)
    requires Linked(m, g) && b.hash !in m && b.hash != [] && (forall h :: h in m ==> h != [])
    requires Held(m, b.prev) && b.height == m[b.prev].height + 1
    ensures Linked(m[b.hash := b], g)
  {
  }

  lemma {:induction false} RunLinked(c: Suite, states: seq<State>, events: seq<Event>, g: Block, i: nat)
    requires IsRun(c, states, events) && Inv(states[0]) && Linked(states[0].blocks, g)
    requires forall k :: 0 <= k < |events| ==> ExtendsParent(states[k], events[k])
    requires i < |states|
    ensures Linked(states[i].blocks, g)
  {
    if i > 0 {
      RunLinked(c, states, events, g, i - 1);
      RunInvariant(c, states, events, 0, i - 1);
      StepKeepsLinked(c, states[i - 1], events[i - 1], states[i], g);
    }
  }

  /** Heights of stored blocks are never negative. */
  lemma LinkedHeight(m: BlockMap, g: Block, h: Bytes)
    requires Linked(m, g) && Held(m, h)
    ensures m[h].height >= 0 && (m[h].height == 0 ==> h == g.hash)
    decreases NotAbove(m, h)
  {
    LinkedDescends(m, g);
    if h != g.hash {
      StepDown(m, h);
      LinkedHeight(m, g, m[h].prev);
    }
  }

  /** Walking back from a block at height n visits n+1 blocks, one height at a time, each the
      stored parent of the one before, and ends with genesis. */
  lemma WalkReachesGenesis(m: BlockMap, g: Block, h: Bytes)
    requires Linked(m, g) && Held(m, h)
    ensures var bs := Walk(m, h);
            |bs| == m[h].height + 1 && bs[|bs| - 1] == g &&
            forall i :: 0 <= i < |bs| ==> bs[i].height == m[h].height - i
    decreases NotAbove(m, h)
  {
    LinkedDescends(m, g);
    WalkUnfold(m, h);
    if h != g.hash {
      StepDown(m, h);
      WalkReachesGenesis(m, g, m[h].prev);
    }
  }

  // ---------- Difficulty along a run ----------

  /** The bits MineBlock asks for: retargeting is only tried when the new height is a multiple
      of the interval, and then CalculateNewDifficulty sees a parent that is not at one. */
  function NextBits(last: Block, anchor: Block): int {
    if (last.height + 1) % ADJUSTMENT_INTERVAL == 0 then CalculateNewDifficulty(last, anchor)
    else EffectiveBits(last.bits)
  }

  /** So the two guards never meet, and the child's difficulty is always the parent's. */
  lemma RetargetNeverFires(last: Block, anchor: Block)
    ensures EffectiveBits(NextBits(last, anchor)) == EffectiveBits(last.bits)
  {
  }

  /** Along every run of MineBlock calls from genesis each block keeps the genesis difficulty. */
  lemma {:induction false} DifficultyNeverChanges(c: Suite, states: seq<State>, events: seq<Event>, g: Block, i: nat)
    requires IsRun(c, states, events) && IsGenesis(g) && states[0] == Created(g)
    requires forall k :: 0 <= k < |events| ==> events[k].Mine?
    requires i < |states|
    ensures forall h :: h in states[i].blocks ==> states[i].blocks[h].bits == TARGET_BITS
  {
    if i > 0 {
      DifficultyNeverChanges(c, states, events, g, i - 1);
      assert Next(c, states[i - 1], events[i - 1], states[i]);
    }
  }
}
