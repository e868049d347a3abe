/** What the mining loop of internal/network/server.go handleTx does to the chain and the
    mempool, round by round, and what that means on a chain built by mining. */
module MiningLoop {
  import opened Prelude
  import opened Ledger
  import opened Transactions
  import opened ProofOfWork
  import opened Wallets
  import opened Chain
  import opened Utxo
  import opened MinedChain
  import opened Node
  import Builders

  type Mempool = map<Bytes, Transaction>

  /** Every pooled transaction sits under its own ID. */
  predicate KeyedById(pool: Mempool) {
    forall id :: id in pool ==> pool[id].id == id
  }

  function IdsOf(txs: seq<Transaction>): set<Bytes> {
    set i | 0 <= i < |txs| :: txs[i].id
  }

  /** What one round takes from outside: the clock, the random text of the coinbase, and the
      answers of the mining context. */
  datatype Round = Round(now: int64, drawn: Bytes, cancelled: int -> bool)

  // ---------- One round ----------

  predicate Pooled(pool: Mempool, tx: Transaction) {
    tx.id in pool && pool[tx.id] == tx
  }

  /** Verifying some pooled transaction panics. */
  predicate AnyCrash(c: Suite, s: State, pool: Mempool) {
    exists id :: id in pool && VerifyTransaction(c, s, pool[id]) == Judged(Crashed)
  }

  predicate AnyAccepted(c: Suite, s: State, pool: Mempool) {
    exists id :: id in pool && VerifyTransaction(c, s, pool[id]) == Judged(Accepted)
  }

  /** `txs` are the pooled transactions the chain accepts, each once. */
  ghost predicate Assembled(c: Suite, s: State, pool: Mempool, txs: seq<Transaction>) {
    Distinct(txs) && forall tx :: tx in txs <==> Pooled(pool, tx) && VerifyTransaction(c, s, tx) == Judged(Accepted)
  }

  /** Block `b` is a round's: everything accepted, then the miner's coinbase, mined at the round's
      time under the hash of its header. */
  ghost predicate RoundOk(c: Suite, miner: Bytes, round: Round, s: State, pool: Mempool, b: Block) {
    |b.txs| >= 2 && MayMine(c, s, b) && !AnyCrash(c, s, pool) &&
    Assembled(c, s, pool, b.txs[..|b.txs| - 1]) &&
    Some(b.txs[|b.txs| - 1]) == Builders.NewCoinbaseTX(c, miner, [], round.drawn) &&
    b.timestamp == round.now && (b.nonce < MAX_NONCE ==> b.hash == HashAt(c, b, b.nonce))
  }

  // ---------- All rounds ----------

  function PoolAfter(pool: Mempool, blocks: seq<Block>): Mempool {
    if blocks == [] then pool else PoolAfter(pool, blocks[..|blocks| - 1]) - IdsOf(blocks[|blocks| - 1].txs)
  }

  /** Block `q` is a proper round in the state and with the pool the earlier ones left. */
  ghost predicate RoundOkAt(c: Suite, miner: Bytes, rounds: nat -> Round, s: State, pool: Mempool, blocks: seq<Block>,
                            q: nat)
    requires q < |blocks|
  {
    RoundOk(c, miner, rounds(q), StateAfter(s, blocks[..q]), PoolAfter(pool, blocks[..q]), blocks[q])
  }

  ghost predicate RoundsOk(c: Suite, miner: Bytes, rounds: nat -> Round, s: State, pool: Mempool, blocks: seq<Block>) {
    forall q: nat :: q < |blocks| ==> RoundOkAt(c, miner, rounds, s, pool, blocks, q)
  }

  /** Why the loop stopped: too few transactions, no miner or no peer; nothing valid; an error of
      MineBlock; a panic; or a new tip from which the walk never ends. */
  datatype LoopEnd = Waiting | NothingValid | NotMined | Panicked | Diverged

  /** The reasons to panic after the transactions are assembled: the miner's address, or a tip
      whose difficulty no target can express. */
  predicate CannotMine(miner: Bytes, s: State) {
    LockedHash(miner).None? || (Held(s.blocks, s.storedTip) && EffectiveBits(s.blocks[s.storedTip].bits) > 256)
  }

  /** The state and pool in which the loop ends the way `end` says. */
  ghost predicate Stops(c: Suite, miner: Bytes, round: Round, canMine: bool, s: State, pool: Mempool, end: LoopEnd) {
    var active := |pool| >= 2 && canMine;
    var crash, some := AnyCrash(c, s, pool), AnyAccepted(c, s, pool);
    match end
    case Waiting => !active
    case Panicked => active && (crash || (some && CannotMine(miner, s)))
    case NothingValid => active && !crash && !some
    case NotMined =>
      active && !crash && some && LockedHash(miner).Some? &&
      (Rooted(s.blocks) && Held(s.blocks, s.storedTip) ==> Interrupted(round.cancelled) && !CannotMine(miner, s))
    case Diverged => !Ends(s.blocks, s.tip)
  }

  lemma SameRound(c: Suite, miner: Bytes, rounds: nat -> Round, s: State, pool: Mempool, blocks: seq<Block>,
                  longer: seq<Block>, q: nat)
    requires q < |blocks| && q < |longer| && longer[..q] == blocks[..q] && longer[q] == blocks[q]
    ensures RoundOkAt(c, miner, rounds, s, pool, longer, q) == RoundOkAt(c, miner, rounds, s, pool, blocks, q)
  {
  }

  lemma OneMoreRound(c: Suite, miner: Bytes, rounds: nat -> Round, s: State, pool: Mempool, blocks: seq<Block>,
                     b: Block)
    requires RoundsOk(c, miner, rounds, s, pool, blocks)
    requires RoundOk(c, miner, rounds(|blocks|), StateAfter(s, blocks), PoolAfter(pool, blocks), b)
    ensures RoundsOk(c, miner, rounds, s, pool, blocks + [b])
  {
    var longer := blocks + [b];
    forall q: nat | q < |longer| ensures RoundOkAt(c, miner, rounds, s, pool, longer, q) {
      if q < |blocks| {
        assert RoundOkAt(c, miner, rounds, s, pool, blocks, q);
        assert longer[..q] == blocks[..q];
        SameRound(c, miner, rounds, s, pool, blocks, longer, q);
      } else {
        assert longer[..q] == blocks;
      }
    }
  }

  lemma PoolAfterOne(pool: Mempool, blocks: seq<Block>, b: Block)
    ensures PoolAfter(pool, blocks + [b]) == PoolAfter(pool, blocks) - IdsOf(b.txs)
  {
    assert (blocks + [b])[..|blocks|] == blocks;
  }

  // ---------- Every round mines something new ----------

  lemma RemovalShrinks(pool: Mempool, ids: set<Bytes>, id: Bytes)
    requires id in pool && id in ids
    ensures |pool - ids| < |pool|
  {
    var rest := pool - ids;
    assert rest.Keys <= pool.Keys - {id};
    CardinalitySubset(rest.Keys, pool.Keys - {id});
    assert |rest| == |rest.Keys| && |pool| == |pool.Keys|;
  }

  lemma CardinalitySubset<T>(a: set<T>, b: set<T>)
    requires a <= b
    ensures |a| <= |b|
    decreases a
  {
    if a != {} {
      var x :| x in a;
      CardinalitySubset(a - {x}, b - {x});
    }
  }

  lemma RoundShrinksPool(c: Suite, miner: Bytes, round: Round, s: State, pool: Mempool, b: Block)
    requires RoundOk(c, miner, round, s, pool, b)
    ensures |pool - IdsOf(b.txs)| < |pool|
  {
    var txs := b.txs[..|b.txs| - 1];
    assert txs[0] in txs && Pooled(pool, txs[0]);
    assert b.txs[0].id in IdsOf(b.txs);
    RemovalShrinks(pool, IdsOf(b.txs), b.txs[0].id);
  }

  lemma {:induction false} PoolLoses(pool: Mempool, blocks: seq<Block>, r: nat, i: nat)
    requires r < |blocks| && i < |blocks[r].txs|
    ensures blocks[r].txs[i].id !in PoolAfter(pool, blocks)
  {
    var n := |blocks| - 1;
    if r < n {
      PoolLoses(pool, blocks[..n], r, i);
    } else {
      assert blocks[n].txs[i].id in IdsOf(blocks[n].txs);
    }
  }

  /** No pooled transaction is mined twice, nor one whose ID an earlier block already holds. */
  lemma MinedOnce(c: Suite, miner: Bytes, rounds: nat -> Round, s: State, pool: Mempool, blocks: seq<Block>,
                  r: nat, i: nat, q: nat, j: nat)
    requires RoundsOk(c, miner, rounds, s, pool, blocks) && r < q < |blocks|
    requires i < |blocks[r].txs| && j < |blocks[q].txs| - 1
    ensures blocks[r].txs[i].id != blocks[q].txs[j].id
  {
    assert RoundOkAt(c, miner, rounds, s, pool, blocks, q);
    var txs := blocks[q].txs[..|blocks[q].txs| - 1];
    assert txs[j] in txs && Pooled(PoolAfter(pool, blocks[..q]), txs[j]);
    PoolLoses(pool, blocks[..q], r, i);
  }

  // ---------- On a chain built by mining ----------

  /** Block `q` has a hash and transaction IDs the chain did not hold. */
  predicate FreshAt(s: State, blocks: seq<Block>, q: nat)
    requires q < |blocks|
  {
    blocks[q].hash !in StateAfter(s, blocks[..q]).blocks && FreshIds(StateAfter(s, blocks[..q]), blocks[q])
  }

  predicate FreshRounds(s: State, blocks: seq<Block>) {
    forall q: nat | q < |blocks| :: FreshAt(s, blocks, q)
  }

  lemma ContinuesOneMore(c: Suite, s: State, blocks: seq<Block>, b: Block)
    requires Continues(c, s, blocks) && MayMine(c, StateAfter(s, blocks), b)
    requires b.hash !in StateAfter(s, blocks).blocks && FreshIds(StateAfter(s, blocks), b)
    ensures Continues(c, s, blocks + [b])
  {
    assert (blocks + [b])[..|blocks|] == blocks;
  }

  lemma RoundContinues(c: Suite, miner: Bytes, rounds: nat -> Round, s: State, pool: Mempool, blocks: seq<Block>,
                       n: nat)
    requires 0 < n <= |blocks| && RoundOkAt(c, miner, rounds, s, pool, blocks, n - 1) && FreshAt(s, blocks, n - 1)
    requires Continues(c, s, blocks[..n - 1])
    ensures Continues(c, s, blocks[..n])
  {
    ContinuesOneMore(c, s, blocks[..n - 1], blocks[n - 1]);
    assert blocks[..n] == blocks[..n - 1] + [blocks[n - 1]];
  }

  lemma {:induction false} RoundsContinueTo(c: Suite, miner: Bytes, rounds: nat -> Round, s: State, pool: Mempool,
                                            blocks: seq<Block>, n: nat)
    requires RoundsOk(c, miner, rounds, s, pool, blocks) && FreshRounds(s, blocks) && n <= |blocks|
    ensures Continues(c, s, blocks[..n])
  {
    if n > 0 {
      RoundsContinueTo(c, miner, rounds, s, pool, blocks, n - 1);
      RoundContinues(c, miner, rounds, s, pool, blocks, n);
    }
  }

  lemma RoundsContinue(c: Suite, miner: Bytes, rounds: nat -> Round, s: State, pool: Mempool, blocks: seq<Block>)
    requires RoundsOk(c, miner, rounds, s, pool, blocks) && FreshRounds(s, blocks)
    ensures Continues(c, s, blocks)
  {
    RoundsContinueTo(c, miner, rounds, s, pool, blocks, |blocks|);
    assert blocks[..|blocks|] == blocks;
  }

  /** The loop's blocks continue the mining run. */
  lemma LoopExtendsRun(c: Suite, miner: Bytes, rounds: nat -> Round, g: Block, run: seq<Block>, pool: Mempool,
                       blocks: seq<Block>)
    requires IsMiningRun(c, g, run)
    requires RoundsOk(c, miner, rounds, After(g, run), pool, blocks) && FreshRounds(After(g, run), blocks)
    ensures IsMiningRun(c, g, run + blocks) && After(g, run + blocks) == StateAfter(After(g, run), blocks)
  {
    RoundsContinue(c, miner, rounds, After(g, run), pool, blocks);
    ContinuesBoth(c, Created(g), run, blocks);
    StateAfterBoth(Created(g), run, blocks);
  }

  lemma {:induction false} RunTipBits(c: Suite, g: Block, run: seq<Block>)
    requires IsMiningRun(c, g, run)
    ensures var s := After(g, run); Held(s.blocks, s.storedTip) && s.blocks[s.storedTip].bits == TARGET_BITS
  {
    if run != [] {
      RunTipBits(c, g, run[..|run| - 1]);
    }
  }

  /** On a chain built by mining, with a well-formed miner address and fresh hashes and IDs: the
      loop always ends; it panics exactly when verification panics on a transaction left in the
      pool, having panicked on none before; it breaks off without a block only when cancelled,
      so MineBlock never rejects what the loop assembled; and the table Reindex stores is the
      true unspent table of the longer chain. */
  lemma LoopOnMinedChain(c: Suite, miner: Bytes, rounds: nat -> Round, canMine: bool, g: Block, run: seq<Block>,
                         pool: Mempool, blocks: seq<Block>, end: LoopEnd)
    requires IsMiningRun(c, g, run) && LockedHash(miner).Some?
    requires RoundsOk(c, miner, rounds, After(g, run), pool, blocks) && FreshRounds(After(g, run), blocks)
    requires Stops(c, miner, rounds(|blocks|), canMine, StateAfter(After(g, run), blocks), PoolAfter(pool, blocks), end)
    ensures end != Diverged && (end == NotMined ==> Interrupted(rounds(|blocks|).cancelled))
    ensures var left := PoolAfter(pool, blocks);
            end == Panicked <==> canMine && |left| >= 2 && AnyCrash(c, After(g, run + blocks), left)
    ensures forall q :: 0 <= q < |blocks| ==> !AnyCrash(c, After(g, run + blocks[..q]), PoolAfter(pool, blocks[..q]))
    ensures var walk := ChainTxs(After(g, run + blocks)); FindTable(walk) == TrueTable(walk)
  {
    LoopExtendsRun(c, miner, rounds, g, run, pool, blocks);
    StopsOnMinedChain(c, miner, rounds(|blocks|), canMine, g, run + blocks, PoolAfter(pool, blocks), end);
    FindUtxoIsRight(c, g, run + blocks, 0);
    forall q | 0 <= q < |blocks| ensures !AnyCrash(c, After(g, run + blocks[..q]), PoolAfter(pool, blocks[..q])) {
      NoCrashBefore(c, miner, rounds, g, run, pool, blocks, q);
    }
  }

  lemma StopsOnMinedChain(c: Suite, miner: Bytes, round: Round, canMine: bool, g: Block, run: seq<Block>,
                          pool: Mempool, end: LoopEnd)
    requires IsMiningRun(c, g, run) && LockedHash(miner).Some? &&
             Stops(c, miner, round, canMine, After(g, run), pool, end)
    ensures end != Diverged && (end == NotMined ==> Interrupted(round.cancelled))
    ensures end == Panicked <==> canMine && |pool| >= 2 && AnyCrash(c, After(g, run), pool)
  {
    var s := After(g, run);
    MiningRun(c, g, run);
    DescendingEnds(s.blocks, s.tip);
    RunTipBits(c, g, run);
    assert Rooted(s.blocks);
  }

  lemma NoCrashBefore(c: Suite, miner: Bytes, rounds: nat -> Round, g: Block, run: seq<Block>, pool: Mempool,
                      blocks: seq<Block>, q: nat)
    requires IsMiningRun(c, g, run) && q < |blocks|
    requires RoundsOk(c, miner, rounds, After(g, run), pool, blocks) && FreshRounds(After(g, run), blocks)
    ensures !AnyCrash(c, After(g, run + blocks[..q]), PoolAfter(pool, blocks[..q]))
  {
    assert RoundOkAt(c, miner, rounds, After(g, run), pool, blocks, q);
    RoundsPrefix(c, miner, rounds, After(g, run), pool, blocks, q);
    FreshPrefix(After(g, run), blocks, q);
    LoopExtendsRun(c, miner, rounds, g, run, pool, blocks[..q]);
  }

  lemma RoundsPrefix(c: Suite, miner: Bytes, rounds: nat -> Round, s: State, pool: Mempool, blocks: seq<Block>, q: nat)
    requires RoundsOk(c, miner, rounds, s, pool, blocks) && q <= |blocks|
    ensures RoundsOk(c, miner, rounds, s, pool, blocks[..q])
  {
    forall r: nat | r < q ensures RoundOkAt(c, miner, rounds, s, pool, blocks[..q], r) {
      assert RoundOkAt(c, miner, rounds, s, pool, blocks, r);
      assert blocks[..q][..r] == blocks[..r];
      SameRound(c, miner, rounds, s, pool, blocks, blocks[..q], r);
    }
  }

  lemma FreshPrefix(s: State, blocks: seq<Block>, q: nat)
    requires FreshRounds(s, blocks) && q <= |blocks|
    ensures FreshRounds(s, blocks[..q])
  {
    forall r: nat | r < q ensures FreshAt(s, blocks[..q], r) {
      assert FreshAt(s, blocks, r);
      assert blocks[..q][..r] == blocks[..r];
    }
  }

  // ---------- Panics, read off the input ----------

  /** A loop that is handed a transaction whose verification panics mines nothing and panics. */
  lemma CrashAtOnce(c: Suite, miner: Bytes, rounds: nat -> Round, s: State, pool: Mempool, blocks: seq<Block>,
                    end: LoopEnd)
    requires RoundsOk(c, miner, rounds, s, pool, blocks) && Ends(s.blocks, s.tip)
    requires Stops(c, miner, rounds(|blocks|), true, StateAfter(s, blocks), PoolAfter(pool, blocks), end)
    requires |pool| >= 2 && AnyCrash(c, s, pool)
    ensures blocks == [] && end == Panicked
  {
    FirstRoundIsSafe(c, miner, rounds, s, pool, blocks);
  }

  lemma FirstRoundIsSafe(c: Suite, miner: Bytes, rounds: nat -> Round, s: State, pool: Mempool, blocks: seq<Block>)
    requires RoundsOk(c, miner, rounds, s, pool, blocks)
    ensures blocks != [] ==> !AnyCrash(c, s, pool)
  {
    if blocks != [] {
      assert RoundOkAt(c, miner, rounds, s, pool, blocks, 0);
      assert blocks[..0] == [];
    }
  }

  /** `walk` or the pool holds a transaction under this ID. */
  predicate KnownId(walk: seq<Transaction>, pool: Mempool, id: Bytes) {
    id in pool || exists k :: 0 <= k < |walk| && walk[k].id == id
  }

  /** The input is in range of every transaction of `walk` or the pool that it may name; it names the
      first output if it names neither, since all it can meet then is a coinbase. */
  predicate InputInRange(walk: seq<Transaction>, pool: Mempool, input: TxInput) {
    0 <= input.vout && (input.vout == 0 || KnownId(walk, pool, input.txid)) &&
    (input.txid in pool ==> input.vout < |pool[input.txid].vout|) &&
    (forall k :: 0 <= k < |walk| && walk[k].id == input.txid ==> input.vout < |walk[k].vout|)
  }

  predicate PoolInRange(walk: seq<Transaction>, pool: Mempool) {
    forall id, i :: id in pool && 0 <= i < |pool[id].vin| ==> InputInRange(walk, pool, pool[id].vin[i])
  }

  /** No coinbase of the loop has the ID of a pooled transaction. */
  predicate CoinbasesApart(pool: Mempool, blocks: seq<Block>) {
    forall q :: 0 <= q < |blocks| && blocks[q].txs != [] ==> blocks[q].txs[|blocks[q].txs| - 1].id !in pool
  }

  /** Everything on the longer chain was on it before, comes from the pool, or is a coinbase of the
      loop with its one output. */
  predicate FromWalkOrPool(walk: seq<Transaction>, pool: Mempool, tx: Transaction) {
    tx in walk || Pooled(pool, tx) || (|tx.vout| == 1 && tx.id !in pool)
  }

  predicate Origins(walk: seq<Transaction>, pool: Mempool, longer: seq<Transaction>) {
    (forall k :: 0 <= k < |longer| ==> FromWalkOrPool(walk, pool, longer[k])) &&
    (forall k :: 0 <= k < |walk| ==> walk[k] in longer)
  }

  lemma {:induction false} PoolOnlyShrinks(pool: Mempool, blocks: seq<Block>, id: Bytes)
    requires id in PoolAfter(pool, blocks)
    ensures id in pool && PoolAfter(pool, blocks)[id] == pool[id]
  {
    if blocks != [] {
      PoolOnlyShrinks(pool, blocks[..|blocks| - 1], id);
    }
  }

  lemma RoundOrigins(c: Suite, miner: Bytes, round: Round, s: State, pool: Mempool, left: Mempool, b: Block, j: nat)
    requires RoundOk(c, miner, round, s, left, b) && j < |b.txs| && b.txs[|b.txs| - 1].id !in pool
    requires forall id :: id in left ==> id in pool && left[id] == pool[id]
    ensures FromWalkOrPool([], pool, b.txs[j])
  {
    var txs := b.txs[..|b.txs| - 1];
    if j < |txs| {
      assert txs[j] in txs && Pooled(left, txs[j]);
    }
  }

  lemma LongerOrigins(walk: seq<Transaction>, pool: Mempool, longer: seq<Transaction>, txs: seq<Transaction>)
    requires Origins(walk, pool, longer) && forall j :: 0 <= j < |txs| ==> FromWalkOrPool([], pool, txs[j])
    ensures Origins(walk, pool, txs + longer)
  {
    forall k | 0 <= k < |txs + longer| ensures FromWalkOrPool(walk, pool, (txs + longer)[k]) {
      if k < |txs| {
        assert FromWalkOrPool([], pool, txs[k]);
      } else {
        assert FromWalkOrPool(walk, pool, longer[k - |txs|]);
      }
    }
  }

  lemma {:induction false} LoopOrigins(c: Suite, miner: Bytes, rounds: nat -> Round, g: Block, run: seq<Block>,
                                       pool: Mempool, blocks: seq<Block>)
    requires IsMiningRun(c, g, run) && CoinbasesApart(pool, blocks)
    requires RoundsOk(c, miner, rounds, After(g, run), pool, blocks) && FreshRounds(After(g, run), blocks)
    ensures Origins(ChainTxs(After(g, run)), pool, ChainTxs(StateAfter(After(g, run), blocks)))
  {
    if blocks != [] {
      var front := blocks[..|blocks| - 1];
      RoundsPrefix(c, miner, rounds, After(g, run), pool, blocks, |front|);
      FreshPrefix(After(g, run), blocks, |front|);
      LoopOrigins(c, miner, rounds, g, run, pool, front);
      RoundAddsOrigins(c, miner, rounds, g, run, pool, blocks);
    }
  }

  lemma RoundAddsOrigins(c: Suite, miner: Bytes, rounds: nat -> Round, g: Block, run: seq<Block>, pool: Mempool,
                         blocks: seq<Block>)
    requires blocks != [] && IsMiningRun(c, g, run) && CoinbasesApart(pool, blocks)
    requires RoundsOk(c, miner, rounds, After(g, run), pool, blocks) && FreshRounds(After(g, run), blocks)
    requires Origins(ChainTxs(After(g, run)), pool, ChainTxs(StateAfter(After(g, run), blocks[..|blocks| - 1])))
    ensures Origins(ChainTxs(After(g, run)), pool, ChainTxs(StateAfter(After(g, run), blocks)))
  {
    var front, last := blocks[..|blocks| - 1], blocks[|blocks| - 1];
    LoopExtendsRun(c, miner, rounds, g, run, pool, blocks);
    LastRoundMines(c, g, run, blocks);
    LastRoundOrigins(c, miner, rounds, After(g, run), pool, blocks);
    LongerOrigins(ChainTxs(After(g, run)), pool, ChainTxs(StateAfter(After(g, run), front)), last.txs);
  }

  /** The last block of the loop goes in front of the walk. */
  lemma LastRoundMines(c: Suite, g: Block, run: seq<Block>, blocks: seq<Block>)
    requires blocks != [] && IsMiningRun(c, g, run + blocks)
    ensures ChainTxs(StateAfter(After(g, run), blocks)) ==
            blocks[|blocks| - 1].txs + ChainTxs(StateAfter(After(g, run), blocks[..|blocks| - 1]))
  {
    StateAfterBoth(Created(g), run, blocks);
    SplitLast(blocks);
    LastOnTop(c, g, run, blocks[..|blocks| - 1], blocks[|blocks| - 1], blocks);
  }

  lemma LastOnTop(c: Suite, g: Block, run: seq<Block>, front: seq<Block>, last: Block, blocks: seq<Block>)
    requires blocks == front + [last] && IsMiningRun(c, g, run + blocks)
    ensures ChainTxs(After(g, run + blocks)) == last.txs + ChainTxs(StateAfter(After(g, run), front))
  {
    JoinThree(run, front, [last]);
    StateAfterBoth(Created(g), run, front);
    MinedOnTop(c, g, run + front, last, run + blocks);
  }

  lemma LastRoundOrigins(c: Suite, miner: Bytes, rounds: nat -> Round, s: State, pool: Mempool, blocks: seq<Block>)
    requires blocks != [] && RoundsOk(c, miner, rounds, s, pool, blocks) && CoinbasesApart(pool, blocks)
    ensures var txs := blocks[|blocks| - 1].txs; forall j :: 0 <= j < |txs| ==> FromWalkOrPool([], pool, txs[j])
  {
    var front, last := blocks[..|blocks| - 1], blocks[|blocks| - 1];
    var left := PoolAfter(pool, front);
    assert RoundOkAt(c, miner, rounds, s, pool, blocks, |front|);
    forall id | id in left ensures id in pool && left[id] == pool[id] {
      PoolOnlyShrinks(pool, front, id);
    }
    forall j | 0 <= j < |last.txs| ensures FromWalkOrPool([], pool, last.txs[j]) {
      RoundOrigins(c, miner, rounds(|front|), StateAfter(s, front), pool, left, last, j);
    }
  }

  /** Whatever the input meets on the longer chain, it names one of its outputs. */
  lemma InRangeLater(walk: seq<Transaction>, pool: Mempool, longer: seq<Transaction>, input: TxInput)
    requires Origins(walk, pool, longer) && UniqueIds(longer) && InputInRange(walk, pool, input)
    requires FindTx(longer, input.txid).Some?
    ensures 0 <= input.vout < |FindTx(longer, input.txid).value.vout|
  {
    var tx := FindTx(longer, input.txid).value;
    FindTxFinds(longer, input.txid);
    var k :| 0 <= k < |longer| && longer[k] == tx;
    assert FromWalkOrPool(walk, pool, longer[k]);
    if j :| 0 <= j < |walk| && walk[j].id == input.txid {
      assert walk[j] in longer;
      assert tx == walk[j];
    }
  }

  lemma InRangeNeverCrashes(c: Suite, s: State, walk: seq<Transaction>, pool: Mempool, tx: Transaction)
    requires Origins(walk, pool, ChainTxs(s)) && UniqueIds(ChainTxs(s))
    requires forall i :: 0 <= i < |tx.vin| ==> InputInRange(walk, pool, tx.vin[i])
    ensures VerifyTransaction(c, s, tx) != Judged(Crashed)
  {
    if !tx.IsCoinbase() && AllFound(ChainTxs(s), tx.vin) && s.storedTip in s.blocks {
      var prev := PrevFor(ChainTxs(s), tx.vin);
      forall i | 0 <= i < |tx.vin| && Known(prev, tx.vin[i]) ensures Resolves(prev, tx.vin[i]) {
        InRangeLater(walk, pool, ChainTxs(s), tx.vin[i]);
      }
      assert !Crashes(c, tx, prev, s.blocks[s.storedTip].height);
    }
  }

  /** On a mined chain a loop whose pool is in range at the start never panics. */
  lemma InRangeLoopNeverPanics(c: Suite, miner: Bytes, rounds: nat -> Round, canMine: bool, g: Block, run: seq<Block>,
                               pool: Mempool, blocks: seq<Block>, end: LoopEnd)
    requires IsMiningRun(c, g, run) && LockedHash(miner).Some? && CoinbasesApart(pool, blocks)
    requires RoundsOk(c, miner, rounds, After(g, run), pool, blocks) && FreshRounds(After(g, run), blocks)
    requires Stops(c, miner, rounds(|blocks|), canMine, StateAfter(After(g, run), blocks), PoolAfter(pool, blocks), end)
    requires PoolInRange(ChainTxs(After(g, run)), pool)
    ensures end != Panicked
  {
    var walk, left, s := ChainTxs(After(g, run)), PoolAfter(pool, blocks), StateAfter(After(g, run), blocks);
    LoopExtendsRun(c, miner, rounds, g, run, pool, blocks);
    MiningRun(c, g, run + blocks);
    LoopOrigins(c, miner, rounds, g, run, pool, blocks);
    forall id | id in left ensures VerifyTransaction(c, s, left[id]) != Judged(Crashed) {
      PoolOnlyShrinks(pool, blocks, id);
      InRangeNeverCrashes(c, s, walk, pool, left[id]);
    }
    StopsOnMinedChain(c, miner, rounds(|blocks|), canMine, g, run + blocks, left, end);
  }

  /** Such a panic is reached by any transaction whose first input names, on a known transaction,
      an output past the last one: handleTx pools what it receives unverified. */
  lemma OutOfRangeCrashes(c: Suite, s: State, tx: Transaction)
    requires s.storedTip in s.blocks && AllFound(ChainTxs(s), tx.vin) && !tx.IsCoinbase()
    requires tx.vin != [] && forall i :: 0 <= i < |tx.vin| ==> tx.vin[i].txid != []
    requires forall i :: 0 <= i < |tx.vout| ==> tx.vout[i].value > 0
    requires tx.vin[0].vout >= |FindTx(ChainTxs(s), tx.vin[0].txid).value.vout|
    ensures VerifyTransaction(c, s, tx) == Judged(Crashed)
  {
    var prev := PrevFor(ChainTxs(s), tx.vin);
    forall i | 0 <= i < |tx.vin| ensures Known(prev, tx.vin[i]) {
      FindTxFinds(ChainTxs(s), tx.vin[i].txid);
    }
    CrashedAt(c, tx, prev, s.blocks[s.storedTip].height, 0);
  }
}
