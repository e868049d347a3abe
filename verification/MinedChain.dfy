/** Runs of MineBlock from genesis: what its verification guarantees about the chain it builds,
    and hence about FindUTXO and Update on that chain. */
module MinedChain {
  import opened Prelude
  import opened Ledger
  import opened Transactions
  import opened Chain
  import opened Utxo
  import opened UtxoUpdate
  import opened UtxoBlock
  import Signing

  // ---------- The walk after one more block ----------

  lemma WalkInLonger(m: BlockMap, g: Block, b: Block, h: Bytes)
    requires Linked(m, g) && Descending(m) && Held(m, h)
    requires b.hash !in m && Descending(m[b.hash := b])
    ensures Walk(m[b.hash := b], h) == Walk(m, h)
    decreases NotAbove(m, h)
  {
    var m' := m[b.hash := b];
    WalkUnfold(m, h);
    WalkUnfold(m', h);
    if h != g.hash {
      StepDown(m, h);
      WalkInLonger(m, g, b, m[h].prev);
    }
  }

  /** Mining puts the block in front of the old walk. */
  lemma WalkAfterMining(c: Suite, s: State, b: Block, s': State, g: Block)
    requires Inv(s) && Linked(s.blocks, g) && Next(c, s, Mine(b), s')
    ensures Linked(s'.blocks, g) && Descending(s.blocks) && Descending(s'.blocks)
    ensures ChainTxs(s') == b.txs + ChainTxs(s)
  {
    StepKeepsLinked(c, s, Mine(b), s', g);
    LinkedDescends(s.blocks, g);
    LinkedDescends(s'.blocks, g);
    WalkUnfold(s'.blocks, b.hash);
    WalkInLonger(s.blocks, g, b, s.tip);
    assert Walk(s'.blocks, s'.tip)[1..] == Walk(s.blocks, s.tip);
  }

  // ---------- What verification guarantees ----------

  /** Every input on the chain names a transaction of the chain. */
  predicate RefsInside(walk: seq<Transaction>) {
    forall p :: p in SpentBy(walk) ==> Occurs(walk, p.txid)
  }

  lemma FoundOccurs(walk: seq<Transaction>, id: Bytes)
    ensures FindTx(walk, id).Some? <==> Occurs(walk, id)
  {
    FindTxFinds(walk, id);
  }

  lemma {:induction false} SpenderOf(txs: seq<Transaction>, p: Outpoint) returns (j: nat, i: nat)
    requires p in SpentBy(txs)
    ensures j < |txs| && !txs[j].IsCoinbase() && i < |txs[j].vin|
    ensures p == Outpoint(txs[j].vin[i].txid, txs[j].vin[i].vout)
  {
    var n := |txs| - 1;
    if p in Spends(txs[n]) {
      j := n;
      var k :| 0 <= k < |txs[n].vin| && p == Outpoint(txs[n].vin[k].txid, txs[n].vin[k].vout);
      i := k;
    } else {
      j, i := SpenderOf(txs[..n], p);
    }
  }

  /** An accepted transaction's inputs are found on the chain and name existing outputs. */
  lemma AcceptedInput(c: Suite, s: State, tx: Transaction, i: nat)
    requires VerifyTransaction(c, s, tx) == Judged(Accepted) && !tx.IsCoinbase() && i < |tx.vin|
    ensures var found := FindTx(ChainTxs(s), tx.vin[i].txid);
            found.Some? && 0 <= tx.vin[i].vout < |found.value.vout|
  {
    var prev := PrevFor(ChainTxs(s), tx.vin);
    Signing.SettlementIsSound(c, tx, prev, s.blocks[s.storedTip].height, i);
  }

  lemma BlockRefsOlder(c: Suite, s: State, b: Block, p: Outpoint)
    requires MayMine(c, s, b) && p in SpentBy(b.txs)
    ensures Occurs(ChainTxs(s), p.txid)
  {
    var j, i := SpenderOf(b.txs, p);
    AcceptedInput(c, s, b.txs[j], i);
    FoundOccurs(ChainTxs(s), p.txid);
  }

  /** The condition Update and FindUTXO need on a new block, derived from its verification. */
  lemma VerifiedBlockNamesOlder(c: Suite, s: State, b: Block)
    requires MayMine(c, s, b) && RefsInside(ChainTxs(s)) && UniqueIds(b.txs + ChainTxs(s))
    ensures NotNamedYet(ChainTxs(s), b.txs) && RefsInside(b.txs + ChainTxs(s))
  {
    var walk := ChainTxs(s);
    forall p | p in SpentBy(b.txs) ensures Occurs(walk, p.txid) {
      BlockRefsOlder(c, s, b, p);
    }
    OlderRefs(walk, b.txs);
  }

  lemma OlderRefs(walk: seq<Transaction>, txs: seq<Transaction>)
    requires RefsInside(walk) && UniqueIds(txs + walk) && forall p :: p in SpentBy(txs) ==> Occurs(walk, p.txid)
    ensures NotNamedYet(walk, txs) && RefsInside(txs + walk)
  {
    SpentByConcat(txs, walk);
    UniqueParts(walk, txs);
    forall p | p in SpentBy(txs + walk) ensures Occurs(txs + walk, p.txid) {
      OccursInEither(txs, walk, p.txid);
    }
  }

  // ---------- The invariant of mining runs ----------

  ghost predicate MinedInv(s: State, g: Block) {
    Inv(s) && Linked(s.blocks, g) && Descending(s.blocks) &&
    UniqueIds(ChainTxs(s)) && SpendsComeFirst(ChainTxs(s)) && RefsInside(ChainTxs(s))
  }

  predicate FreshIds(s: State, b: Block) {
    UniqueIds(b.txs + ChainTxs(s))
  }

  lemma GenesisMined(g: Block)
    requires IsGenesis(g)
    ensures MinedInv(Created(g), g) && ChainTxs(Created(g)) == g.txs
  {
    var s := Created(g);
    GenesisInv(g);
    LinkedDescends(s.blocks, g);
    WalkUnfold(s.blocks, g.hash);
    var bs := Walk(s.blocks, s.tip);
    assert bs == [g] && bs[1..] == [];
    assert Flatten(bs) == g.txs + Flatten(bs[1..]) == g.txs;
    assert g.txs[..0] == [] && SpentBy(g.txs[..0]) == {};
    assert SpentBy(g.txs) == {};
  }

  lemma MiningKeepsInv(c: Suite, s: State, b: Block, s': State, g: Block)
    requires MinedInv(s, g) && Next(c, s, Mine(b), s') && FreshIds(s, b)
    ensures MinedInv(s', g) && ChainTxs(s') == b.txs + ChainTxs(s)
    ensures NotNamedYet(ChainTxs(s), b.txs)
  {
    WalkAfterMining(c, s, b, s', g);
    StepKeepsInv(c, s, Mine(b), s');
    VerifiedBlockNamesOlder(c, s, b);
    LongerWalkSpendsFirst(ChainTxs(s), b.txs);
  }

  /** The state after mining `blocks`, in order. */
  function StateAfter(s: State, blocks: seq<Block>): State {
    if blocks == [] then s else SaveAsTip(StateAfter(s, blocks[..|blocks| - 1]), blocks[|blocks| - 1])
  }

  /** Blocks mined one on top of the other, with fresh hashes and IDs. */
  ghost predicate Continues(c: Suite, s: State, blocks: seq<Block>) {
    blocks == [] ||
    (var before, last := StateAfter(s, blocks[..|blocks| - 1]), blocks[|blocks| - 1];
     Continues(c, s, blocks[..|blocks| - 1]) && Next(c, before, Mine(last), SaveAsTip(before, last)) &&
     FreshIds(before, last))
  }

  /** The state after mining `blocks`, in order, on top of genesis. */
  function After(g: Block, blocks: seq<Block>): State {
    StateAfter(Created(g), blocks)
  }

  /** A run of CreateBlockchain and MineBlock calls with fresh block hashes and transaction IDs.
      Every prefix of a run is a run, so what holds after every run holds in every state of one. */
  ghost predicate IsMiningRun(c: Suite, g: Block, blocks: seq<Block>) {
    IsGenesis(g) && Continues(c, Created(g), blocks)
  }

  lemma StateAfterOne(s: State, blocks: seq<Block>, b: Block)
    ensures StateAfter(s, blocks + [b]) == SaveAsTip(StateAfter(s, blocks), b)
  {
    assert (blocks + [b])[..|blocks|] == blocks;
  }

  lemma {:induction false} StateAfterBoth(s: State, a: seq<Block>, b: seq<Block>)
    ensures StateAfter(s, a + b) == StateAfter(StateAfter(s, a), b)
  {
    if b == [] {
      assert a + b == a;
    } else {
      StateAfterBoth(s, a, b[..|b| - 1]);
      assert (a + b)[..|a + b| - 1] == a + b[..|b| - 1];
    }
  }

  /** A run and blocks that continue it are one run. */
  lemma {:induction false} ContinuesBoth(c: Suite, s: State, a: seq<Block>, b: seq<Block>)
    ensures Continues(c, s, a + b) <==> Continues(c, s, a) && Continues(c, StateAfter(s, a), b)
  {
    if b == [] {
      assert a + b == a;
    } else {
      ContinuesBoth(c, s, a, b[..|b| - 1]);
      StateAfterBoth(s, a, b[..|b| - 1]);
      assert (a + b)[..|a + b| - 1] == a + b[..|b| - 1];
    }
  }

  lemma {:induction false} MiningRun(c: Suite, g: Block, blocks: seq<Block>)
    requires IsMiningRun(c, g, blocks)
    ensures MinedInv(After(g, blocks), g)
  {
    if blocks == [] {
      GenesisMined(g);
    } else {
      MiningRun(c, g, blocks[..|blocks| - 1]);
      MiningKeepsInv(c, After(g, blocks[..|blocks| - 1]), blocks[|blocks| - 1], After(g, blocks), g);
    }
  }

  /** After every mining run with fresh transaction IDs, FindUTXO's single pass returns, for each
      transaction and in order, exactly the outputs no input names. */
  lemma FindUtxoIsRight(c: Suite, g: Block, blocks: seq<Block>, k: nat)
    requires IsMiningRun(c, g, blocks)
    ensures var walk := ChainTxs(After(g, blocks));
            FindTable(walk) == TrueTable(walk) &&
            (k < |walk| ==> Get(FindTable(walk), walk[k].id) == Kept(walk[k].vout, Indices(SpentBy(walk), walk[k].id)))
  {
    MiningRun(c, g, blocks);
    var walk := ChainTxs(After(g, blocks));
    PassFindsUnspent(walk);
    if k < |walk| {
      TableWithAt(walk, SpentBy(walk), k);
    }
  }

  // ---------- Distinct, unspent inputs ----------

  function OutpointOf(input: TxInput): Outpoint {
    Outpoint(input.txid, input.vout)
  }

  /** The inputs name outpoints outside `spent`, no two the same. */
  predicate InputsOnce(spent: set<Outpoint>, vin: seq<TxInput>) {
    (forall i :: 0 <= i < |vin| ==> OutpointOf(vin[i]) !in spent) &&
    (forall i, j :: 0 <= i < j < |vin| ==> OutpointOf(vin[i]) != OutpointOf(vin[j]))
  }

  /** No outpoint is spent twice by `txs`, nor one already in `spent`. */
  predicate TxsOnce(spent: set<Outpoint>, txs: seq<Transaction>) {
    forall j :: 0 <= j < |txs| && !txs[j].IsCoinbase() ==> InputsOnce(spent + SpentBy(txs[..j]), txs[j].vin)
  }

  predicate SpendsOnce(s: State, b: Block) {
    TxsOnce(SpentBy(ChainTxs(s)), b.txs)
  }

  lemma {:induction false} NamedByOnce(spent: set<Outpoint>, vin: seq<TxInput>, id: Bytes)
    requires InputsOnce(spent, vin)
    ensures Distinct(NamedBy(vin, id))
    ensures forall v :: v in NamedBy(vin, id) ==> Outpoint(id, v) !in spent
  {
    if vin != [] {
      var n := |vin| - 1;
      var front := NamedBy(vin[..n], id);
      NamedByOnce(spent, vin[..n], id);
      if vin[n].txid == id && vin[n].vout in front {
        NamedByIsSpent(vin[..n], id, vin[n].vout);
      }
    }
  }

  lemma DistinctConcat(a: seq<int>, b: seq<int>)
    requires Distinct(a) && Distinct(b)
    requires forall v :: v in a ==> v !in b
    ensures Distinct(a + b)
  {
    var s := a + b;
    forall i, j | 0 <= i < j < |s| ensures s[i] != s[j] {
      if i < |a| && j >= |a| {
        assert s[i] in a && s[j] in b;
      }
    }
  }

  lemma {:induction false} NamedOnce(spent: set<Outpoint>, txs: seq<Transaction>, id: Bytes)
    requires TxsOnce(spent, txs)
    ensures Distinct(Named(txs, id))
    ensures forall v :: v in Named(txs, id) ==> Outpoint(id, v) !in spent
  {
    if txs != [] {
      var n := |txs| - 1;
      var front, last := txs[..n], txs[n];
      forall j | 0 <= j < n && !front[j].IsCoinbase() ensures InputsOnce(spent + SpentBy(front[..j]), front[j].vin) {
        assert front[..j] == txs[..j];
      }
      NamedOnce(spent, front, id);
      if !last.IsCoinbase() {
        NamedByOnce(spent + SpentBy(front), last.vin, id);
        forall v | v in Named(front, id) ensures v !in NamedBy(last.vin, id) {
          NamedIsSpent(front, id, v);
        }
        DistinctConcat(Named(front, id), NamedBy(last.vin, id));
      }
    }
  }

  lemma {:induction false} FindUnique(walk: seq<Transaction>, k: nat)
    requires UniqueIds(walk) && k < |walk|
    ensures FindTx(walk, walk[k].id) == Some(walk[k])
  {
    if k > 0 {
      FindUnique(walk[1..], k - 1);
    }
  }

  /** A verified block that spends nothing twice spends existing unspent outputs. */
  lemma VerifiedBlockSpendsFresh(c: Suite, s: State, b: Block)
    requires MayMine(c, s, b) && UniqueIds(ChainTxs(s)) && TxsOnce(SpentBy(ChainTxs(s)), b.txs)
    ensures SpendsFresh(ChainTxs(s), b.txs)
  {
    var walk := ChainTxs(s);
    forall k | 0 <= k < |walk|
      ensures FreshSpends(|walk[k].vout|, Indices(SpentBy(walk), walk[k].id), Named(b.txs, walk[k].id))
    {
      var id := walk[k].id;
      var vs := Named(b.txs, id);
      NamedOnce(SpentBy(walk), b.txs, id);
      forall i | 0 <= i < |vs| ensures 0 <= vs[i] < |walk[k].vout| && vs[i] !in Indices(SpentBy(walk), id) {
        assert vs[i] in vs;
        NamedIsSpent(b.txs, id, vs[i]);
        var j, n := SpenderOf(b.txs, Outpoint(id, vs[i]));
        AcceptedInput(c, s, b.txs[j], n);
        FindUnique(walk, k);
      }
    }
  }

  /** On top of every mining run, for every block MineBlock may add with fresh IDs and no double
      spend: if all its transactions have outputs and it spends every transaction's outputs highest
      index first, Update leaves the stored index a rebuild would; it does so only if all have
      outputs and, where no transaction has two equal outputs, only in that order. */
  lemma UpdateOnMiningRuns(c: Suite, g: Block, blocks: seq<Block>, b: Block)
    requires IsMiningRun(c, g, blocks + [b]) && SpendsOnce(After(g, blocks), b)
    ensures var walk := ChainTxs(After(g, blocks));
            var rebuilt := Stored(FindTable(ChainTxs(After(g, blocks + [b]))));
            var agree := UpdateTxs(Stored(FindTable(walk)), b.txs, AsStored) == rebuilt;
            (AllHaveOutputs(b.txs) && SpendsHighestFirst(walk, b.txs) ==> agree) && (agree ==> AllHaveOutputs(b.txs)) &&
            (OutputsDiffer(walk) && agree ==> SpendsHighestFirst(walk, b.txs))
  {
    RunParts(c, g, blocks, b);
    MiningRun(c, g, blocks);
    var s := After(g, blocks);
    MiningKeepsInv(c, s, b, SaveAsTip(s, b), g);
    VerifiedBlockSpendsFresh(c, s, b);
    UpdateMatchesReindex(ChainTxs(s), b.txs);
  }

  lemma RunParts(c: Suite, g: Block, blocks: seq<Block>, b: Block)
    requires IsMiningRun(c, g, blocks + [b])
    ensures IsMiningRun(c, g, blocks) && After(g, blocks + [b]) == SaveAsTip(After(g, blocks), b)
    ensures Next(c, After(g, blocks), Mine(b), SaveAsTip(After(g, blocks), b)) && FreshIds(After(g, blocks), b)
  {
    assert (blocks + [b])[..|blocks|] == blocks;
  }

  /** The last block of a run goes in front of the walk. */
  lemma MinedOnTop(c: Suite, g: Block, run: seq<Block>, b: Block, longer: seq<Block>)
    requires longer == run + [b] && IsMiningRun(c, g, longer)
    ensures MinedInv(After(g, run), g) && UniqueIds(b.txs + ChainTxs(After(g, run)))
    ensures MayMine(c, After(g, run), b) && NotNamedYet(ChainTxs(After(g, run)), b.txs)
    ensures ChainTxs(After(g, longer)) == b.txs + ChainTxs(After(g, run))
  {
    RunParts(c, g, run, b);
    MiningRun(c, g, run);
    MiningKeepsInv(c, After(g, run), b, After(g, longer), g);
  }

  /** A mining run in which no outpoint is ever spent twice. */
  ghost predicate OnceRun(c: Suite, g: Block, blocks: seq<Block>) {
    IsMiningRun(c, g, blocks) &&
    (blocks != [] ==>
       OnceRun(c, g, blocks[..|blocks| - 1]) && SpendsOnce(After(g, blocks[..|blocks| - 1]), blocks[|blocks| - 1]))
  }

  // ---------- Settlement along a run ----------

  lemma RunPrefix(c: Suite, g: Block, blocks: seq<Block>, k: nat)
    requires IsMiningRun(c, g, blocks) && k <= |blocks|
    ensures IsMiningRun(c, g, blocks[..k])
  {
    assert blocks[..k] + blocks[k..] == blocks;
    ContinuesBoth(c, Created(g), blocks[..k], blocks[k..]);
  }

  /** The state once the first `n` blocks are mined. */
  function StateAt(g: Block, blocks: seq<Block>, n: nat): State
    requires n <= |blocks|
  {
    if n == 0 then Created(g) else SaveAsTip(StateAt(g, blocks, n - 1), blocks[n - 1])
  }

  lemma {:induction false} StateAtIs(g: Block, blocks: seq<Block>, n: nat)
    requires n <= |blocks|
    ensures StateAt(g, blocks, n) == After(g, blocks[..n])
  {
    if n > 0 {
      StateAtIs(g, blocks, n - 1);
      StateAfterOne(Created(g), blocks[..n - 1], blocks[n - 1]);
      assert blocks[..n] == blocks[..n - 1] + [blocks[n - 1]];
    }
  }

  lemma StateAtEnd(g: Block, blocks: seq<Block>)
    ensures StateAt(g, blocks, |blocks|) == After(g, blocks)
  {
    StateAtIs(g, blocks, |blocks|);
    assert blocks[..|blocks|] == blocks;
  }

  /** Every block of a run is mined in the state the earlier ones left. */
  lemma RunStep(c: Suite, g: Block, blocks: seq<Block>, n: nat)
    requires IsMiningRun(c, g, blocks) && 0 < n <= |blocks|
    ensures MinedInv(StateAt(g, blocks, n - 1), g) && FreshIds(StateAt(g, blocks, n - 1), blocks[n - 1])
    ensures Next(c, StateAt(g, blocks, n - 1), Mine(blocks[n - 1]), StateAt(g, blocks, n))
  {
    StateAtIs(g, blocks, n - 1);
    RunPrefix(c, g, blocks, n);
    assert blocks[..n] == blocks[..n - 1] + [blocks[n - 1]];
    RunParts(c, g, blocks[..n - 1], blocks[n - 1]);
    MiningRun(c, g, blocks[..n - 1]);
  }

  lemma FoundAfterMining(c: Suite, s: State, b: Block, s': State, g: Block, id: Bytes)
    requires MinedInv(s, g) && Next(c, s, Mine(b), s') && FreshIds(s, b) && FindTx(ChainTxs(s), id).Some?
    ensures FindTx(ChainTxs(s'), id) == FindTx(ChainTxs(s), id)
  {
    MiningKeepsInv(c, s, b, s', g);
    UniqueParts(ChainTxs(s), b.txs);
    FoundOccurs(ChainTxs(s), id);
    FindInLonger(b.txs, ChainTxs(s), id);
  }

  lemma FoundNext(c: Suite, g: Block, blocks: seq<Block>, n: nat, id: Bytes)
    requires IsMiningRun(c, g, blocks) && 0 < n <= |blocks| && FindTx(ChainTxs(StateAt(g, blocks, n - 1)), id).Some?
    ensures FindTx(ChainTxs(StateAt(g, blocks, n)), id) == FindTx(ChainTxs(StateAt(g, blocks, n - 1)), id)
  {
    RunStep(c, g, blocks, n);
    FoundAfterMining(c, StateAt(g, blocks, n - 1), blocks[n - 1], StateAt(g, blocks, n), g, id);
  }

  /** What every block of a run keeps, the rest of the run keeps. */
  lemma {:induction false} AlongRun(holds: State -> bool, g: Block, blocks: seq<Block>, k: nat, i: nat)
    requires k <= i <= |blocks| && holds(StateAt(g, blocks, k))
    requires forall n: nat :: 0 < n <= |blocks| && holds(StateAt(g, blocks, n - 1)) ==> holds(StateAt(g, blocks, n))
    ensures holds(StateAt(g, blocks, i))
  {
    if i != k {
      AlongRun(holds, g, blocks, k, i - 1);
    }
  }

  /** What the chain finds under an ID it goes on finding. */
  lemma FoundStays(c: Suite, g: Block, blocks: seq<Block>, k: nat, id: Bytes)
    requires IsMiningRun(c, g, blocks) && k <= |blocks| && FindTx(ChainTxs(After(g, blocks[..k])), id).Some?
    ensures FindTx(ChainTxs(After(g, blocks)), id) == FindTx(ChainTxs(After(g, blocks[..k])), id)
  {
    var found := FindTx(ChainTxs(After(g, blocks[..k])), id);
    var holds := (s: State) => FindTx(ChainTxs(s), id) == found;
    forall n: nat | 0 < n <= |blocks| && holds(StateAt(g, blocks, n - 1)) ensures holds(StateAt(g, blocks, n)) {
      FoundNext(c, g, blocks, n, id);
    }
    StateAtIs(g, blocks, k);
    StateAtEnd(g, blocks);
    AlongRun(holds, g, blocks, k, |blocks|);
  }

  /** The input names an output of `walk`, and if that is a contract output it settles it properly
      at `height`. */
  predicate InputSettles(c: Suite, walk: seq<Transaction>, input: TxInput, height: int) {
    var found := FindTx(walk, input.txid);
    found.Some? && 0 <= input.vout < |found.value.vout| &&
    (IsContract(found.value.vout[input.vout]) ==>
       Signing.SettledProperly(c, input, found.value.vout[input.vout], height))
  }

  lemma SettledInBlock(c: Suite, s: State, b: Block, j: nat, i: nat)
    requires MayMine(c, s, b) && j < |b.txs| && !b.txs[j].IsCoinbase() && i < |b.txs[j].vin|
    ensures InputSettles(c, ChainTxs(s), b.txs[j].vin[i], b.height - 1)
  {
    assert VerifyTransaction(c, s, b.txs[j]) == Judged(Accepted);
    AcceptedInput(c, s, b.txs[j], i);
    Signing.SettlementIsSound(c, b.txs[j], PrevFor(ChainTxs(s), b.txs[j].vin), b.height - 1, i);
  }

  lemma BlockOfRun(c: Suite, g: Block, blocks: seq<Block>, k: nat)
    requires IsMiningRun(c, g, blocks) && k < |blocks|
    ensures IsMiningRun(c, g, blocks[..k]) && MayMine(c, After(g, blocks[..k]), blocks[k])
  {
    RunPrefix(c, g, blocks, k + 1);
    assert blocks[..k + 1] == blocks[..k] + [blocks[k]];
    RunParts(c, g, blocks[..k], blocks[k]);
  }

  lemma SettlesOnLonger(c: Suite, walk: seq<Transaction>, longer: seq<Transaction>, input: TxInput, height: int)
    requires InputSettles(c, walk, input, height) && FindTx(longer, input.txid) == FindTx(walk, input.txid)
    ensures InputSettles(c, longer, input, height)
  {
  }

  /** Along every mining run, every input on the chain names an output that the chain holds, and if
      that is a contract output the input settled it properly at the height of its parent block:
      a claim by the seller against the lock, or a refund to the buyer after the timeout. */
  lemma EveryContractSettledProperly(c: Suite, g: Block, blocks: seq<Block>, k: nat, j: nat, i: nat)
    requires IsMiningRun(c, g, blocks) && k < |blocks| && j < |blocks[k].txs|
    requires !blocks[k].txs[j].IsCoinbase() && i < |blocks[k].txs[j].vin|
    ensures InputSettles(c, ChainTxs(After(g, blocks)), blocks[k].txs[j].vin[i], blocks[k].height - 1)
  {
    var input, walk := blocks[k].txs[j].vin[i], ChainTxs(After(g, blocks[..k]));
    BlockOfRun(c, g, blocks, k);
    SettledInBlock(c, After(g, blocks[..k]), blocks[k], j, i);
    FoundStays(c, g, blocks, k, input.txid);
    SettlesOnLonger(c, walk, ChainTxs(After(g, blocks)), input, blocks[k].height - 1);
  }

  // ---------- Verdicts along a run ----------

  lemma FindInLonger(txs: seq<Transaction>, walk: seq<Transaction>, id: Bytes)
    requires !Occurs(txs, id)
    ensures FindTx(txs + walk, id) == FindTx(walk, id)
  {
    FoundOccurs(txs, id);
    FindInEither(txs, walk, id);
  }

  lemma SamePrevOn(walk: seq<Transaction>, txs: seq<Transaction>, vin: seq<TxInput>)
    requires UniqueIds(txs + walk) && AllFound(walk, vin)
    ensures AllFound(txs + walk, vin) && PrevFor(txs + walk, vin) == PrevFor(walk, vin)
  {
    UniqueParts(walk, txs);
    forall id | id in Txids(vin) ensures FindTx(txs + walk, id) == FindTx(walk, id) {
      var i :| 0 <= i < |vin| && vin[i].txid == id;
      FoundOccurs(walk, id);
      FindInLonger(txs, walk, id);
    }
    forall i | 0 <= i < |vin| ensures FindTx(txs + walk, vin[i].txid).Some? {
      assert vin[i].txid in Txids(vin);
    }
    PrevForIs(txs + walk, vin);
    PrevForIs(walk, vin);
  }

  lemma AcceptedAfterMining(c: Suite, s: State, b: Block, s': State, g: Block, tx: Transaction)
    requires MinedInv(s, g) && Next(c, s, Mine(b), s') && FreshIds(s, b)
    requires VerifyTransaction(c, s, tx) == Judged(Accepted)
    ensures VerifyTransaction(c, s', tx) == Judged(Accepted)
  {
    MiningKeepsInv(c, s, b, s', g);
    if !tx.IsCoinbase() {
      SamePrevOn(ChainTxs(s), b.txs, tx.vin);
      Signing.AcceptanceIsMonotone(c, tx, PrevFor(ChainTxs(s), tx.vin),
                                   s.blocks[s.storedTip].height, s'.blocks[s'.storedTip].height);
    }
  }

  lemma AcceptedNext(c: Suite, g: Block, blocks: seq<Block>, n: nat, tx: Transaction)
    requires IsMiningRun(c, g, blocks) && 0 < n <= |blocks|
    requires VerifyTransaction(c, StateAt(g, blocks, n - 1), tx) == Judged(Accepted)
    ensures VerifyTransaction(c, StateAt(g, blocks, n), tx) == Judged(Accepted)
  {
    RunStep(c, g, blocks, n);
    AcceptedAfterMining(c, StateAt(g, blocks, n - 1), blocks[n - 1], StateAt(g, blocks, n), g, tx);
  }

  /** Once the chain accepts a transaction, mining more blocks never makes it refuse it: a
      refund's verdict only ever moves from rejected to accepted. */
  lemma AcceptedStaysAccepted(c: Suite, g: Block, blocks: seq<Block>, k: nat, tx: Transaction)
    requires IsMiningRun(c, g, blocks) && k <= |blocks|
    requires VerifyTransaction(c, After(g, blocks[..k]), tx) == Judged(Accepted)
    ensures VerifyTransaction(c, After(g, blocks), tx) == Judged(Accepted)
  {
    var holds := (s: State) => VerifyTransaction(c, s, tx) == Judged(Accepted);
    forall n: nat | 0 < n <= |blocks| && holds(StateAt(g, blocks, n - 1)) ensures holds(StateAt(g, blocks, n)) {
      AcceptedNext(c, g, blocks, n, tx);
    }
    StateAtIs(g, blocks, k);
    StateAtEnd(g, blocks);
    AlongRun(holds, g, blocks, k, |blocks|);
  }
}
