/** Value along mining runs: what Transaction.Verify and FindUTXO together conserve. */
module Conservation {
  import opened Prelude
  import opened Ledger
  import opened Transactions
  import opened Chain
  import ProofOfWork
  import opened Utxo
  import opened UtxoBlock
  import opened MinedChain
  import Limits
  import Signing

  // ---------- The value left unspent ----------

  function KeptValue(outs: Outputs, spent: set<int>): int {
    if outs == [] then 0
    else
      var n := |outs| - 1;
      KeptValue(outs[..n], spent) + if n in spent then 0 else outs[n].value
  }

  /** The value of the outputs of `walk` outside `spent`. */
  function Unspent(walk: seq<Transaction>, spent: set<Outpoint>): int {
    if walk == [] then 0
    else
      var last := walk[|walk| - 1];
      Unspent(walk[..|walk| - 1], spent) + KeptValue(last.vout, Indices(spent, last.id))
  }

  /** The value a UTXO table holds for the transactions of `walk`. */
  function TableTotal(walk: seq<Transaction>, table: Table): int {
    if walk == [] then 0
    else TableTotal(walk[..|walk| - 1], table) + TotalValue(Strip(Get(table, walk[|walk| - 1].id)))
  }

  /** The supply: everything FindUTXO's table holds. */
  function Supply(walk: seq<Transaction>): int {
    TableTotal(walk, FindTable(walk))
  }

  lemma TotalAppend(outs: Outputs, o: TxOutput)
    ensures TotalValue(outs + [o]) == TotalValue(outs) + o.value
  {
    assert OutputValues(outs + [o])[..|outs|] == OutputValues(outs);
  }

  lemma {:induction false} KeptValueIsTotal(outs: Outputs, spent: set<int>)
    ensures KeptValue(outs, spent) == TotalValue(Strip(Kept(outs, spent)))
  {
    if outs != [] {
      var n := |outs| - 1;
      KeptValueIsTotal(outs[..n], spent);
      var front := Kept(outs[..n], spent);
      if n in spent {
        assert Kept(outs, spent) == front;
      } else {
        TotalAppend(Strip(front), outs[n]);
        assert Strip(front + [Tagged(n, outs[n])]) == Strip(front) + [outs[n]];
      }
    }
  }

  lemma {:induction false} KeptValueAll(outs: Outputs)
    ensures KeptValue(outs, {}) == TotalValue(outs)
  {
    KeptValueIsTotal(outs, {});
    KeptAll(outs, {});
  }

  lemma {:induction false} KeptValueRange(outs: Outputs, s: set<int>, t: set<int>)
    requires forall i :: 0 <= i < |outs| ==> (i in s <==> i in t)
    ensures KeptValue(outs, s) == KeptValue(outs, t)
  {
    if outs != [] {
      KeptValueRange(outs[..|outs| - 1], s, t);
    }
  }

  lemma {:induction false} KeptValueMinus(outs: Outputs, spent: set<int>, v: int)
    requires 0 <= v < |outs| && v !in spent
    ensures KeptValue(outs, spent + {v}) == KeptValue(outs, spent) - outs[v].value
  {
    var n := |outs| - 1;
    if v < n {
      KeptValueMinus(outs[..n], spent, v);
    } else {
      KeptValueRange(outs[..n], spent, spent + {v});
    }
  }

  lemma {:induction false} KeptValueNonNegative(outs: Outputs, spent: set<int>)
    requires forall i :: 0 <= i < |outs| ==> outs[i].value >= 0
    ensures KeptValue(outs, spent) >= 0
  {
    if outs != [] {
      KeptValueNonNegative(outs[..|outs| - 1], spent);
    }
  }

  lemma {:induction false} UnspentConcat(a: seq<Transaction>, b: seq<Transaction>, spent: set<Outpoint>)
    ensures Unspent(a + b, spent) == Unspent(a, spent) + Unspent(b, spent)
  {
    if b == [] {
      assert a + b == a;
    } else {
      UnspentConcat(a, b[..|b| - 1], spent);
      assert (a + b)[..|a + b| - 1] == a + b[..|b| - 1];
    }
  }

  lemma {:induction false} UnspentElsewhere(walk: seq<Transaction>, spent: set<Outpoint>, p: Outpoint)
    requires !Occurs(walk, p.txid)
    ensures Unspent(walk, spent + {p}) == Unspent(walk, spent)
  {
    if walk != [] {
      var n := |walk| - 1;
      assert walk[n].id != p.txid;
      assert forall k :: 0 <= k < n ==> walk[..n][k].id == walk[k].id;
      UnspentElsewhere(walk[..n], spent, p);
      assert Indices(spent + {p}, walk[n].id) == Indices(spent, walk[n].id);
    }
  }

  /** Spending one more output takes exactly its value out. */
  lemma {:induction false} UnspentMinus(walk: seq<Transaction>, spent: set<Outpoint>, k: nat, v: int)
    requires UniqueIds(walk) && k < |walk| && 0 <= v < |walk[k].vout|
    requires Outpoint(walk[k].id, v) !in spent
    ensures Unspent(walk, spent + {Outpoint(walk[k].id, v)}) == Unspent(walk, spent) - walk[k].vout[v].value
  {
    var n := |walk| - 1;
    var p := Outpoint(walk[k].id, v);
    if k < n {
      UnspentMinus(walk[..n], spent, k, v);
      assert Indices(spent + {p}, walk[n].id) == Indices(spent, walk[n].id);
    } else {
      UnspentElsewhere(walk[..n], spent, p);
      KeptValueMinus(walk[n].vout, Indices(spent, walk[n].id), v);
      assert Indices(spent + {p}, walk[n].id) == Indices(spent, walk[n].id) + {v};
    }
  }

  predicate NonNegative(walk: seq<Transaction>) {
    forall k, i :: 0 <= k < |walk| && 0 <= i < |walk[k].vout| ==> walk[k].vout[i].value >= 0
  }

  lemma {:induction false} UnspentNonNegative(walk: seq<Transaction>, spent: set<Outpoint>)
    requires NonNegative(walk)
    ensures Unspent(walk, spent) >= 0
  {
    if walk != [] {
      var n := |walk| - 1;
      assert forall k :: 0 <= k < n ==> walk[..n][k] == walk[k];
      UnspentNonNegative(walk[..n], spent);
      KeptValueNonNegative(walk[n].vout, Indices(spent, walk[n].id));
    }
  }

  // ---------- The table's total is the unspent value ----------

  lemma {:induction false} TableTotalUpTo(walk: seq<Transaction>, n: nat)
    requires UniqueIds(walk) && n <= |walk|
    ensures TableTotal(walk[..n], TrueTable(walk)) == Unspent(walk[..n], SpentBy(walk))
  {
    if n > 0 {
      TableTotalUpTo(walk, n - 1);
      assert walk[..n][..n - 1] == walk[..n - 1];
      TableWithAt(walk, SpentBy(walk), n - 1);
      KeptValueIsTotal(walk[n - 1].vout, Indices(SpentBy(walk), walk[n - 1].id));
    }
  }

  lemma SupplyIsUnspent(walk: seq<Transaction>)
    requires UniqueIds(walk) && SpendsComeFirst(walk)
    ensures Supply(walk) == Unspent(walk, SpentBy(walk))
  {
    PassFindsUnspent(walk);
    TableTotalUpTo(walk, |walk|);
    assert walk[..|walk|] == walk;
  }

  // ---------- What a block moves ----------

  /** The inputs are resolved by `prev` to the transactions found on `walk`. */
  predicate ResolvedOn(walk: seq<Transaction>, prev: PrevTxs, vin: seq<TxInput>) {
    forall i :: 0 <= i < |vin| ==> Resolves(prev, vin[i]) && FindTx(walk, vin[i].txid) == Some(prev[vin[i].txid])
  }

  lemma FoundAt(walk: seq<Transaction>, id: Bytes) returns (k: nat)
    requires FindTx(walk, id).Some?
    ensures k < |walk| && walk[k].id == id && FindTx(walk, id) == Some(walk[k])
  {
    var tx := FindTx(walk, id).value;
    FindTxFinds(walk, id);
    k :| k < |walk| && walk[k] == tx;
  }

  lemma {:induction false} InputsTakeTheirValue(walk: seq<Transaction>, spent: set<Outpoint>, prev: PrevTxs,
                                                vin: seq<TxInput>)
    requires UniqueIds(walk) && ResolvedOn(walk, prev, vin) && InputsOnce(spent, vin)
    ensures Unspent(walk, spent + InputOutpoints(vin)) == Unspent(walk, spent) - Sum(InputValues(prev, vin))
  {
    if vin == [] {
      assert spent + InputOutpoints(vin) == spent;
    } else {
      var n := |vin| - 1;
      var front, p := vin[..n], OutpointOf(vin[n]);
      InputsTakeTheirValue(walk, spent, prev, front);
      var k := FoundAt(walk, p.txid);
      var before := spent + InputOutpoints(front);
      LastInputIsNew(spent, vin);
      UnspentMinus(walk, before, k, p.vout);
      assert spent + InputOutpoints(vin) == before + {p};
      InputSumStep(prev, vin, n);
      assert vin[..n + 1] == vin;
    }
  }

  lemma LastInputIsNew(spent: set<Outpoint>, vin: seq<TxInput>)
    requires vin != [] && InputsOnce(spent, vin)
    ensures OutpointOf(vin[|vin| - 1]) !in spent + InputOutpoints(vin[..|vin| - 1])
    ensures InputOutpoints(vin) == InputOutpoints(vin[..|vin| - 1]) + {OutpointOf(vin[|vin| - 1])}
  {
  }

  /** The value a transaction takes in, resolved on the chain. */
  function TakenIn(walk: seq<Transaction>, tx: Transaction): int {
    if tx.IsCoinbase() then 0 else InputTotal(PrevFor(walk, tx.vin), tx)
  }

  function TakenInAll(walk: seq<Transaction>, txs: seq<Transaction>): int {
    if txs == [] then 0 else TakenInAll(walk, txs[..|txs| - 1]) + TakenIn(walk, txs[|txs| - 1])
  }

  function GivenOut(txs: seq<Transaction>): int {
    if txs == [] then 0 else GivenOut(txs[..|txs| - 1]) + TotalValue(txs[|txs| - 1].vout)
  }

  /** Coinbase outputs: new value. */
  function Issued(txs: seq<Transaction>): int {
    if txs == [] then 0
    else Issued(txs[..|txs| - 1]) + if txs[|txs| - 1].IsCoinbase() then TotalValue(txs[|txs| - 1].vout) else 0
  }

  /** Inputs minus outputs of the other transactions. */
  function Burned(walk: seq<Transaction>, txs: seq<Transaction>): int {
    if txs == [] then 0
    else
      var last := txs[|txs| - 1];
      Burned(walk, txs[..|txs| - 1]) + if last.IsCoinbase() then 0 else TakenIn(walk, last) - TotalValue(last.vout)
  }

  lemma {:induction false} BlockBalance(walk: seq<Transaction>, txs: seq<Transaction>)
    ensures GivenOut(txs) - TakenInAll(walk, txs) == Issued(txs) - Burned(walk, txs)
  {
    if txs != [] {
      BlockBalance(walk, txs[..|txs| - 1]);
    }
  }

  /** Every non-coinbase transaction's inputs resolve on the chain. */
  predicate AllResolvedOn(walk: seq<Transaction>, txs: seq<Transaction>) {
    forall j :: 0 <= j < |txs| && !txs[j].IsCoinbase() ==> ResolvedOn(walk, PrevFor(walk, txs[j].vin), txs[j].vin)
  }

  lemma {:induction false} BlockTakesItsValue(walk: seq<Transaction>, spent: set<Outpoint>, txs: seq<Transaction>)
    requires UniqueIds(walk) && AllResolvedOn(walk, txs) && TxsOnce(spent, txs)
    ensures Unspent(walk, spent + SpentBy(txs)) == Unspent(walk, spent) - TakenInAll(walk, txs)
  {
    if txs == [] {
      assert spent + SpentBy(txs) == spent;
    } else {
      var n := |txs| - 1;
      var front, last := txs[..n], txs[n];
      OnceFront(spent, txs);
      BlockTakesItsValue(walk, spent, front);
      if last.IsCoinbase() {
        assert spent + SpentBy(txs) == spent + SpentBy(front);
      } else {
        InputsTakeTheirValue(walk, spent + SpentBy(front), PrevFor(walk, last.vin), last.vin);
        assert spent + SpentBy(txs) == spent + SpentBy(front) + InputOutpoints(last.vin);
      }
    }
  }

  lemma OnceFront(spent: set<Outpoint>, txs: seq<Transaction>)
    requires txs != [] && TxsOnce(spent, txs)
    ensures TxsOnce(spent, txs[..|txs| - 1])
  {
    var front := txs[..|txs| - 1];
    forall j | 0 <= j < |front| && !front[j].IsCoinbase()
      ensures InputsOnce(spent + SpentBy(front[..j]), front[j].vin)
    {
      assert front[..j] == txs[..j];
    }
  }

  lemma {:induction false} NewOutputsAllUnspent(txs: seq<Transaction>, spent: set<Outpoint>)
    requires forall k, p :: 0 <= k < |txs| && p in spent ==> p.txid != txs[k].id
    ensures Unspent(txs, spent) == GivenOut(txs)
  {
    if txs != [] {
      var n := |txs| - 1;
      assert forall k :: 0 <= k < n ==> txs[..n][k] == txs[k];
      NewOutputsAllUnspent(txs[..n], spent);
      assert Indices(spent, txs[n].id) == {};
      KeptValueAll(txs[n].vout);
    }
  }

  /** One block: the supply changes by what it issues less what it burns. */
  lemma BlockConserves(walk: seq<Transaction>, txs: seq<Transaction>)
    requires UniqueIds(txs + walk) && SpendsComeFirst(walk) && NotNamedYet(walk, txs)
    requires AllResolvedOn(walk, txs) && TxsOnce(SpentBy(walk), txs)
    ensures Supply(txs + walk) == Supply(walk) + Issued(txs) - Burned(walk, txs)
  {
    UniqueParts(walk, txs);
    SupplyIsUnspent(walk);
    LongerWalkSpendsFirst(walk, txs);
    SupplyIsUnspent(txs + walk);
    SpentByConcat(txs, walk);
    var spent := SpentBy(txs + walk);
    UnspentConcat(txs, walk, spent);
    NewOutputsAllUnspent(txs, spent);
    BlockTakesItsValue(walk, SpentBy(walk), txs);
    assert SpentBy(walk) + SpentBy(txs) == spent;
    BlockBalance(walk, txs);
  }

  lemma VerifiedBlockResolves(c: Suite, s: State, b: Block)
    requires MayMine(c, s, b)
    ensures AllResolvedOn(ChainTxs(s), b.txs)
  {
    var walk := ChainTxs(s);
    forall j | 0 <= j < |b.txs| && !b.txs[j].IsCoinbase()
      ensures ResolvedOn(walk, PrevFor(walk, b.txs[j].vin), b.txs[j].vin)
    {
      var tx := b.txs[j];
      forall i | 0 <= i < |tx.vin|
        ensures Resolves(PrevFor(walk, tx.vin), tx.vin[i]) &&
                FindTx(walk, tx.vin[i].txid) == Some(PrevFor(walk, tx.vin)[tx.vin[i].txid])
      {
        assert VerifyTransaction(c, s, tx) == Judged(Accepted);
        assert InputOk(c, tx, PrevFor(walk, tx.vin), s.blocks[s.storedTip].height, i);
      }
    }
  }

  // ---------- Whole runs ----------

  ghost function TotalIssued(g: Block, blocks: seq<Block>): int {
    if blocks == [] then Issued(g.txs) else TotalIssued(g, blocks[..|blocks| - 1]) + Issued(blocks[|blocks| - 1].txs)
  }

  ghost function TotalBurned(c: Suite, g: Block, blocks: seq<Block>): int
    requires IsMiningRun(c, g, blocks)
  {
    if blocks == [] then 0
    else
      var front, last := blocks[..|blocks| - 1], blocks[|blocks| - 1];
      TotalBurned(c, g, front) + Burned(ChainTxs(After(g, front)), last.txs)
  }

  lemma GenesisSupply(g: Block)
    requires IsGenesis(g)
    ensures MinedInv(Created(g), g) && Supply(ChainTxs(Created(g))) == Issued(g.txs)
  {
    GenesisMined(g);
    SupplyIsUnspent(g.txs);
    assert g.txs[..0] == [];
    assert SpentBy(g.txs) == {};
    NewOutputsAllUnspent(g.txs, {});
  }

  lemma MinedBlockConserves(c: Suite, s: State, b: Block, s': State, g: Block)
    requires MinedInv(s, g) && Next(c, s, Mine(b), s') && FreshIds(s, b) && SpendsOnce(s, b)
    ensures MinedInv(s', g)
    ensures Supply(ChainTxs(s')) == Supply(ChainTxs(s)) + Issued(b.txs) - Burned(ChainTxs(s), b.txs)
  {
    MiningKeepsInv(c, s, b, s', g);
    VerifiedBlockResolves(c, s, b);
    BlockConserves(ChainTxs(s), b.txs);
  }

  /** After every mining run with fresh IDs and no double spends, what FindUTXO finds plus
      everything burned equals everything the coinbases issued. */
  lemma {:induction false} SupplyIsConserved(c: Suite, g: Block, blocks: seq<Block>)
    requires OnceRun(c, g, blocks)
    ensures MinedInv(After(g, blocks), g)
    ensures Supply(ChainTxs(After(g, blocks))) + TotalBurned(c, g, blocks) == TotalIssued(g, blocks)
  {
    if blocks == [] {
      GenesisSupply(g);
    } else {
      var front, last := blocks[..|blocks| - 1], blocks[|blocks| - 1];
      SupplyIsConserved(c, g, front);
      MinedBlockConserves(c, After(g, front), last, After(g, blocks), g);
    }
  }

  // ---------- Supply never exceeds issuance ----------

  /** Coinbase outputs are not negative, and no other transaction's outputs add up to 2^63. */
  predicate Modest(txs: seq<Transaction>) {
    forall j :: 0 <= j < |txs| ==>
      if txs[j].IsCoinbase() then forall i :: 0 <= i < |txs[j].vout| ==> txs[j].vout[i].value >= 0
      else TotalValue(txs[j].vout) < TWO63
  }

  lemma TakenInNonNegative(walk: seq<Transaction>, tx: Transaction)
    requires NonNegative(walk) && (tx.IsCoinbase() || ResolvedOn(walk, PrevFor(walk, tx.vin), tx.vin))
    ensures TakenIn(walk, tx) >= 0
  {
    if !tx.IsCoinbase() {
      var prev := PrevFor(walk, tx.vin);
      forall i | 0 <= i < |tx.vin| ensures InputValue(prev, tx.vin[i]) >= 0 {
        var k := FoundAt(walk, tx.vin[i].txid);
      }
      SumAtLeast(InputValues(prev, tx.vin), 0);
    }
  }

  lemma {:induction false} TakenInAllNonNegative(walk: seq<Transaction>, txs: seq<Transaction>)
    requires NonNegative(walk) && AllResolvedOn(walk, txs)
    ensures TakenInAll(walk, txs) >= 0
  {
    if txs != [] {
      var n := |txs| - 1;
      assert forall j :: 0 <= j < n ==> txs[..n][j] == txs[j];
      TakenInAllNonNegative(walk, txs[..n]);
      TakenInNonNegative(walk, txs[n]);
    }
  }

  /** A transaction of the block cannot take in more than the chain holds. */
  lemma TakenInBounded(walk: seq<Transaction>, txs: seq<Transaction>, j: nat)
    requires UniqueIds(walk) && NonNegative(walk) && AllResolvedOn(walk, txs) && TxsOnce(SpentBy(walk), txs)
    requires j < |txs| && !txs[j].IsCoinbase()
    ensures 0 <= TakenIn(walk, txs[j]) <= Unspent(walk, SpentBy(walk))
  {
    var spent, front, tx := SpentBy(walk), txs[..j], txs[j];
    assert forall i :: 0 <= i < j ==> front[i] == txs[i];
    forall i | 0 <= i < |front| && !front[i].IsCoinbase()
      ensures InputsOnce(spent + SpentBy(front[..i]), front[i].vin)
    {
      assert front[..i] == txs[..i];
    }
    BlockTakesItsValue(walk, spent, front);
    TakenInAllNonNegative(walk, front);
    TakenInNonNegative(walk, tx);
    InputsTakeTheirValue(walk, spent + SpentBy(front), PrevFor(walk, tx.vin), tx.vin);
    UnspentNonNegative(walk, spent + SpentBy(front) + InputOutpoints(tx.vin));
  }

  /** While the chain holds less than 2^63, an accepted modest transaction burns, never mints. */
  lemma AcceptedBurns(c: Suite, s: State, b: Block, j: nat)
    requires MayMine(c, s, b) && UniqueIds(ChainTxs(s)) && NonNegative(ChainTxs(s)) && Modest(b.txs)
    requires TxsOnce(SpentBy(ChainTxs(s)), b.txs)
    requires Unspent(ChainTxs(s), SpentBy(ChainTxs(s))) < TWO63
    requires j < |b.txs| && !b.txs[j].IsCoinbase()
    ensures TakenIn(ChainTxs(s), b.txs[j]) >= TotalValue(b.txs[j].vout)
    ensures forall i :: 0 <= i < |b.txs[j].vout| ==> b.txs[j].vout[i].value > 0
  {
    VerifiedBlockResolves(c, s, b);
    TakenInBounded(ChainTxs(s), b.txs, j);
    assert VerifyTransaction(c, s, b.txs[j]) == Judged(Accepted);
    SumAtLeast(OutputValues(b.txs[j].vout), 0);
  }

  lemma {:induction false} BlockBurns(c: Suite, s: State, b: Block, n: nat)
    requires MayMine(c, s, b) && UniqueIds(ChainTxs(s)) && NonNegative(ChainTxs(s)) && Modest(b.txs)
    requires TxsOnce(SpentBy(ChainTxs(s)), b.txs)
    requires Unspent(ChainTxs(s), SpentBy(ChainTxs(s))) < TWO63
    requires n <= |b.txs|
    ensures Burned(ChainTxs(s), b.txs[..n]) >= 0
  {
    if n > 0 {
      BlockBurns(c, s, b, n - 1);
      assert b.txs[..n][..n - 1] == b.txs[..n - 1];
      if !b.txs[n - 1].IsCoinbase() {
        AcceptedBurns(c, s, b, n - 1);
      }
    }
  }

  lemma BlockKeepsNonNegative(c: Suite, s: State, b: Block)
    requires MayMine(c, s, b) && UniqueIds(ChainTxs(s)) && NonNegative(ChainTxs(s)) && Modest(b.txs)
    requires TxsOnce(SpentBy(ChainTxs(s)), b.txs)
    requires Unspent(ChainTxs(s), SpentBy(ChainTxs(s))) < TWO63
    ensures NonNegative(b.txs + ChainTxs(s))
  {
    forall j, i | 0 <= j < |b.txs| && 0 <= i < |b.txs[j].vout| ensures b.txs[j].vout[i].value >= 0 {
      if !b.txs[j].IsCoinbase() {
        AcceptedBurns(c, s, b, j);
      }
    }
  }

  /** Every block is modest, and at no point have the coinbases issued 2^63 or more. */
  ghost predicate ModestRun(g: Block, blocks: seq<Block>) {
    Modest(g.txs) && TotalIssued(g, blocks) < TWO63 &&
    (blocks != [] ==> ModestRun(g, blocks[..|blocks| - 1]) && Modest(blocks[|blocks| - 1].txs))
  }

  /** If coinbases issue nothing negative and less than 2^63 in all, and no transaction's
      outputs add up to 2^63, nothing is ever minted on the way: after every run the supply is
      at most what the coinbases issued. */
  lemma {:induction false} SupplyNeverExceedsIssuance(c: Suite, g: Block, blocks: seq<Block>)
    requires OnceRun(c, g, blocks) && ModestRun(g, blocks)
    ensures MinedInv(After(g, blocks), g) && NonNegative(ChainTxs(After(g, blocks)))
    ensures 0 <= Supply(ChainTxs(After(g, blocks))) <= TotalIssued(g, blocks)
    ensures TotalBurned(c, g, blocks) >= 0
  {
    SupplyIsConserved(c, g, blocks);
    if blocks == [] {
      GenesisMined(g);
    } else {
      var front, last := blocks[..|blocks| - 1], blocks[|blocks| - 1];
      SupplyNeverExceedsIssuance(c, g, front);
      MinedBlockBurns(c, After(g, front), last, After(g, blocks), g);
    }
    SupplyNonNegative(After(g, blocks), g);
  }

  lemma SupplyNonNegative(s: State, g: Block)
    requires MinedInv(s, g) && NonNegative(ChainTxs(s))
    ensures Supply(ChainTxs(s)) >= 0
  {
    SupplyIsUnspent(ChainTxs(s));
    UnspentNonNegative(ChainTxs(s), SpentBy(ChainTxs(s)));
  }

  lemma MinedBlockBurns(c: Suite, s: State, b: Block, s': State, g: Block)
    requires MinedInv(s, g) && Next(c, s, Mine(b), s') && FreshIds(s, b) && SpendsOnce(s, b)
    requires NonNegative(ChainTxs(s)) && Supply(ChainTxs(s)) < TWO63 && Modest(b.txs)
    ensures MinedInv(s', g) && NonNegative(ChainTxs(s')) && Burned(ChainTxs(s), b.txs) >= 0
  {
    MiningKeepsInv(c, s, b, s', g);
    SupplyIsUnspent(ChainTxs(s));
    BlockBurns(c, s, b, |b.txs|);
    assert b.txs[..|b.txs|] == b.txs;
    BlockKeepsNonNegative(c, s, b);
  }

  // ---------- Without the bound on outputs value is minted ----------

  /** A transaction under `id` that spends output `v` of `spent` into two of the largest value. */
  function Minting(c: Suite, walk: seq<Transaction>, id: Bytes, spent: Transaction, v: int, key: PrivateKey,
                   entropy: int -> int): Transaction
    requires Signing.AllResolve(PrevFor(walk, Limits.Oversized(c, id, spent.id, v, key).vin),
                                Limits.Oversized(c, id, spent.id, v, key).vin)
  {
    var draft := Limits.Oversized(c, id, spent.id, v, key);
    Signing.SignedTx(c, draft, PrevFor(walk, draft.vin), key, entropy)
  }

  /** The child of the tip that holds just `tx`. */
  function Child(s: State, tx: Transaction, hash: Bytes): Block
    requires s.storedTip in s.blocks
  {
    var tip := s.blocks[s.storedTip];
    Block(0, [tx], s.storedTip, hash, 0, tip.height + 1, ProofOfWork.EffectiveBits(tip.bits), [], [])
  }

  lemma MintingIsAccepted(c: Suite, s: State, id: Bytes, k: nat, v: int, key: PrivateKey, entropy: int -> int)
    requires c.SignaturesVerify() && UniqueIds(ChainTxs(s)) && k < |ChainTxs(s)| && s.storedTip in s.blocks
    requires var t := ChainTxs(s)[k];
             t.id != [] && 0 <= v < |t.vout| && !IsContract(t.vout[v]) && t.vout[v].value >= 0
    ensures var draft := Limits.Oversized(c, id, ChainTxs(s)[k].id, v, key);
            Signing.AllResolve(PrevFor(ChainTxs(s), draft.vin), draft.vin)
    ensures var walk := ChainTxs(s);
            var tx := Minting(c, walk, id, walk[k], v, key, entropy);
            VerifyTransaction(c, s, tx) == Judged(Accepted) && !tx.IsCoinbase() && tx.id == id && |tx.vin| == 1 &&
            OutpointOf(tx.vin[0]) == Outpoint(walk[k].id, v) &&
            TakenIn(walk, tx) == walk[k].vout[v].value && TotalValue(tx.vout) == 2 * (TWO63 - 1)
  {
    var walk := ChainTxs(s);
    var draft := Limits.Oversized(c, id, walk[k].id, v, key);
    var prev := PrevFor(walk, draft.vin);
    FindUnique(walk, k);
    assert FindTx(walk, draft.vin[0].txid) == Some(walk[k]);
    Limits.UnlimitedSumsWrap(c, prev, id, walk[k].id, v, key, entropy, s.blocks[s.storedTip].height);
    var tx := Minting(c, walk, id, walk[k], v, key, entropy);
    assert Txids(tx.vin) == Txids(draft.vin);
    assert PrevFor(walk, tx.vin) == prev;
  }

  lemma BurnedByOne(walk: seq<Transaction>, tx: Transaction)
    requires !tx.IsCoinbase()
    ensures Burned(walk, [tx]) == TakenIn(walk, tx) - TotalValue(tx.vout) && Issued([tx]) == 0
  {
    assert [tx][..0] == [];
  }

  lemma OnceByOne(walk: seq<Transaction>, tx: Transaction)
    requires |tx.vin| == 1 && OutpointOf(tx.vin[0]) !in SpentBy(walk)
    ensures TxsOnce(SpentBy(walk), [tx])
  {
    assert [tx][..0] == [] && SpentBy([]) == {};
  }

  lemma UniqueWithOne(tx: Transaction, walk: seq<Transaction>)
    requires UniqueIds(walk) && !Occurs(walk, tx.id)
    ensures UniqueIds([tx] + walk)
  {
    var w := [tx] + walk;
    forall i, j | 0 <= i < j < |w| ensures w[i].id != w[j].id {
      assert w[j] == walk[j - 1];
      if i > 0 {
        assert w[i] == walk[i - 1];
      }
    }
  }

  /** An unspent output is part of the supply. */
  lemma UnspentIsSupplied(walk: seq<Transaction>, k: nat, v: int)
    requires UniqueIds(walk) && SpendsComeFirst(walk) && NonNegative(walk)
    requires k < |walk| && 0 <= v < |walk[k].vout| && Outpoint(walk[k].id, v) !in SpentBy(walk)
    ensures walk[k].vout[v].value <= Supply(walk)
  {
    SupplyIsUnspent(walk);
    UnspentMinus(walk, SpentBy(walk), k, v);
    UnspentNonNegative(walk, SpentBy(walk) + {Outpoint(walk[k].id, v)});
  }

  /** The bound on a transaction's outputs is needed: on top of every modest run whose chain has an
      unspent ordinary output, one more block may be mined, whoever owns that output, after which
      the supply exceeds everything the coinbases issued. */
  lemma OneBlockMintsValue(c: Suite, g: Block, blocks: seq<Block>, k: nat, v: int, id: Bytes, hash: Bytes,
                           key: PrivateKey, entropy: int -> int)
    returns (b: Block)
    requires c.SignaturesVerify() && OnceRun(c, g, blocks) && ModestRun(g, blocks) && k < |ChainTxs(After(g, blocks))|
    requires var walk := ChainTxs(After(g, blocks));
             walk[k].id != [] && 0 <= v < |walk[k].vout| && !IsContract(walk[k].vout[v]) &&
             Outpoint(walk[k].id, v) !in SpentBy(walk) && !Occurs(walk, id)
    requires |hash| == 32 && hash !in After(g, blocks).blocks
    ensures OnceRun(c, g, blocks + [b])
    ensures Supply(ChainTxs(After(g, blocks + [b]))) > TotalIssued(g, blocks + [b])
  {
    var s := After(g, blocks);
    var walk := ChainTxs(s);
    SupplyNeverExceedsIssuance(c, g, blocks);
    MintingIsAccepted(c, s, id, k, v, key, entropy);
    var tx := Minting(c, walk, id, walk[k], v, key, entropy);
    b := Child(s, tx, hash);
    UniqueWithOne(tx, walk);
    OnceByOne(walk, tx);
    UnspentIsSupplied(walk, k, v);
    OneMoreOnce(c, g, blocks, b);
    SupplyAfterOne(c, g, blocks, tx, b);
  }

  lemma SupplyAfterOne(c: Suite, g: Block, blocks: seq<Block>, tx: Transaction, b: Block)
    requires OnceRun(c, g, blocks + [b]) && b.txs == [tx] && !tx.IsCoinbase()
    ensures TotalIssued(g, blocks + [b]) == TotalIssued(g, blocks)
    ensures var walk := ChainTxs(After(g, blocks));
            Supply(ChainTxs(After(g, blocks + [b]))) == Supply(walk) - TakenIn(walk, tx) + TotalValue(tx.vout)
  {
    BurnedByOne(ChainTxs(After(g, blocks)), tx);
    IssuedOneMore(g, blocks, b);
    LastBlockConserves(c, g, blocks, b);
  }

  lemma IssuedOneMore(g: Block, blocks: seq<Block>, b: Block)
    ensures TotalIssued(g, blocks + [b]) == TotalIssued(g, blocks) + Issued(b.txs)
  {
    assert (blocks + [b])[..|blocks|] == blocks;
  }

  lemma LastBlockConserves(c: Suite, g: Block, blocks: seq<Block>, b: Block)
    requires OnceRun(c, g, blocks + [b])
    ensures var walk := ChainTxs(After(g, blocks));
            Supply(ChainTxs(After(g, blocks + [b]))) == Supply(walk) + Issued(b.txs) - Burned(walk, b.txs)
  {
    assert (blocks + [b])[..|blocks|] == blocks;
    RunParts(c, g, blocks, b);
    MiningRun(c, g, blocks);
    MinedBlockConserves(c, After(g, blocks), b, SaveAsTip(After(g, blocks), b), g);
  }

  lemma OneMoreOnce(c: Suite, g: Block, blocks: seq<Block>, b: Block)
    requires OnceRun(c, g, blocks) && MayMine(c, After(g, blocks), b) && b.hash !in After(g, blocks).blocks
    requires FreshIds(After(g, blocks), b) && SpendsOnce(After(g, blocks), b)
    ensures OnceRun(c, g, blocks + [b]) && After(g, blocks + [b]) == SaveAsTip(After(g, blocks), b)
  {
    OneMoreMined(c, g, blocks, b, blocks + [b]);
    StateAfterOne(Created(g), blocks, b);
    assert (blocks + [b])[..|blocks + [b]| - 1] == blocks;
  }

  lemma OneMoreMined(c: Suite, g: Block, blocks: seq<Block>, b: Block, longer: seq<Block>)
    requires longer == blocks + [b] && IsMiningRun(c, g, blocks)
    requires MayMine(c, After(g, blocks), b) && b.hash !in After(g, blocks).blocks && FreshIds(After(g, blocks), b)
    ensures IsMiningRun(c, g, longer)
  {
    assert longer[..|longer| - 1] == blocks;
  }
}
