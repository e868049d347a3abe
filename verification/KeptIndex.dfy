/** The index kept by UTXOSet.Update alone, block after block, over a whole mining run: exactly
    when it is the index a rebuild would store. */
module KeptIndex {
  import opened Prelude
  import opened Ledger
  import opened Chain
  import opened Utxo
  import opened UtxoUpdate
  import opened UtxoBlock
  import opened MinedChain

  // ---------- A history, oldest first ----------

  /** What one more transaction adds. */
  function NamedByTx(tx: Transaction, id: Bytes): seq<int> {
    if tx.IsCoinbase() then [] else NamedBy(tx.vin, id)
  }

  lemma NamedAppend(txs: seq<Transaction>, tx: Transaction, id: Bytes)
    ensures Named(txs + [tx], id) == Named(txs, id) + NamedByTx(tx, id)
  {
    assert (txs + [tx])[..|txs|] == txs;
  }

  lemma NamedConcatStep(a: seq<Transaction>, front: seq<Transaction>, last: Transaction, b: seq<Transaction>, id: Bytes)
    requires b == front + [last] && Named(a + front, id) == Named(a, id) + Named(front, id)
    ensures Named(a + b, id) == Named(a, id) + Named(b, id)
  {
    JoinThree(a, front, [last]);
    NamedAppend(a + front, last, id);
    NamedAppend(front, last, id);
    JoinThree(Named(a, id), Named(front, id), NamedByTx(last, id));
  }

  lemma {:induction false} NamedConcat(a: seq<Transaction>, b: seq<Transaction>, id: Bytes)
    ensures Named(a + b, id) == Named(a, id) + Named(b, id)
  {
    if b == [] {
      assert a + b == a;
    } else {
      NamedConcat(a, b[..|b| - 1], id);
      NamedConcatStep(a, b[..|b| - 1], b[|b| - 1], b, id);
    }
  }

  lemma {:induction false} UpdateTxsConcat<T>(t: map<Bytes, seq<T>>, a: seq<Transaction>, b: seq<Transaction>,
                                              entries: Outputs -> seq<T>)
    ensures UpdateTxs(t, a + b, entries) == UpdateTxs(UpdateTxs(t, a, entries), b, entries)
  {
    if b == [] {
      assert a + b == a;
    } else {
      UpdateTxsConcat(t, a, b[..|b| - 1], entries);
      assert (a + b)[..|a + b| - 1] == a + b[..|b| - 1];
    }
  }

  /** Transaction `k` is named by nothing up to itself, and has each output named at most once. */
  predicate ProperEntry(all: seq<Transaction>, k: nat)
    requires k < |all|
  {
    Named(all[..k + 1], all[k].id) == [] && FreshSpends(|all[k].vout|, {}, Named(all, all[k].id))
  }

  /** `all` is, oldest first, the same chain as `walk`. */
  ghost predicate IsHistory(all: seq<Transaction>, walk: seq<Transaction>) {
    UniqueIds(all) && SpentBy(all) == SpentBy(walk) && (forall tx :: tx in all <==> tx in walk) &&
    forall k :: 0 <= k < |all| ==> ProperEntry(all, k)
  }

  /** Over the whole history every transaction's outputs are spent highest index first. */
  predicate AlwaysHighestFirst(all: seq<Transaction>) {
    forall k :: 0 <= k < |all| ==> HighestFirst({}, Named(all, all[k].id))
  }

  const EMPTY: Table := map[]

  /** What Update alone leaves of `tx`: its outputs, less one position per naming input. */
  predicate LeftOf(txs: seq<Transaction>, tx: Transaction) {
    Get(UpdateTxs(EMPTY, txs, TagAll), tx.id) == RemoveAll(TagAll(tx.vout), Named(txs, tx.id))
  }

  lemma LeftAtFirst(front: seq<Transaction>, tx: Transaction, txs: seq<Transaction>)
    requires txs == front + [tx] && Named(txs, tx.id) == []
    ensures LeftOf(txs, tx)
  {
    assert txs[..|txs| - 1] == front;
  }

  lemma UpdateOneMore(front: seq<Transaction>, last: Transaction, txs: seq<Transaction>)
    requires txs == front + [last]
    ensures UpdateTxs(EMPTY, txs, TagAll) == UpdateTx(UpdateTxs(EMPTY, front, TagAll), last, TagAll)
  {
    assert txs[..|txs| - 1] == front;
  }

  lemma LeftOneMore(front: seq<Transaction>, last: Transaction, txs: seq<Transaction>, tx: Transaction)
    requires txs == front + [last] && last.id != tx.id && LeftOf(front, tx)
    ensures LeftOf(txs, tx)
  {
    UpdateOneMore(front, last, txs);
    UpdateTxAt(UpdateTxs(EMPTY, front, TagAll), last, tx.id);
    NamedAppend(front, last, tx.id);
    RemoveAllAppend(TagAll(tx.vout), Named(front, tx.id), NamedByTx(last, tx.id));
  }

  lemma LeftStep(front: seq<Transaction>, mid: seq<Transaction>, last: Transaction, rest: seq<Transaction>,
                 tx: Transaction)
    requires rest == mid + [last] && last.id != tx.id && LeftOf(front + mid, tx)
    ensures LeftOf(front + rest, tx)
  {
    JoinThree(front, mid, [last]);
    LeftOneMore(front + mid, last, front + rest, tx);
  }

  lemma {:induction false} LeftThrough(front: seq<Transaction>, rest: seq<Transaction>, tx: Transaction)
    requires LeftOf(front, tx) && forall i :: 0 <= i < |rest| ==> rest[i].id != tx.id
    ensures LeftOf(front + rest, tx)
  {
    if rest == [] {
      assert front + rest == front;
    } else {
      LeftThrough(front, rest[..|rest| - 1], tx);
      LeftStep(front, rest[..|rest| - 1], rest[|rest| - 1], rest, tx);
    }
  }

  lemma KeptAt(all: seq<Transaction>, k: nat)
    requires UniqueIds(all) && k < |all| && Named(all[..k + 1], all[k].id) == []
    ensures LeftOf(all, all[k])
  {
    TakeOneMore(all, k);
    LeftAtFirst(all[..k], all[k], all[..k + 1]);
    LaterIdsDiffer(all, k, all[k + 1..]);
    LeftThrough(all[..k + 1], all[k + 1..], all[k]);
    assert all[..k + 1] + all[k + 1..] == all;
  }

  lemma LaterIdsDiffer(all: seq<Transaction>, k: nat, later: seq<Transaction>)
    requires UniqueIds(all) && k < |all| && later == all[k + 1..]
    ensures forall i :: 0 <= i < |later| ==> later[i].id != all[k].id
  {
  }

  lemma RebuiltAtEntry(all: seq<Transaction>, walk: seq<Transaction>, k: nat)
    requires IsHistory(all, walk) && UniqueIds(walk) && SpendsComeFirst(walk) && k < |all|
    ensures Get(FindTable(walk), all[k].id) == Kept(all[k].vout, {} + AsSet(Named(all, all[k].id)))
  {
    var id := all[k].id;
    assert all[k] in walk;
    var j :| 0 <= j < |walk| && walk[j] == all[k];
    PassFindsUnspent(walk);
    TableWithAt(walk, SpentBy(walk), j);
    forall v ensures v in Indices(SpentBy(walk), id) <==> v in AsSet(Named(all, id)) {
      NamedIsSpent(all, id, v);
    }
    KeptDependsOnRange(all[k].vout, Indices(SpentBy(walk), id), {} + AsSet(Named(all, id)));
  }

  lemma EntryAgrees(all: seq<Transaction>, walk: seq<Transaction>, k: nat)
    requires IsHistory(all, walk) && UniqueIds(walk) && SpendsComeFirst(walk) && k < |all|
    ensures Get(UpdateTxs(EMPTY, all, TagAll), all[k].id) == Get(FindTable(walk), all[k].id) <==>
            HighestFirst({}, Named(all, all[k].id))
  {
    assert ProperEntry(all, k);
    KeptAt(all, k);
    RebuiltAtEntry(all, walk, k);
    AllInputsExact(all[k].vout, {}, Named(all, all[k].id));
  }

  /** With each output's index kept, Update alone and a rebuild agree exactly when the history spends
      every transaction's outputs highest index first. */
  lemma KeptAgreesExactly(all: seq<Transaction>, walk: seq<Transaction>)
    requires IsHistory(all, walk) && UniqueIds(walk) && SpendsComeFirst(walk) && AllHaveOutputs(all)
    ensures UpdateTxs(EMPTY, all, TagAll) == FindTable(walk) <==> AlwaysHighestFirst(all)
  {
    var kept, rebuilt := UpdateTxs(EMPTY, all, TagAll), FindTable(walk);
    forall k | 0 <= k < |all|
      ensures Get(kept, all[k].id) == Get(rebuilt, all[k].id) <==> HighestFirst({}, Named(all, all[k].id))
    {
      EntryAgrees(all, walk, k);
    }
    if AlwaysHighestFirst(all) {
      UpdateTxsKeys(EMPTY, all);
      FindTableNoEmpty(walk);
      forall id | id in kept || id in rebuilt ensures exists k :: 0 <= k < |all| && all[k].id == id {
        KeyInHistory(all, walk, id);
      }
      SameTables(all, kept, rebuilt);
    }
  }

  lemma KeyInHistory(all: seq<Transaction>, walk: seq<Transaction>, id: Bytes)
    requires forall tx :: tx in all <==> tx in walk
    requires id in FindTable(walk) || Occurs(all, id)
    ensures exists k :: 0 <= k < |all| && all[k].id == id
  {
    if !Occurs(all, id) {
      KeysOccur(walk, {}, id);
      var j :| 0 <= j < |walk| && walk[j].id == id;
      assert walk[j] in all;
    }
  }

  lemma StoredEntryTellsOrder(all: seq<Transaction>, walk: seq<Transaction>, k: nat)
    requires IsHistory(all, walk) && UniqueIds(walk) && SpendsComeFirst(walk) && k < |all| && Distinct(all[k].vout)
    requires Stored(UpdateTxs(EMPTY, all, TagAll)) == Stored(FindTable(walk))
    ensures HighestFirst({}, Named(all, all[k].id))
  {
    var vs := Named(all, all[k].id);
    assert ProperEntry(all, k);
    StoredAt(UpdateTxs(EMPTY, all, TagAll), FindTable(walk), all[k].id);
    KeptAt(all, k);
    RebuiltAtEntry(all, walk, k);
    StripRemoveAll(Kept(all[k].vout, {}), vs);
    AllStoredInputsExact(all[k].vout, {}, vs);
  }

  lemma SomeFresh(n: nat, spent: set<int>, vs: seq<int>)
    requires FreshSpends(n, spent, vs) && vs != []
    ensures n > 0
  {
    assert 0 <= vs[0] < n;
  }

  lemma OutputlessDiffers(all: seq<Transaction>, walk: seq<Transaction>, k: nat)
    requires IsHistory(all, walk) && UniqueIds(walk) && SpendsComeFirst(walk) && k < |all| && all[k].vout == []
    ensures UpdateTxs(Stored(EMPTY), all, AsStored) != Stored(FindTable(walk))
  {
    assert ProperEntry(all, k);
    if Named(all, all[k].id) != [] {
      SomeFresh(|all[k].vout|, {}, Named(all, all[k].id));
    }
    UpdateTxsHasKey(Stored(EMPTY), all, k, AsStored);
    RebuiltAtEntry(all, walk, k);
    FindTableNoEmpty(walk);
    assert all[k].id !in FindTable(walk);
  }

  /** The same on the stored index: outputs everywhere, spent highest first, suffice. Outputs are
      needed, and where no transaction has two equal outputs so is the order. */
  lemma StoredKeptAgrees(all: seq<Transaction>, walk: seq<Transaction>)
    requires IsHistory(all, walk) && UniqueIds(walk) && SpendsComeFirst(walk)
    ensures var agree := UpdateTxs(Stored(EMPTY), all, AsStored) == Stored(FindTable(walk));
            (AllHaveOutputs(all) && AlwaysHighestFirst(all) ==> agree) && (agree ==> AllHaveOutputs(all)) &&
            (OutputsDiffer(all) && agree ==> AlwaysHighestFirst(all))
  {
    StoredUpdateTxs(EMPTY, all);
    if AllHaveOutputs(all) {
      KeptAgreesExactly(all, walk);
    } else {
      var k :| 0 <= k < |all| && all[k].vout == [];
      OutputlessDiffers(all, walk, k);
    }
    if OutputsDiffer(all) && UpdateTxs(Stored(EMPTY), all, AsStored) == Stored(FindTable(walk)) {
      forall k | 0 <= k < |all| ensures HighestFirst({}, Named(all, all[k].id)) {
        StoredEntryTellsOrder(all, walk, k);
      }
    }
  }

  // ---------- One block longer ----------

  lemma FreshBoth(n: nat, spent: set<int>, a: seq<int>, b: seq<int>)
    requires FreshSpends(n, {}, a) && FreshSpends(n, spent, b) && forall i :: 0 <= i < |a| ==> a[i] in spent
    ensures FreshSpends(n, {}, a + b)
  {
    forall v | v in a ensures v !in b {
    }
    DistinctConcat(a, b);
  }

  lemma OlderNamed(all: seq<Transaction>, walk: seq<Transaction>, txs: seq<Transaction>, k: nat)
    requires IsHistory(all, walk) && SpendsFresh(walk, txs) && k < |all|
    ensures FreshSpends(|all[k].vout|, {}, Named(all, all[k].id) + Named(txs, all[k].id))
  {
    var id := all[k].id;
    var named, spent := Named(all, id), Indices(SpentBy(walk), id);
    assert ProperEntry(all, k);
    assert all[k] in walk;
    var j :| 0 <= j < |walk| && walk[j] == all[k];
    assert FreshSpends(|walk[j].vout|, Indices(SpentBy(walk), walk[j].id), Named(txs, walk[j].id));
    forall i | 0 <= i < |named| ensures named[i] in spent {
      NamedIsSpent(all, id, named[i]);
    }
    FreshBoth(|all[k].vout|, spent, named, Named(txs, id));
  }

  lemma OlderEntry(all: seq<Transaction>, walk: seq<Transaction>, txs: seq<Transaction>, whole: seq<Transaction>,
                   k: nat)
    requires IsHistory(all, walk) && SpendsFresh(walk, txs) && k < |all| && whole == all + txs
    ensures ProperEntry(whole, k)
  {
    assert ProperEntry(all, k);
    OlderNamed(all, walk, txs, k);
    NamedConcat(all, txs, all[k].id);
    assert whole[..k + 1] == all[..k + 1] && whole[k] == all[k];
  }

  lemma NewerEntry(walk: seq<Transaction>, txs: seq<Transaction>, whole: seq<Transaction>, i: nat, k: nat)
    requires SpentBy(whole) == SpentBy(txs + walk) && NotNamedYet(walk, txs) && i < |txs|
    requires k < |whole| && whole[k] == txs[i]
    ensures ProperEntry(whole, k)
  {
    NothingNames(walk, txs, whole, i, |whole|);
    NothingNames(walk, txs, whole, i, k + 1);
    assert whole[..|whole|] == whole;
  }

  lemma NothingNames(walk: seq<Transaction>, txs: seq<Transaction>, whole: seq<Transaction>, i: nat, n: nat)
    requires SpentBy(whole) == SpentBy(txs + walk) && NotNamedYet(walk, txs) && i < |txs| && n <= |whole|
    ensures Named(whole[..n], txs[i].id) == []
  {
    var vs := Named(whole[..n], txs[i].id);
    if vs != [] {
      NamedIsSpent(whole[..n], txs[i].id, vs[0]);
      SpentByMonotone(whole, n);
    }
  }

  lemma LongerUnique(all: seq<Transaction>, walk: seq<Transaction>, txs: seq<Transaction>)
    requires UniqueIds(all) && UniqueIds(txs + walk) && forall tx :: tx in all <==> tx in walk
    ensures UniqueIds(all + txs) && forall tx :: tx in all + txs <==> tx in txs + walk
  {
    UniqueParts(walk, txs);
    forall k, i | 0 <= k < |all| && 0 <= i < |txs| ensures all[k].id != txs[i].id {
      assert all[k] in walk;
      var j :| 0 <= j < |walk| && walk[j] == all[k];
    }
  }

  lemma OlderEntries(all: seq<Transaction>, walk: seq<Transaction>, txs: seq<Transaction>, whole: seq<Transaction>)
    requires IsHistory(all, walk) && SpendsFresh(walk, txs) && whole == all + txs
    ensures forall k :: 0 <= k < |all| ==> ProperEntry(whole, k)
  {
    forall k | 0 <= k < |all| ensures ProperEntry(whole, k) {
      OlderEntry(all, walk, txs, whole, k);
    }
  }

  lemma NewerEntries(walk: seq<Transaction>, txs: seq<Transaction>, whole: seq<Transaction>, n: nat)
    requires SpentBy(whole) == SpentBy(txs + walk) && NotNamedYet(walk, txs)
    requires n <= |whole| && whole[n..] == txs
    ensures forall k :: n <= k < |whole| ==> ProperEntry(whole, k)
  {
    forall k | n <= k < |whole| ensures ProperEntry(whole, k) {
      assert whole[n..][k - n] == whole[k];
      NewerEntry(walk, txs, whole, k - n, k);
    }
  }

  lemma LongerHistory(all: seq<Transaction>, walk: seq<Transaction>, txs: seq<Transaction>)
    requires IsHistory(all, walk) && UniqueIds(txs + walk) && NotNamedYet(walk, txs) && SpendsFresh(walk, txs)
    ensures IsHistory(all + txs, txs + walk)
  {
    LongerUnique(all, walk, txs);
    SpentByConcat(all, txs);
    SpentByConcat(txs, walk);
    OlderEntries(all, walk, txs, all + txs);
    NewerEntries(walk, txs, all + txs, |all|);
  }

  // ---------- Whole runs ----------

  /** The transactions of a run, oldest first. */
  function Chronicle(g: Block, blocks: seq<Block>): seq<Transaction> {
    if blocks == [] then g.txs else Chronicle(g, blocks[..|blocks| - 1]) + blocks[|blocks| - 1].txs
  }

  /** The index rebuilt once, over genesis, and from then on kept by Update alone. */
  function IndexAfter(g: Block, blocks: seq<Block>): StoredTable {
    if blocks == [] then Stored(FindTable(g.txs))
    else UpdateTxs(IndexAfter(g, blocks[..|blocks| - 1]), blocks[|blocks| - 1].txs, AsStored)
  }

  lemma GenesisIndex(g: Block)
    requires IsGenesis(g)
    ensures Stored(FindTable(g.txs)) == UpdateTxs(Stored(EMPTY), g.txs, AsStored)
    ensures IsHistory(g.txs, g.txs)
  {
    GenesisFold(g.txs[0], g.txs);
    GenesisHistory(g.txs[0], g.txs);
  }

  lemma GenesisFold(tx: Transaction, txs: seq<Transaction>)
    requires txs == [tx] && tx.IsCoinbase() && tx.vout != []
    ensures Stored(FindTable(txs)) == UpdateTxs(Stored(EMPTY), txs, AsStored)
  {
    assert txs[..0] == [] && SpentBy(txs[..0]) == {};
    FindTableUnfold(txs, 0);
    KeptAll(tx.vout, Indices({}, tx.id));
    AddKeptFresh(FindTable(txs[..0]), tx.id, Kept(tx.vout, Indices({}, tx.id)));
  }

  lemma GenesisHistory(tx: Transaction, txs: seq<Transaction>)
    requires txs == [tx] && tx.IsCoinbase()
    ensures IsHistory(txs, txs)
  {
    assert txs[..0] == [] && Named(txs[..0], tx.id) == [] && Named(txs, tx.id) == [];
    assert txs[..1] == txs;
    assert ProperEntry(txs, 0);
  }

  lemma {:induction false} IndexIsFold(g: Block, blocks: seq<Block>)
    requires IsGenesis(g)
    ensures IndexAfter(g, blocks) == UpdateTxs(Stored(EMPTY), Chronicle(g, blocks), AsStored)
  {
    if blocks == [] {
      GenesisIndex(g);
    } else {
      var front, last := blocks[..|blocks| - 1], blocks[|blocks| - 1];
      IndexIsFold(g, front);
      UpdateTxsConcat(Stored(EMPTY), Chronicle(g, front), last.txs, AsStored);
    }
  }

  lemma HistoryOneMore(c: Suite, g: Block, run: seq<Block>, b: Block, blocks: seq<Block>, all: seq<Transaction>)
    requires blocks == run + [b] && IsMiningRun(c, g, blocks) && SpendsOnce(After(g, run), b)
    requires IsHistory(all, ChainTxs(After(g, run)))
    ensures IsHistory(all + b.txs, ChainTxs(After(g, blocks)))
  {
    MinedOnTop(c, g, run, b, blocks);
    VerifiedBlockSpendsFresh(c, After(g, run), b);
    LongerHistory(all, ChainTxs(After(g, run)), b.txs);
  }

  lemma {:induction false} RunHistory(c: Suite, g: Block, blocks: seq<Block>)
    requires OnceRun(c, g, blocks)
    ensures IsHistory(Chronicle(g, blocks), ChainTxs(After(g, blocks)))
  {
    if blocks == [] {
      GenesisMined(g);
      GenesisIndex(g);
    } else {
      var front, last := blocks[..|blocks| - 1], blocks[|blocks| - 1];
      RunHistory(c, g, front);
      HistoryOneMore(c, g, front, last, blocks, Chronicle(g, front));
    }
  }

  /** After every mining run without double spends: the index kept by Update alone since genesis is
      the one a rebuild would store if all transactions have outputs and the whole run spends every
      transaction's outputs highest index first. It is only if all transactions have outputs and,
      where none has two equal outputs, only in that order. */
  lemma IndexKeptByUpdate(c: Suite, g: Block, blocks: seq<Block>)
    requires OnceRun(c, g, blocks)
    ensures var all := Chronicle(g, blocks);
            var agree := IndexAfter(g, blocks) == Stored(FindTable(ChainTxs(After(g, blocks))));
            (AllHaveOutputs(all) && AlwaysHighestFirst(all) ==> agree) && (agree ==> AllHaveOutputs(all)) &&
            (OutputsDiffer(all) && agree ==> AlwaysHighestFirst(all))
  {
    RunHistory(c, g, blocks);
    IndexIsFold(g, blocks);
    MiningRun(c, g, blocks);
    StoredKeptAgrees(Chronicle(g, blocks), ChainTxs(After(g, blocks)));
  }
}
