/** UTXOSet.Update over a whole block, against rebuilding the index from the chain. */
module UtxoBlock {
  import opened Prelude
  import opened Ledger
  import opened Utxo
  import opened UtxoUpdate

  // ---------- Update, for tagged and for stored lists alike ----------

  /** One input of Update: drop the entry at its position, or nothing if the key is missing;
      a list that becomes empty is deleted. */
  function SpendInput<T>(t: map<Bytes, seq<T>>, input: TxInput): map<Bytes, seq<T>> {
    if input.txid !in t then t
    else
      var rest := RemoveAt(t[input.txid], input.vout);
      if |rest| == 0 then t - {input.txid} else t[input.txid := rest]
  }

  function SpendInputs<T>(t: map<Bytes, seq<T>>, vin: seq<TxInput>): map<Bytes, seq<T>> {
    if vin == [] then t else SpendInput(SpendInputs(t, vin[..|vin| - 1]), vin[|vin| - 1])
  }

  function UpdateTx<T>(t: map<Bytes, seq<T>>, tx: Transaction, entries: Outputs -> seq<T>): map<Bytes, seq<T>> {
    (if tx.IsCoinbase() then t else SpendInputs(t, tx.vin))[tx.id := entries(tx.vout)]
  }

  function UpdateTxs<T>(t: map<Bytes, seq<T>>, txs: seq<Transaction>, entries: Outputs -> seq<T>): map<Bytes, seq<T>> {
    if txs == [] then t else UpdateTx(UpdateTxs(t, txs[..|txs| - 1], entries), txs[|txs| - 1], entries)
  }

  function TagAll(outs: Outputs): seq<Tagged> {
    Kept(outs, {})
  }

  function AsStored(outs: Outputs): Outputs {
    outs
  }

  // ---------- The stored table follows the tagged one ----------

  lemma StoredSpendInput(t: Table, input: TxInput)
    ensures Stored(SpendInput(t, input)) == SpendInput(Stored(t), input)
  {
    if input.txid in t {
      StripRemoveAt(t[input.txid], input.vout);
    }
  }

  lemma {:induction false} StoredSpendInputs(t: Table, vin: seq<TxInput>)
    ensures Stored(SpendInputs(t, vin)) == SpendInputs(Stored(t), vin)
  {
    if vin != [] {
      StoredSpendInputs(t, vin[..|vin| - 1]);
      StoredSpendInput(SpendInputs(t, vin[..|vin| - 1]), vin[|vin| - 1]);
    }
  }

  lemma StoredUpdateTx(t: Table, tx: Transaction)
    ensures Stored(UpdateTx(t, tx, TagAll)) == UpdateTx(Stored(t), tx, AsStored)
  {
    StoredSpendInputs(t, tx.vin);
    KeptAll(tx.vout, {});
  }

  lemma {:induction false} StoredUpdateTxs(t: Table, txs: seq<Transaction>)
    ensures Stored(UpdateTxs(t, txs, TagAll)) == UpdateTxs(Stored(t), txs, AsStored)
  {
    if txs != [] {
      StoredUpdateTxs(t, txs[..|txs| - 1]);
      StoredUpdateTx(UpdateTxs(t, txs[..|txs| - 1], TagAll), txs[|txs| - 1]);
    }
  }

  // ---------- Entry by entry ----------

  /** The indices of `id` that `vin` names, in order. */
  function NamedBy(vin: seq<TxInput>, id: Bytes): seq<int> {
    if vin == [] then []
    else
      var last := vin[|vin| - 1];
      NamedBy(vin[..|vin| - 1], id) + if last.txid == id then [last.vout] else []
  }

  /** The indices of `id` that the inputs of `txs` name, in the order Update meets them. */
  function Named(txs: seq<Transaction>, id: Bytes): seq<int> {
    if txs == [] then []
    else
      var last := txs[|txs| - 1];
      Named(txs[..|txs| - 1], id) + if last.IsCoinbase() then [] else NamedBy(last.vin, id)
  }

  lemma SpendInputAt(t: Table, input: TxInput, id: Bytes)
    ensures Get(SpendInput(t, input), id) == if input.txid == id then RemoveAt(Get(t, id), input.vout) else Get(t, id)
  {
  }

  lemma {:induction false} RemoveAllAppend(ts: seq<Tagged>, a: seq<int>, b: seq<int>)
    ensures RemoveAll(ts, a + b) == RemoveAll(RemoveAll(ts, a), b)
    decreases |a|
  {
    if a == [] {
      assert a + b == b;
    } else {
      assert (a + b)[0] == a[0] && (a + b)[1..] == a[1..] + b;
      RemoveAllAppend(RemoveAt(ts, a[0]), a[1..], b);
    }
  }

  lemma RemoveAllOne(ts: seq<Tagged>, v: int)
    ensures RemoveAll(ts, [v]) == RemoveAt(ts, v)
  {
    assert [v][1..] == [];
    assert RemoveAll(RemoveAt(ts, v), []) == RemoveAt(ts, v);
  }

  lemma {:induction false} SpendInputsAt(t: Table, vin: seq<TxInput>, id: Bytes)
    ensures Get(SpendInputs(t, vin), id) == RemoveAll(Get(t, id), NamedBy(vin, id))
  {
    if vin != [] {
      var front, last := vin[..|vin| - 1], vin[|vin| - 1];
      SpendInputsAt(t, front, id);
      SpendInputAt(SpendInputs(t, front), last, id);
      if last.txid == id {
        RemoveAllAppend(Get(t, id), NamedBy(front, id), [last.vout]);
        RemoveAllOne(RemoveAll(Get(t, id), NamedBy(front, id)), last.vout);
      } else {
        assert NamedBy(vin, id) == NamedBy(front, id);
      }
    }
  }

  predicate Occurs(txs: seq<Transaction>, id: Bytes) {
    exists k :: 0 <= k < |txs| && txs[k].id == id
  }

  lemma UpdateTxAt(t: Table, tx: Transaction, id: Bytes)
    requires tx.id != id
    ensures Get(UpdateTx(t, tx, TagAll), id) ==
            RemoveAll(Get(t, id), if tx.IsCoinbase() then [] else NamedBy(tx.vin, id))
  {
    SpendInputsAt(t, tx.vin, id);
  }

  /** An older transaction's list loses one position per input that names it. */
  lemma {:induction false} UpdateTxsAtOld(t: Table, txs: seq<Transaction>, id: Bytes)
    requires !Occurs(txs, id)
    ensures Get(UpdateTxs(t, txs, TagAll), id) == RemoveAll(Get(t, id), Named(txs, id))
  {
    if txs != [] {
      var front, last := txs[..|txs| - 1], txs[|txs| - 1];
      UpdateTxsAtOld(t, front, id);
      UpdateTxAt(UpdateTxs(t, front, TagAll), last, id);
      var more := if last.IsCoinbase() then [] else NamedBy(last.vin, id);
      RemoveAllAppend(Get(t, id), Named(front, id), more);
    }
  }

  lemma {:induction false} NamedPrefix(txs: seq<Transaction>, n: nat, id: Bytes)
    requires n <= |txs| && Named(txs, id) == []
    ensures Named(txs[..n], id) == []
  {
    if n < |txs| {
      NamedPrefix(txs[..|txs| - 1], n, id);
      assert txs[..|txs| - 1][..n] == txs[..n];
    } else {
      assert txs[..n] == txs;
    }
  }

  /** A transaction of the block itself ends with all its outputs. */
  lemma {:induction false} UpdateTxsAtNew(t: Table, txs: seq<Transaction>, k: nat)
    requires UniqueIds(txs) && k < |txs|
    requires Named(txs, txs[k].id) == []
    ensures Get(UpdateTxs(t, txs, TagAll), txs[k].id) == TagAll(txs[k].vout)
  {
    var n := |txs| - 1;
    if k < n {
      NamedPrefix(txs, n, txs[k].id);
      UpdateTxsAtNew(t, txs[..n], k);
      UpdateTxAt(UpdateTxs(t, txs[..n], TagAll), txs[n], txs[k].id);
    }
  }

  lemma {:induction false} SpendInputsNoEmpty(t: Table, vin: seq<TxInput>)
    requires NoEmptyEntries(t)
    ensures NoEmptyEntries(SpendInputs(t, vin))
    ensures SpendInputs(t, vin).Keys <= t.Keys
  {
    if vin != [] {
      SpendInputsNoEmpty(t, vin[..|vin| - 1]);
    }
  }

  lemma {:induction false} UpdateTxsKeys(t: Table, txs: seq<Transaction>)
    requires NoEmptyEntries(t)
    requires forall k :: 0 <= k < |txs| ==> txs[k].vout != []
    ensures NoEmptyEntries(UpdateTxs(t, txs, TagAll))
    ensures forall id :: id in UpdateTxs(t, txs, TagAll) ==> id in t || Occurs(txs, id)
  {
    if txs != [] {
      var front, last := txs[..|txs| - 1], txs[|txs| - 1];
      UpdateTxsKeys(t, front);
      SpendInputsNoEmpty(UpdateTxs(t, front, TagAll), last.vin);
      KeptAll(last.vout, {});
      forall id | id in UpdateTxs(t, txs, TagAll) ensures id in t || Occurs(txs, id) {
        if id == last.id {
          assert txs[|txs| - 1].id == id;
        } else if Occurs(front, id) {
          var k :| 0 <= k < |front| && front[k].id == id;
          assert txs[k].id == id;
        }
      }
    }
  }

  // ---------- The chain one block longer ----------

  lemma {:induction false} SpentByConcat(a: seq<Transaction>, b: seq<Transaction>)
    ensures SpentBy(a + b) == SpentBy(a) + SpentBy(b)
  {
    if b == [] {
      assert a + b == a;
    } else {
      SpentByConcat(a, b[..|b| - 1]);
      assert (a + b)[..|a + b| - 1] == a + b[..|b| - 1];
    }
  }

  lemma {:induction false} NamedByIsSpent(vin: seq<TxInput>, id: Bytes, v: int)
    ensures v in NamedBy(vin, id) <==> Outpoint(id, v) in InputOutpoints(vin)
  {
    if vin != [] {
      var n := |vin| - 1;
      NamedByIsSpent(vin[..n], id, v);
      assert InputOutpoints(vin) == InputOutpoints(vin[..n]) + {Outpoint(vin[n].txid, vin[n].vout)};
    }
  }

  lemma {:induction false} NamedIsSpent(txs: seq<Transaction>, id: Bytes, v: int)
    ensures v in Named(txs, id) <==> Outpoint(id, v) in SpentBy(txs)
  {
    if txs != [] {
      NamedIsSpent(txs[..|txs| - 1], id, v);
      NamedByIsSpent(txs[|txs| - 1].vin, id, v);
    }
  }

  lemma IndicesAfterBlock(walk: seq<Transaction>, txs: seq<Transaction>, id: Bytes)
    ensures Indices(SpentBy(txs + walk), id) == Indices(SpentBy(walk), id) + AsSet(Named(txs, id))
  {
    SpentByConcat(txs, walk);
    var before, after, named := Indices(SpentBy(walk), id), Indices(SpentBy(txs + walk), id), AsSet(Named(txs, id));
    forall v ensures v in after <==> v in before + named {
      NamedIsSpent(txs, id, v);
    }
  }

  /** No input in `walk` names a transaction of `txs`, nor does one in `txs` itself. */
  predicate NotNamedYet(walk: seq<Transaction>, txs: seq<Transaction>) {
    forall k, p :: 0 <= k < |txs| && p in SpentBy(txs + walk) ==> p.txid != txs[k].id
  }

  /** The inputs of the block name existing unspent outputs of the chain, each at most once. */
  predicate SpendsFresh(walk: seq<Transaction>, txs: seq<Transaction>) {
    forall k :: 0 <= k < |walk| ==>
      FreshSpends(|walk[k].vout|, Indices(SpentBy(walk), walk[k].id), Named(txs, walk[k].id))
  }

  /** For every older transaction, the block spends its outputs highest index first. */
  predicate SpendsHighestFirst(walk: seq<Transaction>, txs: seq<Transaction>) {
    forall k :: 0 <= k < |walk| ==> HighestFirst(Indices(SpentBy(walk), walk[k].id), Named(txs, walk[k].id))
  }

  lemma LongerWalkSpendsFirst(walk: seq<Transaction>, txs: seq<Transaction>)
    requires SpendsComeFirst(walk) && NotNamedYet(walk, txs)
    ensures SpendsComeFirst(txs + walk)
  {
    var w := txs + walk;
    forall k, i | 0 <= k < |w| && 0 <= i < |w[k].vout| && Outpoint(w[k].id, i) in SpentBy(w)
      ensures Outpoint(w[k].id, i) in SpentBy(w[..k])
    {
      assert |txs| <= k;
      var j := k - |txs|;
      SpentByConcat(txs, walk);
      SpentByConcat(txs, walk[..j]);
      assert w[..k] == txs + walk[..j];
      assert w[k] == walk[j];
    }
  }

  lemma RebuiltAt(walk: seq<Transaction>, txs: seq<Transaction>, j: nat)
    requires UniqueIds(txs + walk) && SpendsComeFirst(walk) && NotNamedYet(walk, txs) && j < |txs + walk|
    ensures var w := txs + walk;
            Get(FindTable(w), w[j].id) == Kept(w[j].vout, Indices(SpentBy(w), w[j].id))
  {
    LongerWalkSpendsFirst(walk, txs);
    PassFindsUnspent(txs + walk);
    TableWithAt(txs + walk, SpentBy(txs + walk), j);
  }

  /** What the rebuilt index holds for an older transaction and for one of the new block. */
  lemma RebuiltAtOld(walk: seq<Transaction>, txs: seq<Transaction>, k: nat)
    requires UniqueIds(txs + walk) && SpendsComeFirst(walk) && NotNamedYet(walk, txs) && k < |walk|
    ensures Get(FindTable(txs + walk), walk[k].id) ==
            Kept(walk[k].vout, Indices(SpentBy(walk), walk[k].id) + AsSet(Named(txs, walk[k].id)))
  {
    RebuiltAt(walk, txs, |txs| + k);
    IndicesAfterBlock(walk, txs, walk[k].id);
  }

  lemma RebuiltAtNew(walk: seq<Transaction>, txs: seq<Transaction>, k: nat)
    requires UniqueIds(txs + walk) && SpendsComeFirst(walk) && NotNamedYet(walk, txs) && k < |txs|
    ensures Get(FindTable(txs + walk), txs[k].id) == TagAll(txs[k].vout)
  {
    RebuiltAt(walk, txs, k);
    KeptDependsOnRange(txs[k].vout, Indices(SpentBy(txs + walk), txs[k].id), {});
  }

  lemma NewNamesNothing(walk: seq<Transaction>, txs: seq<Transaction>, k: nat)
    requires NotNamedYet(walk, txs) && k < |txs|
    ensures Named(txs, txs[k].id) == []
  {
    var vs := Named(txs, txs[k].id);
    if vs != [] {
      NamedIsSpent(txs, txs[k].id, vs[0]);
      SpentByConcat(txs, walk);
    }
  }

  lemma UpdatedAtOld(walk: seq<Transaction>, txs: seq<Transaction>, k: nat)
    requires UniqueIds(txs + walk) && SpendsComeFirst(walk) && k < |walk|
    ensures Get(UpdateTxs(FindTable(walk), txs, TagAll), walk[k].id) ==
            RemoveAll(Kept(walk[k].vout, Indices(SpentBy(walk), walk[k].id)), Named(txs, walk[k].id))
  {
    UniqueParts(walk, txs);
    assert !Occurs(txs, walk[k].id);
    UpdateTxsAtOld(FindTable(walk), txs, walk[k].id);
    PassFindsUnspent(walk);
    TableWithAt(walk, SpentBy(walk), k);
  }

  lemma UniqueParts(walk: seq<Transaction>, txs: seq<Transaction>)
    requires UniqueIds(txs + walk)
    ensures UniqueIds(walk) && UniqueIds(txs)
    ensures forall i, j :: 0 <= i < |txs| && 0 <= j < |walk| ==> txs[i].id != walk[j].id
  {
    var w := txs + walk;
    forall i, j | 0 <= i < j < |walk| ensures walk[i].id != walk[j].id {
      assert w[|txs| + i] == walk[i] && w[|txs| + j] == walk[j];
    }
    forall i, j | 0 <= i < j < |txs| ensures txs[i].id != txs[j].id {
      assert w[i] == txs[i] && w[j] == txs[j];
    }
    forall i, j | 0 <= i < |txs| && 0 <= j < |walk| ensures txs[i].id != walk[j].id {
      assert w[i] == txs[i] && w[|txs| + j] == walk[j];
    }
  }

  /** The old transactions' entries agree exactly when the block spends highest first. */
  lemma OldEntryAgrees(walk: seq<Transaction>, txs: seq<Transaction>, k: nat)
    requires UniqueIds(txs + walk) && SpendsComeFirst(walk) && NotNamedYet(walk, txs) && SpendsFresh(walk, txs)
    requires k < |walk|
    ensures Get(UpdateTxs(FindTable(walk), txs, TagAll), walk[k].id) == Get(FindTable(txs + walk), walk[k].id) <==>
            HighestFirst(Indices(SpentBy(walk), walk[k].id), Named(txs, walk[k].id))
  {
    UpdatedAtOld(walk, txs, k);
    RebuiltAtOld(walk, txs, k);
    AllInputsExact(walk[k].vout, Indices(SpentBy(walk), walk[k].id), Named(txs, walk[k].id));
  }

  lemma NewEntryAgrees(walk: seq<Transaction>, txs: seq<Transaction>, k: nat)
    requires UniqueIds(txs + walk) && SpendsComeFirst(walk) && NotNamedYet(walk, txs) && k < |txs|
    ensures Get(UpdateTxs(FindTable(walk), txs, TagAll), txs[k].id) == Get(FindTable(txs + walk), txs[k].id)
  {
    UniqueParts(walk, txs);
    NewNamesNothing(walk, txs, k);
    UpdateTxsAtNew(FindTable(walk), txs, k);
    RebuiltAtNew(walk, txs, k);
  }

  lemma UpdatedKeysOccur(walk: seq<Transaction>, txs: seq<Transaction>, id: Bytes)
    requires forall k :: 0 <= k < |txs| ==> txs[k].vout != []
    requires id in UpdateTxs(FindTable(walk), txs, TagAll) || id in FindTable(txs + walk)
    ensures Occurs(txs + walk, id)
  {
    var w := txs + walk;
    if id in FindTable(w) {
      KeysOccur(w, {}, id);
    } else {
      FindTableNoEmpty(walk);
      UpdateTxsKeys(FindTable(walk), txs);
      if id in FindTable(walk) {
        KeysOccur(walk, {}, id);
      }
      OccursInEither(txs, walk, id);
    }
  }

  lemma OccursInEither(a: seq<Transaction>, b: seq<Transaction>, id: Bytes)
    requires Occurs(a, id) || Occurs(b, id)
    ensures Occurs(a + b, id)
  {
    if Occurs(a, id) {
      var k :| 0 <= k < |a| && a[k].id == id;
      assert (a + b)[k].id == id;
    } else {
      var k :| 0 <= k < |b| && b[k].id == id;
      assert (a + b)[|a| + k].id == id;
    }
  }

  /** On tables that keep each output's index, updating with a block and rebuilding from the longer
      chain agree exactly when the block spends every transaction's outputs highest index first. */
  lemma UpdateAgreesExactly(walk: seq<Transaction>, txs: seq<Transaction>)
    requires UniqueIds(txs + walk) && SpendsComeFirst(walk)
    requires NotNamedYet(walk, txs) && SpendsFresh(walk, txs)
    requires forall k :: 0 <= k < |txs| ==> txs[k].vout != []
    ensures UpdateTxs(FindTable(walk), txs, TagAll) == FindTable(txs + walk) <==> SpendsHighestFirst(walk, txs)
  {
    var w, updated, rebuilt := txs + walk, UpdateTxs(FindTable(walk), txs, TagAll), FindTable(txs + walk);
    forall k | 0 <= k < |walk|
      ensures Get(updated, walk[k].id) == Get(rebuilt, walk[k].id) <==>
              HighestFirst(Indices(SpentBy(walk), walk[k].id), Named(txs, walk[k].id))
    {
      OldEntryAgrees(walk, txs, k);
    }
    if SpendsHighestFirst(walk, txs) {
      forall k | 0 <= k < |w| ensures Get(updated, w[k].id) == Get(rebuilt, w[k].id) {
        if k < |txs| {
          NewEntryAgrees(walk, txs, k);
        } else {
          assert w[k] == walk[k - |txs|];
        }
      }
      FindTableNoEmpty(walk);
      UpdateTxsKeys(FindTable(walk), txs);
      FindTableNoEmpty(w);
      forall id | id in updated || id in rebuilt ensures exists k :: 0 <= k < |w| && w[k].id == id {
        UpdatedKeysOccur(walk, txs, id);
      }
      SameTables(w, updated, rebuilt);
    }
  }

  lemma StoredAt(t: Table, u: Table, id: Bytes)
    requires Stored(t) == Stored(u)
    ensures Strip(Get(t, id)) == Strip(Get(u, id))
  {
    assert id in t <==> id in Stored(t);
    assert id in u <==> id in Stored(u);
  }

  /** If the stored tables agree, so does the list of an older transaction whose outputs all differ,
      and then the block spent it highest first. */
  lemma StoredEntryTells(walk: seq<Transaction>, txs: seq<Transaction>, k: nat)
    requires UniqueIds(txs + walk) && SpendsComeFirst(walk) && NotNamedYet(walk, txs) && SpendsFresh(walk, txs)
    requires k < |walk| && Distinct(walk[k].vout)
    requires Stored(UpdateTxs(FindTable(walk), txs, TagAll)) == Stored(FindTable(txs + walk))
    ensures HighestFirst(Indices(SpentBy(walk), walk[k].id), Named(txs, walk[k].id))
  {
    var spent, vs := Indices(SpentBy(walk), walk[k].id), Named(txs, walk[k].id);
    StoredAt(UpdateTxs(FindTable(walk), txs, TagAll), FindTable(txs + walk), walk[k].id);
    UpdatedAtOld(walk, txs, k);
    RebuiltAtOld(walk, txs, k);
    StripRemoveAll(Kept(walk[k].vout, spent), vs);
    AllStoredInputsExact(walk[k].vout, spent, vs);
  }

  /** No two outputs of one transaction are equal. */
  predicate OutputsDiffer(walk: seq<Transaction>) {
    forall k :: 0 <= k < |walk| ==> Distinct(walk[k].vout)
  }

  predicate AllHaveOutputs(txs: seq<Transaction>) {
    forall i :: 0 <= i < |txs| ==> txs[i].vout != []
  }

  lemma {:induction false} UnnamedKeyStays<T>(t: map<Bytes, seq<T>>, vin: seq<TxInput>, id: Bytes)
    requires id in t && NamedBy(vin, id) == []
    ensures id in SpendInputs(t, vin)
  {
    if vin != [] {
      UnnamedKeyStays(t, vin[..|vin| - 1], id);
    }
  }

  /** A transaction that nothing names has an entry after Update, even if it has no outputs. */
  lemma {:induction false} UpdateTxsHasKey<T>(t: map<Bytes, seq<T>>, txs: seq<Transaction>, k: nat,
                                              entries: Outputs -> seq<T>)
    requires k < |txs| && Named(txs, txs[k].id) == []
    ensures txs[k].id in UpdateTxs(t, txs, entries)
  {
    var n := |txs| - 1;
    if k < n {
      UpdateTxsHasKey(t, txs[..n], k, entries);
      if !txs[n].IsCoinbase() {
        UnnamedKeyStays(UpdateTxs(t, txs[..n], entries), txs[n].vin, txs[k].id);
      }
    }
  }

  /** A rebuild stores nothing for it. */
  lemma OutputlessEntryDiffers(walk: seq<Transaction>, txs: seq<Transaction>, k: nat)
    requires UniqueIds(txs + walk) && SpendsComeFirst(walk) && NotNamedYet(walk, txs)
    requires k < |txs| && txs[k].vout == []
    ensures UpdateTxs(Stored(FindTable(walk)), txs, AsStored) != Stored(FindTable(txs + walk))
  {
    NewNamesNothing(walk, txs, k);
    UpdateTxsHasKey(Stored(FindTable(walk)), txs, k, AsStored);
    RebuiltAtNew(walk, txs, k);
    FindTableNoEmpty(txs + walk);
    assert txs[k].id !in FindTable(txs + walk);
  }

  /** Update and Reindex on the stored index: a block whose transactions all have outputs and that
      spends every transaction's outputs highest index first always leaves the index a rebuild would
      store. No block with an output-less transaction does, and where no transaction of the chain has
      two equal outputs no block with another order does. */
  lemma UpdateMatchesReindex(walk: seq<Transaction>, txs: seq<Transaction>)
    requires UniqueIds(txs + walk) && SpendsComeFirst(walk)
    requires NotNamedYet(walk, txs) && SpendsFresh(walk, txs)
    ensures var agree := UpdateTxs(Stored(FindTable(walk)), txs, AsStored) == Stored(FindTable(txs + walk));
            (AllHaveOutputs(txs) && SpendsHighestFirst(walk, txs) ==> agree) && (agree ==> AllHaveOutputs(txs)) &&
            (OutputsDiffer(walk) && agree ==> SpendsHighestFirst(walk, txs))
  {
    StoredUpdateTxs(FindTable(walk), txs);
    if AllHaveOutputs(txs) {
      UpdateAgreesExactly(walk, txs);
    } else {
      var k :| 0 <= k < |txs| && txs[k].vout == [];
      OutputlessEntryDiffers(walk, txs, k);
    }
    if OutputsDiffer(walk) && UpdateTxs(Stored(FindTable(walk)), txs, AsStored) == Stored(FindTable(txs + walk)) {
      forall k | 0 <= k < |walk| ensures HighestFirst(Indices(SpentBy(walk), walk[k].id), Named(txs, walk[k].id)) {
        StoredEntryTells(walk, txs, k);
      }
    }
  }
}
