/** What is unspent: the single pass of Blockchain.FindUTXO (internal/core/blockchain.go), as a
    function of the transactions in the order the pass visits them. */
module Utxo {
  import opened Prelude
  import opened Ledger

  datatype Outpoint = Outpoint(txid: Bytes, vout: int)

  /** An output with its position in the transaction that made it. The stored tables hold
      only `out`; the index is what a stored list position may no longer equal. */
  datatype Tagged = Tagged(index: int, out: TxOutput)

  type Outputs = seq<TxOutput>
  type Table = map<Bytes, seq<Tagged>>
  type StoredTable = map<Bytes, Outputs>

  function Strip(ts: seq<Tagged>): (outs: Outputs)
    ensures |outs| == |ts|
    ensures forall i :: 0 <= i < |ts| ==> outs[i] == ts[i].out
  {
    seq(|ts|, i requires 0 <= i < |ts| => ts[i].out)
  }

  function Stored(t: Table): StoredTable {
    map id | id in t :: Strip(t[id])
  }

  function Get(t: Table, id: Bytes): seq<Tagged> {
    if id in t then t[id] else []
  }

  // ---------- Spent and kept outputs ----------

  function InputOutpoints(vin: seq<TxInput>): (s: set<Outpoint>)
    ensures forall i :: 0 <= i < |vin| ==> Outpoint(vin[i].txid, vin[i].vout) in s
  {
    set i | 0 <= i < |vin| :: Outpoint(vin[i].txid, vin[i].vout)
  }

  /** The outpoints a transaction names; a coinbase names none. */
  function Spends(tx: Transaction): set<Outpoint> {
    if tx.IsCoinbase() then {} else InputOutpoints(tx.vin)
  }

  function SpentBy(txs: seq<Transaction>): set<Outpoint> {
    if txs == [] then {} else SpentBy(txs[..|txs| - 1]) + Spends(txs[|txs| - 1])
  }

  /** The spent indices of one transaction. */
  function Indices(spent: set<Outpoint>, id: Bytes): (s: set<int>)
    ensures forall i :: i in s <==> Outpoint(id, i) in spent
  {
    set p | p in spent && p.txid == id :: p.vout
  }

  /** The outputs whose index is not in `spent`, in order. */
  function Kept(outs: Outputs, spent: set<int>): (ts: seq<Tagged>)
    ensures |ts| <= |outs|
  {
    if outs == [] then []
    else
      var n := |outs| - 1;
      Kept(outs[..n], spent) + if n in spent then [] else [Tagged(n, outs[n])]
  }

  predicate Increasing(ts: seq<Tagged>) {
    (forall i :: 0 <= i < |ts| ==> ts[i].index >= 0) &&
    (forall i, j :: 0 <= i < j < |ts| ==> ts[i].index < ts[j].index)
  }

  /** `Kept` is exactly the unspent outputs, each with its own index, in index order. */
  lemma {:induction false} KeptIsExact(outs: Outputs, spent: set<int>)
    ensures Increasing(Kept(outs, spent))
    ensures forall t :: t in Kept(outs, spent) <==>
              0 <= t.index < |outs| && t.index !in spent && t.out == outs[t.index]
  {
    if outs != [] {
      var n := |outs| - 1;
      KeptIsExact(outs[..n], spent);
      var front := Kept(outs[..n], spent);
      assert forall i :: 0 <= i < |front| ==> front[i] in front;
    }
  }

  lemma {:induction false} KeptAll(outs: Outputs, spent: set<int>)
    requires forall i :: 0 <= i < |outs| ==> i !in spent
    ensures |Kept(outs, spent)| == |outs|
    ensures Strip(Kept(outs, spent)) == outs
  {
    if outs != [] {
      KeptAll(outs[..|outs| - 1], spent);
      assert outs == outs[..|outs| - 1] + [outs[|outs| - 1]];
    }
  }

  lemma {:induction false} KeptDependsOnRange(outs: Outputs, s: set<int>, t: set<int>)
    requires forall i :: 0 <= i < |outs| ==> (i in s <==> i in t)
    ensures Kept(outs, s) == Kept(outs, t)
  {
    if outs != [] {
      KeptDependsOnRange(outs[..|outs| - 1], s, t);
    }
  }

  /** Spending more keeps less, and strictly less when it hits an unspent output. */
  lemma {:induction false} KeptShrinks(outs: Outputs, s: set<int>, t: set<int>)
    requires s <= t
    ensures |Kept(outs, t)| <= |Kept(outs, s)|
    ensures |Kept(outs, t)| == |Kept(outs, s)| <==> forall i :: 0 <= i < |outs| && i in t ==> i in s
  {
    if outs != [] {
      KeptShrinks(outs[..|outs| - 1], s, t);
    }
  }

  // ---------- The pass of FindUTXO ----------

  function AddKept(table: Table, id: Bytes, kept: seq<Tagged>): Table {
    if kept == [] then table else table[id := Get(table, id) + kept]
  }

  /** What the pass has collected after visiting `walk`: each transaction is filtered by the
      inputs of the transactions visited before it. */
  function FindTable(walk: seq<Transaction>): Table {
    if walk == [] then map[]
    else
      var n := |walk| - 1;
      AddKept(FindTable(walk[..n]), walk[n].id, Kept(walk[n].vout, Indices(SpentBy(walk[..n]), walk[n].id)))
  }

  /** The same collection filtered by one fixed set of outpoints. */
  function TableWith(walk: seq<Transaction>, spent: set<Outpoint>): Table {
    if walk == [] then map[]
    else
      var n := |walk| - 1;
      AddKept(TableWith(walk[..n], spent), walk[n].id, Kept(walk[n].vout, Indices(spent, walk[n].id)))
  }

  /** The true unspent outputs of a chain: everything no input anywhere on it names. */
  function TrueTable(walk: seq<Transaction>): Table {
    TableWith(walk, SpentBy(walk))
  }

  predicate UniqueIds(walk: seq<Transaction>) {
    forall i, j :: 0 <= i < j < |walk| ==> walk[i].id != walk[j].id
  }

  predicate NoEmptyEntries(t: Table) {
    forall id :: id in t ==> t[id] != []
  }

  lemma AddKeptElsewhere(t: Table, id: Bytes, kept: seq<Tagged>, id': Bytes)
    requires id' != id
    ensures Get(AddKept(t, id, kept), id') == Get(t, id')
  {
  }

  lemma AddKeptFresh(t: Table, id: Bytes, kept: seq<Tagged>)
    requires id !in t
    ensures Get(AddKept(t, id, kept), id) == kept
  {
    assert [] + kept == kept;
  }

  lemma {:induction false} TableWithAt(walk: seq<Transaction>, spent: set<Outpoint>, k: nat)
    requires UniqueIds(walk) && k < |walk|
    ensures Get(TableWith(walk, spent), walk[k].id) == Kept(walk[k].vout, Indices(spent, walk[k].id))
  {
    var n := |walk| - 1;
    var front, kept := TableWith(walk[..n], spent), Kept(walk[n].vout, Indices(spent, walk[n].id));
    if k < n {
      TableWithAt(walk[..n], spent, k);
      AddKeptElsewhere(front, walk[n].id, kept, walk[k].id);
    } else {
      TableWithOutside(walk[..n], spent, walk[n].id);
      AddKeptFresh(front, walk[n].id, kept);
    }
  }

  lemma {:induction false} TableWithOutside(walk: seq<Transaction>, spent: set<Outpoint>, id: Bytes)
    requires forall i :: 0 <= i < |walk| ==> walk[i].id != id
    ensures id !in TableWith(walk, spent)
  {
    if walk != [] {
      TableWithOutside(walk[..|walk| - 1], spent, id);
    }
  }

  lemma {:induction false} TableWithNoEmpty(walk: seq<Transaction>, spent: set<Outpoint>)
    ensures NoEmptyEntries(TableWith(walk, spent))
  {
    if walk != [] {
      TableWithNoEmpty(walk[..|walk| - 1], spent);
    }
  }

  lemma FindTableUnfold(walk: seq<Transaction>, n: nat)
    requires n + 1 == |walk|
    ensures FindTable(walk) ==
            AddKept(FindTable(walk[..n]), walk[n].id, Kept(walk[n].vout, Indices(SpentBy(walk[..n]), walk[n].id)))
  {
  }

  lemma {:induction false} FindTableAt(walk: seq<Transaction>, k: nat)
    requires UniqueIds(walk) && k < |walk|
    ensures Get(FindTable(walk), walk[k].id) == Kept(walk[k].vout, Indices(SpentBy(walk[..k]), walk[k].id))
  {
    var n := |walk| - 1;
    FindTableUnfold(walk, n);
    if k < n {
      var shorter := walk[..n];
      assert shorter[..k] == walk[..k] && shorter[k] == walk[k];
      FindTableAt(shorter, k);
    } else {
      FindTableOutside(walk[..n], walk[n].id);
      AddKeptFresh(FindTable(walk[..n]), walk[n].id, Kept(walk[n].vout, Indices(SpentBy(walk[..n]), walk[n].id)));
    }
  }

  lemma {:induction false} FindTableOutside(walk: seq<Transaction>, id: Bytes)
    requires forall i :: 0 <= i < |walk| ==> walk[i].id != id
    ensures id !in FindTable(walk)
  {
    if walk != [] {
      FindTableOutside(walk[..|walk| - 1], id);
    }
  }

  lemma {:induction false} FindTableNoEmpty(walk: seq<Transaction>)
    ensures NoEmptyEntries(FindTable(walk))
  {
    if walk != [] {
      FindTableNoEmpty(walk[..|walk| - 1]);
    }
  }

  /** Every output that is spent at all is named by a transaction visited before its own. */
  predicate SpendsComeFirst(walk: seq<Transaction>) {
    forall k, i :: 0 <= k < |walk| && 0 <= i < |walk[k].vout| && Outpoint(walk[k].id, i) in SpentBy(walk) ==>
      Outpoint(walk[k].id, i) in SpentBy(walk[..k])
  }

  lemma {:induction false} SpentByMonotone(walk: seq<Transaction>, k: nat)
    requires k <= |walk|
    ensures SpentBy(walk[..k]) <= SpentBy(walk)
  {
    if k < |walk| {
      SpentByMonotone(walk[..|walk| - 1], k);
      assert walk[..|walk| - 1][..k] == walk[..k];
    } else {
      assert walk[..k] == walk;
    }
  }

  /** Tables without empty entries are equal when they agree at every transaction. */
  lemma SameTables(walk: seq<Transaction>, a: Table, b: Table)
    requires NoEmptyEntries(a) && NoEmptyEntries(b)
    requires forall id :: id in a || id in b ==> exists k :: 0 <= k < |walk| && walk[k].id == id
    requires forall k :: 0 <= k < |walk| ==> Get(a, walk[k].id) == Get(b, walk[k].id)
    ensures a == b
  {
    forall id | id in a || id in b ensures id in a && id in b && a[id] == b[id] {
      var k :| 0 <= k < |walk| && walk[k].id == id;
      assert Get(a, walk[k].id) == Get(b, walk[k].id);
    }
  }

  lemma KeysOccur(walk: seq<Transaction>, spent: set<Outpoint>, id: Bytes)
    requires id in FindTable(walk) || id in TableWith(walk, spent)
    ensures exists k :: 0 <= k < |walk| && walk[k].id == id
  {
    if forall k :: 0 <= k < |walk| ==> walk[k].id != id {
      FindTableOutside(walk, id);
      TableWithOutside(walk, spent, id);
    }
  }

  lemma PassFindsUnspent(walk: seq<Transaction>)
    requires UniqueIds(walk) && SpendsComeFirst(walk)
    ensures FindTable(walk) == TrueTable(walk)
  {
    var spent := SpentBy(walk);
    forall k | 0 <= k < |walk| ensures Get(FindTable(walk), walk[k].id) == Get(TrueTable(walk), walk[k].id) {
      FindTableAt(walk, k);
      TableWithAt(walk, spent, k);
      SpentByMonotone(walk, k);
      KeptDependsOnRange(walk[k].vout, Indices(SpentBy(walk[..k]), walk[k].id), Indices(spent, walk[k].id));
    }
    FindTableNoEmpty(walk);
    TableWithNoEmpty(walk, spent);
    forall id | id in FindTable(walk) || id in TrueTable(walk)
      ensures exists k :: 0 <= k < |walk| && walk[k].id == id
    {
      KeysOccur(walk, spent, id);
    }
    SameTables(walk, FindTable(walk), TrueTable(walk));
  }

  lemma StoredLength(t: Table, id: Bytes)
    ensures |if id in Stored(t) then Stored(t)[id] else []| == |Get(t, id)|
  {
  }

  /** With unique IDs, the stored result of the pass is the true unspent table exactly when
      every spend is visited before the output it spends. */
  lemma PassIsExact(walk: seq<Transaction>)
    requires UniqueIds(walk)
    ensures Stored(FindTable(walk)) == Stored(TrueTable(walk)) <==> SpendsComeFirst(walk)
  {
    if SpendsComeFirst(walk) {
      PassFindsUnspent(walk);
    } else {
      var k, i :| 0 <= k < |walk| && 0 <= i < |walk[k].vout| && Outpoint(walk[k].id, i) in SpentBy(walk)
                  && Outpoint(walk[k].id, i) !in SpentBy(walk[..k]);
      FindTableAt(walk, k);
      TableWithAt(walk, SpentBy(walk), k);
      SpentByMonotone(walk, k);
      KeptShrinks(walk[k].vout, Indices(SpentBy(walk[..k]), walk[k].id), Indices(SpentBy(walk), walk[k].id));
      StoredLength(FindTable(walk), walk[k].id);
      StoredLength(TrueTable(walk), walk[k].id);
    }
  }
}
