/** The escrow index of a mining run names the transactions that settled its escrows. */
module EscrowSettlers {
  import opened Prelude
  import opened Ledger
  import opened Transactions
  import opened Utxo
  import opened Chain
  import opened MinedChain
  import opened KeptIndex
  import opened EscrowIndex
  import opened EscrowRuns

  /** The event is what the index makes of an input of one of `txs`. */
  predicate FromInput(e: EscrowIndex.Event, txs: seq<Transaction>) {
    e.Spend? ==>
      exists tx, i :: tx in txs && 0 <= i < |tx.vin| &&
                      e == Spend(KeyOf(tx.vin[i].txid, tx.vin[i].vout), tx.vin[i], tx.id)
  }

  lemma FromInputOfMore(e: EscrowIndex.Event, txs: seq<Transaction>, more: seq<Transaction>)
    requires FromInput(e, txs) && forall tx :: tx in txs ==> tx in more
    ensures FromInput(e, more)
  {
  }

  lemma {:induction false} InputsFrom(tx: Transaction, n: nat, x: nat)
    requires n <= |tx.vin| && x < |InputEvents(tx.id, tx.vin[..n])|
    ensures FromInput(InputEvents(tx.id, tx.vin[..n])[x], [tx])
  {
    var front := InputEvents(tx.id, tx.vin[..n - 1]);
    assert tx.vin[..n][..n - 1] == tx.vin[..n - 1];
    assert tx in [tx];
    if x < |front| {
      InputsFrom(tx, n - 1, x);
    }
  }

  lemma {:induction false} TxsSpendFrom(txs: seq<Transaction>, height: int, x: nat)
    requires x < |TxEvents(txs, height)|
    ensures FromInput(TxEvents(txs, height)[x], txs)
  {
    var n := |txs| - 1;
    var before, tx := TxEvents(txs[..n], height), txs[n];
    var outs, ins := OutputEvents(tx.id, tx.vout, height), InputEvents(tx.id, tx.vin);
    assert TxEvents(txs, height) == before + outs + ins;
    if x < |before| {
      TxsSpendFrom(txs[..n], height, x);
      FromInputOfMore(before[x], txs[..n], txs);
    } else if x < |before| + |outs| {
      OutputsFrom(tx.id, tx.vout, height, x - |before|);
    } else {
      assert tx.vin[..|tx.vin|] == tx.vin;
      InputsFrom(tx, |tx.vin|, x - |before| - |outs|);
      FromInputOfMore(ins[x - |before| - |outs|], [tx], txs);
    }
  }

  lemma {:induction false} RunSpendsFrom(g: Block, blocks: seq<Block>, x: nat)
    requires x < |ChainEvents(blocks)|
    ensures FromInput(ChainEvents(blocks)[x], Chronicle(g, blocks))
  {
    var n := |blocks| - 1;
    var front, b := ChainEvents(blocks[..n]), blocks[n];
    if x < |front| {
      RunSpendsFrom(g, blocks[..n], x);
      FromInputOfMore(front[x], Chronicle(g, blocks[..n]), Chronicle(g, blocks));
    } else if x - |front| < |TxEvents(b.txs, b.height)| {
      TxsSpendFrom(b.txs, b.height, x - |front|);
      FromInputOfMore(TxEvents(b.txs, b.height)[x - |front|], b.txs, Chronicle(g, blocks));
    }
  }

  /** Event `x` spends under key `k` and gives the record its settler. */
  predicate SettlesAs(r: Record, k: Key, e: EscrowIndex.Event) {
    e.Spend? && e.key == k &&
    (r.status == Claimed ==>
       |e.input.escrowWitness| > 0 && r.claimedTxID == e.spender && r.preimage == e.input.escrowWitness) &&
    (r.status == Refunded ==> e.input.isRefund && r.refundedTxID == e.spender)
  }

  /** A claimed or refunded record was made so by an event. */
  lemma {:induction false} SomeEventSettled(k: Key, es: Events)
    requires CreatesPending(es)
    ensures var o := ApplyAllAt(k, None, es);
            o.Some? && (o.value.status == Claimed || o.value.status == Refunded) ==>
              exists x :: 0 <= x < |es| && SettlesAs(o.value, k, es[x])
  {
    if es != [] {
      var n := |es| - 1;
      var before, after := ApplyAllAt(k, None, es[..n]), ApplyAllAt(k, None, es);
      SomeEventSettled(k, es[..n]);
      if after.Some? && (after.value.status == Claimed || after.value.status == Refunded) {
        if before == after {
          var x :| 0 <= x < n && SettlesAs(after.value, k, es[..n][x]);
          assert SettlesAs(after.value, k, es[x]);
        } else {
          assert SettlesAs(after.value, k, es[n]);
        }
      }
    }
  }

  lemma {:induction false} InNamersIn(vin: seq<TxInput>, p: Outpoint, i: nat)
    requires i < |vin| && OutpointOf(vin[i]) == p
    ensures vin[i] in NamersIn(vin, p)
  {
    if i < |vin| - 1 {
      InNamersIn(vin[..|vin| - 1], p, i);
    }
  }

  lemma {:induction false} InNamers(txs: seq<Transaction>, p: Outpoint, tx: Transaction, i: nat)
    requires tx in txs && !tx.IsCoinbase() && i < |tx.vin| && OutpointOf(tx.vin[i]) == p
    ensures tx.vin[i] in Namers(txs, p)
  {
    var n := |txs| - 1;
    if tx == txs[n] {
      InNamersIn(tx.vin, p, i);
    } else {
      InNamers(txs[..n], p, tx, i);
    }
  }

  /** `id` is the ID of a transaction of `txs` that has the input. */
  predicate SpentIn(txs: seq<Transaction>, input: TxInput, id: Bytes) {
    exists tx :: tx in txs && input in tx.vin && tx.id == id
  }

  /** The input behind a settling event is the one that names the output. */
  lemma SpenderNames(c: Suite, g: Block, blocks: seq<Block>, a: nat, v: nat, e: EscrowIndex.Event)
    requires OnceRun(c, g, blocks) && a < |Chronicle(g, blocks)|
    requires var tx := Chronicle(g, blocks)[a]; v < |tx.vout| && OwnKey(tx, v)
    requires e.Spend? && e.key == KeyOf(Chronicle(g, blocks)[a].id, v) && FromInput(e, Chronicle(g, blocks))
    ensures var all := Chronicle(g, blocks);
            e.input in Namers(all, Outpoint(all[a].id, v)) && SpentIn(all, e.input, e.spender)
  {
    var all, walk := Chronicle(g, blocks), ChainTxs(After(g, blocks));
    var tx, i :| tx in all && 0 <= i < |tx.vin| &&
                 e == Spend(KeyOf(tx.vin[i].txid, tx.vin[i].vout), tx.vin[i], tx.id);
    var j :| 0 <= j < |all| && all[j] == tx;
    RunHistory(c, g, blocks);
    HistoryReadable(all, walk, a, v);
    assert KeyMatches(all[j], KeyOf(all[a].id, v), Outpoint(all[a].id, v));
    InNamers(all, Outpoint(all[a].id, v), tx, i);
  }
  /** The event that settled a record. */
  lemma SettlerOf(c: Suite, g: Block, blocks: seq<Block>, a: nat, v: nat, r: Record) returns (e: EscrowIndex.Event)
    requires OnceRun(c, g, blocks) && a < |Chronicle(g, blocks)|
    requires var tx := Chronicle(g, blocks)[a]; v < |tx.vout| && OwnKey(tx, v)
    requires Look(Process(map[], blocks), KeyOf(Chronicle(g, blocks)[a].id, v)) == Some(r)
    requires r.status == Claimed || r.status == Refunded
    ensures var all := Chronicle(g, blocks);
            SettlesAs(r, KeyOf(all[a].id, v), e) && e.input in Namers(all, Outpoint(all[a].id, v)) &&
            SpentIn(all, e.input, e.spender)
  {
    var es, k := ChainEvents(blocks), KeyOf(Chronicle(g, blocks)[a].id, v);
    EachKeyAlone(map[], es, k);
    ChainPending(blocks);
    SomeEventSettled(k, es);
    var x :| 0 <= x < |es| && SettlesAs(r, k, es[x]);
    e := es[x];
    RunSpendsFrom(g, blocks, x);
    SpenderNames(c, g, blocks, a, v, e);
  }

  lemma OnlyOne(inputs: seq<TxInput>, input: TxInput)
    requires input in inputs && |inputs| <= 1
    ensures inputs == [input]
  {
  }

  /** Under the conditions of the agreement with the ledger: a claimed record shows the witness of
      the one input that names the output and the ID of the transaction that has it, and a refunded
      record the ID of the transaction that has the refund. */
  lemma RecordNamesSpender(c: Suite, g: Block, blocks: seq<Block>, a: nat, v: nat)
    requires OnceRun(c, g, blocks) && a < |Chronicle(g, blocks)|
    requires var tx := Chronicle(g, blocks)[a]; v < |tx.vout| && IsContract(tx.vout[v]) && OwnKey(tx, v)
    ensures var all := Chronicle(g, blocks);
            var namers := Namers(all, Outpoint(all[a].id, v));
            var o := Look(Process(map[], blocks), KeyOf(all[a].id, v));
            o.Some? &&
            (o.value.status == Claimed ==>
               |namers| == 1 && o.value.preimage == namers[0].escrowWitness != [] &&
               SpentIn(all, namers[0], o.value.claimedTxID)) &&
            (o.value.status == Refunded ==>
               |namers| == 1 && namers[0].isRefund && SpentIn(all, namers[0], o.value.refundedTxID))
  {
    var all := Chronicle(g, blocks);
    var n := RecordAfterRun(c, g, blocks, a, v);
    var r := Look(Process(map[], blocks), KeyOf(all[a].id, v)).value;
    if r.status == Claimed || r.status == Refunded {
      var e := SettlerOf(c, g, blocks, a, v, r);
      OnlyOne(Namers(all, Outpoint(all[a].id, v)), e.input);
    }
  }
}
