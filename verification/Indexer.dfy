/** The objects of internal/indexer/store.go and indexer.go, proved against the event fold. */
module Indexer {
  import opened Prelude
  import opened Ledger
  import opened Transactions
  import opened EscrowIndex

  datatype RecentBlock = RecentBlock(height: int, hash: Bytes, txCount: nat, timestamp: int64)

  datatype Metrics = Metrics(blocksIndexed: int, txCount: int, escrowsCount: int, volume: int64)

  const MAX_RECENT: nat := 20

  function Volume(txs: seq<Transaction>): int {
    if txs == [] then 0 else Volume(txs[..|txs| - 1]) + TotalValue(txs[|txs| - 1].vout)
  }

  function ApplyTx(t: EscrowTable, tx: Transaction, height: int): EscrowTable {
    ApplyAll(ApplyAll(t, OutputEvents(tx.id, tx.vout, height)), InputEvents(tx.id, tx.vin))
  }

  function ApplyTxs(t: EscrowTable, txs: seq<Transaction>, height: int): EscrowTable {
    if txs == [] then t else ApplyTx(ApplyTxs(t, txs[..|txs| - 1], height), txs[|txs| - 1], height)
  }

  function Opened(t: EscrowTable, id: Bytes, out: TxOutput, i: nat, height: int): EscrowTable {
    if IsContract(out) then Apply(t, Create(NewRecord(id, i, out, height))) else t
  }

  class IndexStore {
    var escrows: EscrowTable
    var metrics: Metrics
    var recentBlocks: seq<RecentBlock>
    var latestHeight: int

    /** Records sit under their own key, and the escrow counter counts distinct keys. */
    ghost predicate Valid()
      reads this
    {
      metrics.escrowsCount == |escrows| && forall k :: k in escrows ==> RecordKey(escrows[k]) == k
    }

    constructor ()
      ensures Valid() && escrows == map[] && recentBlocks == [] && metrics == Metrics(0, 0, 0, 0)
    {
      escrows, metrics, recentBlocks, latestHeight := map[], Metrics(0, 0, 0, 0), [], 0;
    }

    /** store.go SaveEscrow. */
    method SaveEscrow(escrow: Record)
      requires Valid()
      modifies this`escrows, this`metrics
      ensures Valid() && escrows == old(escrows)[RecordKey(escrow) := escrow]
      ensures metrics == old(metrics).(escrowsCount := |escrows|)
    {
      var key := KeyOf(escrow.txID, escrow.vout);
      if key !in escrows {
        metrics := metrics.(escrowsCount := metrics.escrowsCount + 1);
      }
      escrows := escrows[key := escrow];
    }

    /** store.go GetEscrow. */
    method GetEscrow(txID: Bytes, vout: int) returns (r: Option<Record>)
      ensures r == Look(escrows, KeyOf(txID, vout))
    {
      var key := KeyOf(txID, vout);
      r := if key in escrows then Some(escrows[key]) else None;
    }

    /** store.go GetActiveEscrows: the keys of the pending records, in no particular order. */
    method GetActiveEscrows() returns (active: set<Key>)
      ensures active == set k | k in escrows && escrows[k].status == Pending
    {
      active := {};
      var keys := escrows.Keys;
      while keys != {}
        invariant keys <= escrows.Keys
        invariant active == set k | k in escrows && k !in keys && escrows[k].status == Pending
        decreases keys
      {
        var k :| k in keys;
        if escrows[k].status == Pending {
          active := active + {k};
        }
        keys := keys - {k};
      }
    }

    method SaveBlock(b: RecentBlock)
      modifies this`recentBlocks
      ensures var all := [b] + old(recentBlocks); recentBlocks == if |all| > 20 then all[..20] else all
    {
      recentBlocks := [b] + recentBlocks;
      if |recentBlocks| > MAX_RECENT {
        recentBlocks := recentBlocks[..MAX_RECENT];
      }
    }

    /** The output loop of ProcessBlock. */
    method IndexOutputs(tx: Transaction, height: int, volume: int64) returns (volume': int64)
      requires Valid()
      modifies this`escrows, this`metrics
      ensures Valid() && escrows == ApplyAll(old(escrows), OutputEvents(tx.id, tx.vout, height))
      ensures metrics == old(metrics).(escrowsCount := |escrows|)
      ensures volume' == Wrap64(volume + TotalValue(tx.vout))
    {
      volume' := volume;
      for i := 0 to |tx.vout|
        invariant Valid() && escrows == ApplyAll(old(escrows), OutputEvents(tx.id, tx.vout[..i], height))
        invariant metrics == old(metrics).(escrowsCount := |escrows|)
        invariant volume' == Running(volume, tx.vout[..i])
      {
        RunningStep(volume, tx.vout, i);
        volume' := Plus(volume', tx.vout[i]);
        OutputStep(old(escrows), tx.id, tx.vout, height, i);
        IndexOutput(tx.id, tx.vout[i], i, height);
      }
      RunningWraps(volume, tx.vout);
      assert tx.vout[..|tx.vout|] == tx.vout;
    }

    /** One output of ProcessBlock: a contract output opens an escrow. */
    method IndexOutput(id: Bytes, out: TxOutput, i: nat, height: int)
      requires Valid()
      modifies this`escrows, this`metrics
      ensures Valid() && escrows == Opened(old(escrows), id, out, i, height)
      ensures metrics == old(metrics).(escrowsCount := |escrows|)
    {
      if out.scriptType == ESCROW || out.scriptType == ZKCP {
        SaveEscrow(NewRecord(id, i, out, height));
      }
    }

    /** The input loop of ProcessBlock. */
    method IndexInputs(tx: Transaction)
      requires Valid()
      modifies this`escrows, this`metrics
      ensures Valid() && escrows == ApplyAll(old(escrows), InputEvents(tx.id, tx.vin))
      ensures metrics == old(metrics).(escrowsCount := |escrows|)
    {
      for i := 0 to |tx.vin|
        invariant Valid() && escrows == ApplyAll(old(escrows), InputEvents(tx.id, tx.vin[..i]))
        invariant metrics == old(metrics).(escrowsCount := |escrows|)
      {
        var input := tx.vin[i];
        InputStep(old(escrows), tx.id, tx.vin, i);
        var found := GetEscrow(input.txid, input.vout);
        if found.Some? {
          var escrow := found.value;
          if |input.escrowWitness| > 0 {
            escrow := escrow.(status := Claimed, claimedTxID := tx.id, preimage := input.escrowWitness);
            SaveEscrow(escrow);
          } else if input.isRefund {
            escrow := escrow.(status := Refunded, refundedTxID := tx.id);
            SaveEscrow(escrow);
          }
        }
      }
      assert tx.vin[..|tx.vin|] == tx.vin;
    }

    /** The expiry loop of ProcessBlock. */
    method ExpireDue(height: int)
      requires Valid()
      modifies this`escrows, this`metrics
      ensures Valid() && escrows == Apply(old(escrows), Tick(height))
      ensures metrics == old(metrics).(escrowsCount := |escrows|)
    {
      var active := GetActiveEscrows();
      ghost var before := escrows;
      while active != {}
        invariant Valid() && escrows.Keys == before.Keys
        invariant metrics == old(metrics).(escrowsCount := |escrows|)
        invariant forall k :: k in active ==> k in before && escrows[k] == before[k] && before[k].status == Pending
        invariant forall k :: k in before && k !in active ==> escrows[k] == Expire(before[k], height)
        decreases active
      {
        var k :| k in active;
        var escrow := escrows[k];
        if height >= escrow.timeoutBlock {
          SaveEscrow(escrow.(status := Expired));
        }
        active := active - {k};
      }
    }

    /** indexer.go ProcessBlock. */
    method ProcessBlock(block: Block)
      requires Valid()
      modifies this
      ensures Valid() && escrows == ApplyAll(old(escrows), BlockEvents(block))
      ensures metrics.blocksIndexed == old(metrics.blocksIndexed) + 1
      ensures metrics.txCount == old(metrics.txCount) + |block.txs|
      ensures metrics.volume == Wrap64(old(metrics.volume) + Volume(block.txs))
      ensures latestHeight == block.height
      ensures var newest := RecentBlock(block.height, block.hash, |block.txs|, block.timestamp);
              var all := [newest] + old(recentBlocks);
              recentBlocks == if |all| > 20 then all[..20] else all
    {
      var blockVolume := IndexTransactions(block);
      ApplyTxsIsEvents(old(escrows), block.txs, block.height);
      ApplyAllConcat(old(escrows), TxEvents(block.txs, block.height), [Tick(block.height)]);
      ApplySingle(escrows, Tick(block.height));
      ExpireDue(block.height);
      SaveBlock(RecentBlock(block.height, block.hash, |block.txs|, block.timestamp));
      latestHeight := block.height;
      WrapAbsorbs(Volume(block.txs), metrics.volume);
      metrics := metrics.(blocksIndexed := metrics.blocksIndexed + 1, txCount := metrics.txCount + |block.txs|,
                          volume := Wrap64(metrics.volume + blockVolume));
    }

    /** One transaction of ProcessBlock: its outputs, then its inputs. */
    method IndexTransaction(tx: Transaction, height: int, volume: int64) returns (volume': int64)
      requires Valid()
      modifies this`escrows, this`metrics
      ensures Valid()
      ensures escrows == ApplyTx(old(escrows), tx, height)
      ensures metrics == old(metrics).(escrowsCount := |escrows|)
      ensures volume' == Tallied(volume, tx)
    {
      volume' := IndexOutputs(tx, height, volume);
      IndexInputs(tx);
    }

    /** The transaction loop of ProcessBlock. */
    method IndexTransactions(block: Block) returns (volume: int64)
      requires Valid()
      modifies this`escrows, this`metrics
      ensures Valid() && escrows == ApplyTxs(old(escrows), block.txs, block.height)
      ensures metrics == old(metrics).(escrowsCount := |escrows|)
      ensures volume == Wrap64(Volume(block.txs))
    {
      volume := 0;
      ghost var done: seq<Transaction> := [];
      for i := 0 to |block.txs|
        invariant Valid() && escrows == ApplyTxs(old(escrows), done, block.height)
        invariant metrics == old(metrics).(escrowsCount := |escrows|)
        invariant done == block.txs[..i] && volume == Volume64(done)
      {
        TxStep(old(escrows), done, block.txs[i], block.height);
        Volume64Step(done, block.txs[i]);
        volume := IndexTransaction(block.txs[i], block.height, volume);
        done := done + [block.txs[i]];
        TakeOneMore(block.txs, i);
      }
      Volume64Wraps(block.txs);
      assert block.txs[..|block.txs|] == block.txs;
    }
  }

  lemma ApplySingle(t: EscrowTable, e: Event)
    ensures ApplyAll(t, [e]) == Apply(t, e)
  {
    assert [e][..0] == [];
  }

  lemma ApplyOne(t: EscrowTable, es: seq<Event>, e: Event)
    ensures ApplyAll(t, es + [e]) == Apply(ApplyAll(t, es), e)
  {
    assert (es + [e])[..|es|] == es;
  }

  lemma OutputEventsStep(id: Bytes, outs: seq<TxOutput>, height: int, i: nat)
    requires i < |outs|
    ensures OutputEvents(id, outs[..i + 1], height) ==
            var before := OutputEvents(id, outs[..i], height);
            if IsContract(outs[i]) then before + [Create(NewRecord(id, i, outs[i], height))] else before
  {
    assert outs[..i + 1][..i] == outs[..i];
  }

  lemma OutputStep(t: EscrowTable, id: Bytes, outs: seq<TxOutput>, height: int, i: nat)
    requires i < |outs|
    ensures ApplyAll(t, OutputEvents(id, outs[..i + 1], height)) ==
            Opened(ApplyAll(t, OutputEvents(id, outs[..i], height)), id, outs[i], i, height)
  {
    OutputEventsStep(id, outs, height, i);
    ApplyOne(t, OutputEvents(id, outs[..i], height), Create(NewRecord(id, i, outs[i], height)));
  }

  function Plus(volume: int64, out: TxOutput): int64 {
    Wrap64(volume + out.value)
  }

  function Running(volume: int64, outs: seq<TxOutput>): int64 {
    if outs == [] then volume else Plus(Running(volume, outs[..|outs| - 1]), outs[|outs| - 1])
  }

  lemma RunningStep(volume: int64, outs: seq<TxOutput>, i: nat)
    requires i < |outs|
    ensures Running(volume, outs[..i + 1]) == Plus(Running(volume, outs[..i]), outs[i])
  {
    assert outs[..i + 1][..i] == outs[..i];
  }

  lemma {:induction false} RunningWraps(volume: int64, outs: seq<TxOutput>)
    ensures Running(volume, outs) == Wrap64(volume + TotalValue(outs))
  {
    if outs != [] {
      var n := |outs| - 1;
      RunningWraps(volume, outs[..n]);
      OutputSumStep(outs, n);
      assert outs[..n + 1] == outs;
      WrapAbsorbs(volume + TotalValue(outs[..n]), outs[n].value);
    }
  }

  lemma InputStep(t: EscrowTable, id: Bytes, vin: seq<TxInput>, i: nat)
    requires i < |vin|
    ensures ApplyAll(t, InputEvents(id, vin[..i + 1])) ==
            Apply(ApplyAll(t, InputEvents(id, vin[..i])), Spend(KeyOf(vin[i].txid, vin[i].vout), vin[i], id))
  {
    InputEventsStep(id, vin, i);
    ApplyOne(t, InputEvents(id, vin[..i]), Spend(KeyOf(vin[i].txid, vin[i].vout), vin[i], id));
  }

  lemma InputEventsStep(id: Bytes, vin: seq<TxInput>, i: nat)
    requires i < |vin|
    ensures InputEvents(id, vin[..i + 1]) ==
            InputEvents(id, vin[..i]) + [Spend(KeyOf(vin[i].txid, vin[i].vout), vin[i], id)]
  {
    assert vin[..i + 1][..i] == vin[..i];
  }

  lemma TxStep(t: EscrowTable, txs: seq<Transaction>, tx: Transaction, height: int)
    ensures ApplyTxs(t, txs + [tx], height) == ApplyTx(ApplyTxs(t, txs, height), tx, height)
  {
    assert (txs + [tx])[..|txs|] == txs;
  }

  /** The running total once `tx` is added. */
  function Tallied(volume: int64, tx: Transaction): int64 {
    Wrap64(volume + TotalValue(tx.vout))
  }

  function Volume64(txs: seq<Transaction>): int64 {
    if txs == [] then 0 else Tallied(Volume64(txs[..|txs| - 1]), txs[|txs| - 1])
  }

  lemma Volume64Step(txs: seq<Transaction>, tx: Transaction)
    ensures Volume64(txs + [tx]) == Tallied(Volume64(txs), tx)
  {
    assert (txs + [tx])[..|txs|] == txs;
  }

  lemma {:induction false} Volume64Wraps(txs: seq<Transaction>)
    ensures Volume64(txs) == Wrap64(Volume(txs))
  {
    if txs != [] {
      Volume64Wraps(txs[..|txs| - 1]);
      WrapAbsorbs(Volume(txs[..|txs| - 1]), TotalValue(txs[|txs| - 1].vout));
    }
  }

  lemma {:induction false} ApplyTxsIsEvents(t: EscrowTable, txs: seq<Transaction>, height: int)
    ensures ApplyTxs(t, txs, height) == ApplyAll(t, TxEvents(txs, height))
  {
    if txs != [] {
      var tx := txs[|txs| - 1];
      ApplyTxsIsEvents(t, txs[..|txs| - 1], height);
      var before, outs := TxEvents(txs[..|txs| - 1], height), OutputEvents(tx.id, tx.vout, height);
      ApplyAllConcat(t, before, outs);
      ApplyAllConcat(t, before + outs, InputEvents(tx.id, tx.vin));
    }
  }
}
