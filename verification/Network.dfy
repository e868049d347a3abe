/** The handlers of internal/network/server.go as an object: block download and the mempool. */
module Network {
  import opened Prelude
  import opened Ledger
  import opened Chain
  import opened Transactions
  import opened Sync
  import opened Node
  import opened MiningLoop
  import opened MinedChain
  import Builders
  import ProofOfWork
  import Utxo

  class Server {
    const bc: Blockchain
    const utxoSet: UtxoSet
    var blocksInTransit: seq<Bytes>
    var mempool: Mempool

    constructor (bc: Blockchain, utxoSet: UtxoSet)
      requires utxoSet.bc == bc
      ensures this.bc == bc && this.utxoSet == utxoSet && mempool == map[] && blocksInTransit == []
    {
      this.bc, this.utxoSet := bc, utxoSet;
      blocksInTransit, mempool := [], map[];
    }

    ghost function State(): NodeState
      reads this, bc, bc.db
    {
      NodeState(bc.State(), blocksInTransit, bc.db.utxo)
    }

    /** server.go handleInv, for a block inventory. */
    method HandleInv(items: seq<Bytes>) returns (request: Option<Bytes>)
      modifies this`blocksInTransit
      ensures Reaction(State(), request) == Sync.HandleInv(old(State()), items)
    {
      if |items| == 0 {
        return None;
      }
      var blockHash := items[0];
      var newInTransit: seq<Bytes> := [];
      for i := 0 to |items|
        invariant newInTransit == Without(items[..i], blockHash)
      {
        assert items[..i + 1][..i] == items[..i];
        if items[i] != blockHash {
          newInTransit := newInTransit + [items[i]];
        }
      }
      assert items[..|items|] == items;
      blocksInTransit := newInTransit;
      request := Some(blockHash);
    }

    /** server.go handleTx: pools the transaction unverified; the first known node relays it, any
        other goes on to mine. */
    method HandleTx(c: Suite, tx: Transaction, firstNode: bool, miner: Bytes, peers: nat, rounds: nat -> Round)
      returns (end: LoopEnd, blocks: seq<Block>)
      requires utxoSet.bc == bc && KeyedById(mempool)
      requires Ends(bc.db.blocks, bc.tip) && Ends(bc.db.blocks, bc.db.tip)
      modifies this, bc`tip, bc.db
      ensures firstNode ==> State() == old(State()) && mempool == old(mempool)[tx.id := tx] && blocks == []
      ensures !firstNode ==>
                RoundsOk(c, miner, rounds, old(bc.State()), old(mempool)[tx.id := tx], blocks) &&
                bc.State() == StateAfter(old(bc.State()), blocks) &&
                Stops(c, miner, rounds(|blocks|), |miner| > 0 && peers > 0, bc.State(), mempool, end) &&
                (end != Diverged ==> mempool == PoolAfter(old(mempool)[tx.id := tx], blocks) && KeyedById(mempool))
    {
      mempool := mempool[tx.id := tx];
      if firstNode {
        return Waiting, [];
      }
      end, blocks := Mine(c, miner, peers, rounds);
    }

    /** The loop that drops a block's transactions from the mempool. */
    method DropMined(txs: seq<Transaction>)
      modifies this`mempool
      ensures mempool == old(mempool) - IdsOf(txs)
    {
      for i := 0 to |txs|
        invariant mempool == old(mempool) - IdsOf(txs[..i])
      {
        IdsStep(txs, i);
        mempool := mempool - {txs[i].id};
      }
      assert txs[..|txs|] == txs;
    }

    /** server.go handleBlock. A difficulty above 256 bits panics; after the last queued block the
        walk from the tip must end, or the rebuild of the index would not. */
    method HandleBlock(c: Suite, b: Block) returns (request: Option<Bytes>, panicked: bool)
      requires utxoSet.bc == bc
      requires blocksInTransit == [] && AddSucceeds(c, bc.State(), b) ==>
                 Ends(AddBlock(c, bc.State(), b).blocks, AddBlock(c, bc.State(), b).tip)
      modifies this, bc`tip, bc.db
      ensures panicked <==> AddPanics(old(bc.State()), b)
      ensures Reaction(State(), request) == Sync.HandleBlock(c, old(State()), b)
      ensures mempool == if AddSucceeds(c, old(bc.State()), b) then old(mempool) - IdsOf(b.txs) else old(mempool)
    {
      var r := bc.AddBlock(c, b);
      panicked := r.AddCrash?;
      if !r.AddOk? {
        return None, panicked;
      }
      DropMined(b.txs);
      if |blocksInTransit| > 0 {
        request := Some(blocksInTransit[0]);
        blocksInTransit := blocksInTransit[1..];
      } else {
        utxoSet.Reindex();
        request := None;
      }
    }

    /** server.go handleGetBlocks: the inventory sent in reply. */
    method HandleGetBlocks() returns (items: seq<Bytes>)
      requires Ends(bc.db.blocks, bc.tip)
      ensures items == Hashes(Walk(bc.db.blocks, bc.tip))
    {
      var bs := bc.Blocks();
      items := [];
      for i := 0 to |bs|
        invariant items == Hashes(bs[..i])
      {
        items := items + [bs[i].hash];
      }
      assert bs[..|bs|] == bs;
    }

    /** The loop of handleTx that verifies the pool, in the map's arbitrary order. */
    method ValidTransactions(c: Suite) returns (txs: seq<Transaction>, panicked: bool)
      requires KeyedById(mempool) && Ends(bc.db.blocks, bc.tip)
      ensures panicked <==> AnyCrash(c, bc.State(), mempool)
      ensures !panicked ==> Assembled(c, bc.State(), mempool, txs)
    {
      txs := [];
      var keys := mempool.Keys;
      ghost var s := bc.State();
      while keys != {}
        invariant keys <= mempool.Keys && Distinct(txs)
        invariant forall id :: id in mempool && id !in keys ==> VerifyTransaction(c, s, mempool[id]) != Judged(Crashed)
        invariant forall tx :: tx in txs <==>
                    Pooled(mempool, tx) && tx.id !in keys && VerifyTransaction(c, s, tx) == Judged(Accepted)
        decreases keys
      {
        var id :| id in keys;
        var v := bc.VerifyTransaction(c, mempool[id]);
        if v == Judged(Crashed) {
          return txs, true;
        }
        if v == Judged(Accepted) {
          assert mempool[id] !in txs;
          txs := txs + [mempool[id]];
        }
        keys := keys - {id};
      }
      panicked := false;
    }

    /** One round of the mining loop in server.go handleTx, with at least two pooled transactions,
        a miner and a peer. */
    method MineRound(c: Suite, miner: Bytes, round: Round) returns (r: RoundResult)
      requires utxoSet.bc == bc && KeyedById(mempool) && |mempool| >= 2
      requires Ends(bc.db.blocks, bc.tip) && Ends(bc.db.blocks, bc.db.tip)
      modifies this, bc`tip, bc.db
      ensures r.Ended? ==> State() == old(State()) && mempool == old(mempool) &&
                           r.end != Diverged && Stops(c, miner, round, true, bc.State(), mempool, r.end)
      ensures !r.Ended? ==> RoundOk(c, miner, round, old(bc.State()), old(mempool), r.block) &&
                            bc.State() == SaveAsTip(old(bc.State()), r.block)
      ensures r.Mined? ==> Ends(bc.db.blocks, bc.tip) && mempool == old(mempool) - IdsOf(r.block.txs) &&
                           bc.db.utxo == Utxo.Stored(Utxo.FindTable(ChainTxs(bc.State())))
      ensures r.Stuck? ==> !Ends(bc.db.blocks, bc.tip)
    {
      var txs, panicked := ValidTransactions(c);
      if panicked {
        return Ended(Panicked);
      }
      SomeAssembled(c, bc.State(), mempool, txs);
      if |txs| == 0 {
        return Ended(NothingValid);
      }
      r := MineAssembled(c, miner, round, txs);
    }

    /** The round's second half: add the coinbase, mine, rebuild the index and clear the pool. */
    method MineAssembled(c: Suite, miner: Bytes, round: Round, txs: seq<Transaction>) returns (r: RoundResult)
      requires utxoSet.bc == bc && |mempool| >= 2
      requires Ends(bc.db.blocks, bc.tip) && Ends(bc.db.blocks, bc.db.tip)
      requires !AnyCrash(c, bc.State(), mempool) && AnyAccepted(c, bc.State(), mempool)
      requires |txs| > 0 && Assembled(c, bc.State(), mempool, txs)
      modifies this, bc`tip, bc.db
      ensures r.Ended? ==> State() == old(State()) && mempool == old(mempool) &&
                           r.end != Diverged && Stops(c, miner, round, true, bc.State(), mempool, r.end)
      ensures !r.Ended? ==> RoundOk(c, miner, round, old(bc.State()), old(mempool), r.block) &&
                            bc.State() == SaveAsTip(old(bc.State()), r.block)
      ensures r.Mined? ==> Ends(bc.db.blocks, bc.tip) && mempool == old(mempool) - IdsOf(r.block.txs) &&
                           bc.db.utxo == Utxo.Stored(Utxo.FindTable(ChainTxs(bc.State())))
      ensures r.Stuck? ==> !Ends(bc.db.blocks, bc.tip)
    {
      var cbTx := Builders.NewCoinbaseTX(c, miner, [], round.drawn);
      if cbTx.None? {
        return Ended(Panicked);
      }
      var all := txs + [cbTx.value];
      var mined := MineAll(c, miner, round, txs, cbTx.value);
      if mined.MineCrash? {
        return Ended(Panicked);
      }
      if mined.MineError? {
        return Ended(NotMined);
      }
      // Reindex walks from the new tip; where that walk goes round it never returns.
      if !Ends(bc.db.blocks, bc.tip) {
        return Stuck(mined.block);
      }
      utxoSet.Reindex();
      DropMined(all);
      r := Mined(mined.block);
    }

    /** MineBlock on what the loop has just verified in the same state. */
    method MineAll(c: Suite, miner: Bytes, round: Round, txs: seq<Transaction>, cbTx: Transaction)
      returns (r: MineResult)
      requires Ends(bc.db.blocks, bc.tip) && Ends(bc.db.blocks, bc.db.tip)
      requires !AnyCrash(c, bc.State(), mempool)
      requires |txs| > 0 && Assembled(c, bc.State(), mempool, txs)
      requires Some(cbTx) == Builders.NewCoinbaseTX(c, miner, [], round.drawn)
      modifies bc`tip, bc.db`blocks, bc.db`tip
      ensures r.MineOk? ==>
                r.block.txs == txs + [cbTx] && RoundOk(c, miner, round, old(bc.State()), mempool, r.block) &&
                bc.State() == SaveAsTip(old(bc.State()), r.block)
      ensures !r.MineOk? ==> bc.State() == old(bc.State())
      ensures r.MineCrash? ==> CannotMine(miner, bc.State())
      ensures r.MineError? && Rooted(bc.db.blocks) && Held(bc.db.blocks, bc.db.tip) ==>
                Interrupted(round.cancelled) && !CannotMine(miner, bc.State())
    {
      AllPass(c, bc.State(), mempool, txs, cbTx);
      AnchorIsReached(bc.db.blocks, bc.db.tip);
      r := bc.MineBlock(c, txs + [cbTx], round.now, round.cancelled);
      assert (txs + [cbTx])[..|txs|] == txs;
      if r.MineError? && Rooted(bc.db.blocks) && Held(bc.db.blocks, bc.db.tip) {
        ghost var n :| ProofOfWork.StopsAt(c, NextDraft(bc.State(), txs + [cbTx], round.now), round.cancelled, n);
      }
    }

    /** The mining loop of server.go handleTx. `rounds(r)` is what round `r` takes from outside; the
        blocks are those it mines and announces. */
    method Mine(c: Suite, miner: Bytes, peers: nat, rounds: nat -> Round) returns (end: LoopEnd, blocks: seq<Block>)
      requires utxoSet.bc == bc && KeyedById(mempool)
      requires Ends(bc.db.blocks, bc.tip) && Ends(bc.db.blocks, bc.db.tip)
      modifies this, bc`tip, bc.db
      ensures RoundsOk(c, miner, rounds, old(bc.State()), old(mempool), blocks)
      ensures bc.State() == StateAfter(old(bc.State()), blocks)
      ensures end != Diverged ==> mempool == PoolAfter(old(mempool), blocks) && KeyedById(mempool)
      ensures Stops(c, miner, rounds(|blocks|), |miner| > 0 && peers > 0, bc.State(), mempool, end)
      ensures end != Diverged && blocks != [] ==> bc.db.utxo == Utxo.Stored(Utxo.FindTable(ChainTxs(bc.State())))
    {
      blocks := [];
      ghost var s0, pool0 := bc.State(), mempool;
      while true
        invariant Ends(bc.db.blocks, bc.tip) && Ends(bc.db.blocks, bc.db.tip) && KeyedById(mempool)
        invariant RoundsOk(c, miner, rounds, s0, pool0, blocks)
        invariant bc.State() == StateAfter(s0, blocks) && mempool == PoolAfter(pool0, blocks)
        invariant blocks != [] ==> bc.db.utxo == Utxo.Stored(Utxo.FindTable(ChainTxs(bc.State())))
        decreases |mempool|
      {
        if |mempool| < 2 || |miner| == 0 || peers == 0 {
          return Waiting, blocks;
        }
        ghost var s, pool := bc.State(), mempool;
        var round := MineRound(c, miner, rounds(|blocks|));
        if round.Ended? {
          return round.end, blocks;
        }
        OneMoreRound(c, miner, rounds, s0, pool0, blocks, round.block);
        PoolAfterOne(pool0, blocks, round.block);
        RoundShrinksPool(c, miner, rounds(|blocks|), s, pool, round.block);
        StateAfterOne(s0, blocks, round.block);
        blocks := blocks + [round.block];
        if round.Stuck? {
          return Diverged, blocks;
        }
      }
    }
  }

  datatype RoundResult = Ended(end: LoopEnd) | Mined(block: Block) | Stuck(block: Block)

  lemma SomeAssembled(c: Suite, s: State, pool: Mempool, txs: seq<Transaction>)
    requires KeyedById(pool) && Assembled(c, s, pool, txs)
    ensures txs != [] <==> AnyAccepted(c, s, pool)
  {
    if txs != [] {
      assert txs[0] in txs;
    }
    if AnyAccepted(c, s, pool) {
      var id :| id in pool && VerifyTransaction(c, s, pool[id]) == Judged(Accepted);
      assert pool[id] in txs;
    }
  }

  /** MineBlock verifies again, in the same state, what the loop has just verified. */
  lemma AllPass(c: Suite, s: State, pool: Mempool, txs: seq<Transaction>, cbTx: Transaction)
    requires Assembled(c, s, pool, txs) && cbTx.IsCoinbase()
    ensures AllAccepted(c, s, txs + [cbTx], |txs| + 1)
  {
    forall i | 0 <= i < |txs| ensures VerifyTransaction(c, s, txs[i]) == Judged(Accepted) {
      assert txs[i] in txs;
    }
  }

  lemma IdsStep(txs: seq<Transaction>, i: nat)
    requires i < |txs|
    ensures IdsOf(txs[..i + 1]) == IdsOf(txs[..i]) + {txs[i].id}
  {
    var a, b := txs[..i + 1], txs[..i];
    forall id | id in IdsOf(b) ensures id in IdsOf(a) {
      var k :| 0 <= k < |b| && b[k].id == id;
      assert a[k].id == id;
    }
    assert a[i].id in IdsOf(a);
  }
}
