/** The node's objects: the store, Blockchain (internal/core/blockchain.go) and UTXOSet
    (internal/core/utxo_set.go), each method proved against the functions of Chain and Utxo. */
module Node {
  import opened Prelude
  import opened Ledger
  import opened Transactions
  import opened Chain
  import opened Utxo
  import opened UtxoUpdate
  import opened UtxoBlock
  import opened ProofOfWork
  import Builders
  import Wallets

  /** internal/storage/storage.go: blocks by hash, the tip, and the UTXO index. */
  class Storage {
    var blocks: BlockMap
    var tip: Bytes
    var utxo: StoredTable

    constructor ()
      ensures blocks == map[] && tip == [] && utxo == map[]
    {
      blocks, tip, utxo := map[], [], map[];
    }
  }

  // ---------- Pieces of FindUTXO ----------

  predicate Records(spent: map<Bytes, seq<int>>, s: set<Outpoint>) {
    (forall p :: p in s ==> p.txid in spent && p.vout in spent[p.txid]) &&
    (forall id, v :: id in spent && v in spent[id] ==> Outpoint(id, v) in s)
  }

  function AddStored(table: StoredTable, id: Bytes, outs: Outputs): StoredTable {
    if outs == [] then table else table[id := (if id in table then table[id] else []) + outs]
  }

  lemma StoredAddKept(table: Table, id: Bytes, kept: seq<Tagged>)
    ensures Stored(AddKept(table, id, kept)) == AddStored(Stored(table), id, Strip(kept))
  {
    assert Strip(Get(table, id) + kept) == Strip(Get(table, id)) + Strip(kept);
  }

  lemma KeptStep(outs: Outputs, spent: set<int>, k: nat)
    requires k < |outs|
    ensures Strip(Kept(outs[..k + 1], spent)) == Strip(Kept(outs[..k], spent)) + if k in spent then [] else [outs[k]]
  {
    assert outs[..k + 1][..k] == outs[..k];
  }

  lemma AddStoredStep(table: StoredTable, id: Bytes, outs: Outputs, o: TxOutput)
    ensures var t := AddStored(table, id, outs);
            t[id := (if id in t then t[id] else []) + [o]] == AddStored(table, id, outs + [o])
  {
    var before := if id in table then table[id] else [];
    if outs == [] {
      assert outs + [o] == [o];
    } else {
      assert before + outs + [o] == before + (outs + [o]);
    }
  }

  /** Whether `index` is in the list recorded for `id`: the scan that continues the outer loop. */
  method WasSpent(spent: map<Bytes, seq<int>>, id: Bytes, index: int) returns (r: bool)
    ensures r <==> id in spent && index in spent[id]
  {
    if id !in spent {
      return false;
    }
    for k := 0 to |spent[id]|
      invariant index !in spent[id][..k]
    {
      if spent[id][k] == index {
        return true;
      }
    }
    assert spent[id][..|spent[id]|] == spent[id];
    r := false;
  }

  lemma RecordedIsSpent(spent: map<Bytes, seq<int>>, s: set<Outpoint>, id: Bytes, v: int)
    requires Records(spent, s)
    ensures id in spent && v in spent[id] <==> v in Indices(s, id)
  {
    if Outpoint(id, v) in s {
      assert Outpoint(id, v).txid in spent;
    }
  }

  method CollectOutputs(table: StoredTable, spent: map<Bytes, seq<int>>, tx: Transaction, ghost s: set<Outpoint>)
    returns (r: StoredTable)
    requires Records(spent, s)
    ensures r == AddStored(table, tx.id, Strip(Kept(tx.vout, Indices(s, tx.id))))
  {
    r := table;
    ghost var kept: Outputs := [];
    for outIdx := 0 to |tx.vout|
      invariant kept == Strip(Kept(tx.vout[..outIdx], Indices(s, tx.id)))
      invariant r == AddStored(table, tx.id, kept)
    {
      KeptStep(tx.vout, Indices(s, tx.id), outIdx);
      var was := WasSpent(spent, tx.id, outIdx);
      RecordedIsSpent(spent, s, tx.id, outIdx);
      if !was {
        AddStoredStep(table, tx.id, kept, tx.vout[outIdx]);
        var outs := if tx.id in r then r[tx.id] else [];
        r := r[tx.id := outs + [tx.vout[outIdx]]];
        kept := kept + [tx.vout[outIdx]];
      }
    }
    assert tx.vout[..|tx.vout|] == tx.vout;
  }

  method RecordInputs(spent: map<Bytes, seq<int>>, tx: Transaction, ghost s: set<Outpoint>)
    returns (r: map<Bytes, seq<int>>)
    requires Records(spent, s)
    ensures Records(r, s + Spends(tx))
  {
    r := spent;
    if tx.IsCoinbase() {
      return;
    }
    for i := 0 to |tx.vin|
      invariant Records(r, s + InputOutpoints(tx.vin[..i]))
    {
      var input := tx.vin[i];
      ghost var before := s + InputOutpoints(tx.vin[..i]);
      var list := if input.txid in r then r[input.txid] else [];
      r := r[input.txid := list + [input.vout]];
      assert InputOutpoints(tx.vin[..i + 1]) == InputOutpoints(tx.vin[..i]) + {Outpoint(input.txid, input.vout)};
      assert Records(r, before + {Outpoint(input.txid, input.vout)});
      assert before + {Outpoint(input.txid, input.vout)} == s + InputOutpoints(tx.vin[..i + 1]);
    }
    assert tx.vin[..|tx.vin|] == tx.vin;
  }

  lemma {:induction false} FlattenAppend(bs: seq<Block>, b: Block)
    ensures Flatten(bs + [b]) == Flatten(bs) + b.txs
  {
    if bs == [] {
      assert [b][1..] == [];
    } else {
      FlattenAppend(bs[1..], b);
      assert (bs + [b])[1..] == bs[1..] + [b];
    }
  }

  lemma FlattenNext(bs: seq<Block>, i: nat)
    requires i < |bs|
    ensures Flatten(bs[..i + 1]) == Flatten(bs[..i]) + bs[i].txs
  {
    FlattenAppend(bs[..i], bs[i]);
    TakeOneMore(bs, i);
  }

  lemma AppendNext(done: seq<Transaction>, txs: seq<Transaction>, j: nat)
    requires j < |txs|
    ensures done + txs[..j] + [txs[j]] == done + txs[..j + 1]
  {
  }

  datatype CreateResult = NewChain(bc: Blockchain, genesis: Block) | AlreadyExists | BadAddress

  /** NewGenesisBlock: never cancelled, so it always finds a block. */
  method MineGenesis(c: Suite, coinbase: Transaction, now: int64) returns (genesis: Block)
    requires coinbase.IsCoinbase() && |coinbase.vout| == 1 && !IsContract(coinbase.vout[0])
    ensures IsGenesis(genesis) && genesis.txs == [coinbase] && genesis.timestamp == now && genesis.bits == 16
    ensures genesis.nonce < MAX_NONCE ==>
              genesis.hash == HashAt(c, genesis, genesis.nonce) && Admissible(c, genesis)
  {
    var mined := NewBlock(c, now, [coinbase], [], 0, TARGET_BITS, n => false);
    genesis := mined.block;
  }

  /** blockchain.go CreateBlockchain; a malformed address panics. */
  method CreateBlockchain(c: Suite, address: Bytes, db: Storage, now: int64) returns (r: CreateResult)
    modifies db`blocks, db`tip
    ensures r.AlreadyExists? <==> old(db.tip) != []
    ensures r.BadAddress? <==> old(db.tip) == [] && Wallets.LockedHash(address).None?
    ensures !r.NewChain? ==> db.blocks == old(db.blocks) && db.tip == old(db.tip)
    ensures r.NewChain? ==>
              fresh(r.bc) && r.bc.db == db && IsGenesis(r.genesis) &&
              Some(r.genesis.txs[0]) == Builders.NewCoinbaseTX(c, address, Builders.GenesisData(), []) &&
              r.bc.State() == SaveAsTip(old(Chain.State(db.blocks, db.tip, [])), r.genesis)
    ensures r.NewChain? ==> r.genesis.timestamp == now && r.genesis.bits == 16
    ensures r.NewChain? && r.genesis.nonce < MAX_NONCE ==>
              r.genesis.hash == HashAt(c, r.genesis, r.genesis.nonce) && Admissible(c, r.genesis)
  {
    if db.tip != [] {
      return AlreadyExists;
    }
    var coinbase := Builders.NewCoinbaseTX(c, address, Builders.GenesisData(), []);
    if coinbase.None? {
      return BadAddress;
    }
    var genesis := MineGenesis(c, coinbase.value, now);
    db.blocks := db.blocks[genesis.hash := genesis];
    db.tip := genesis.hash;
    var bc := new Blockchain(db, genesis.hash);
    r := NewChain(bc, genesis);
  }

  datatype AddResult = AddOk | AddError | AddCrash

  datatype MineResult = MineOk(block: Block) | MineError | MineCrash

  /** The first `n` transactions are accepted. */
  predicate AllAccepted(c: Suite, s: State, txs: seq<Transaction>, n: nat)
    requires n <= |txs|
  {
    forall i :: 0 <= i < n ==> Chain.VerifyTransaction(c, s, txs[i]) == Judged(Accepted)
  }

  /** Transaction `i` is the first that is not accepted, and `v` is what it gets. */
  predicate FirstRefused(c: Suite, s: State, txs: seq<Transaction>, i: int, v: Outcome) {
    0 <= i < |txs| && AllAccepted(c, s, txs, i) && Chain.VerifyTransaction(c, s, txs[i]) == v != Judged(Accepted)
  }

  /** The block MineBlock searches a nonce for: on top of the tip, at the tip's difficulty. */
  function NextDraft(s: State, txs: seq<Transaction>, now: int64): Block
    requires Held(s.blocks, s.storedTip)
  {
    var last := s.blocks[s.storedTip];
    Draft(now, txs, s.storedTip, last.height + 1, last.bits)
  }

  /** The context is found cancelled at some nonce that polls it. */
  ghost predicate Interrupted(cancelled: int -> bool) {
    exists n :: n % 1000 == 0 && 0 <= n < MAX_NONCE && cancelled(n)
  }

  /** Some genesis block roots the store: every other block extends a stored one. */
  ghost predicate Rooted(m: BlockMap) {
    exists g :: Linked(m, g)
  }

  lemma ParentOneBelow(m: BlockMap, h: Bytes)
    requires h in m
    ensures Rooted(m) && m[h].height > 0 ==> Held(m, m[h].prev) && m[h].height == m[m[h].prev].height + 1
  {
  }

  lemma PositiveMultiple(n: int)
    requires n > 0 && n % ADJUSTMENT_INTERVAL == 0
    ensures n >= ADJUSTMENT_INTERVAL
  {
  }

  lemma RetargetIsPastTen(m: BlockMap, h: Bytes)
    requires Held(m, h) && (m[h].height + 1) % ADJUSTMENT_INTERVAL == 0
    ensures Rooted(m) ==> m[h].height + 1 >= ADJUSTMENT_INTERVAL
  {
    if Rooted(m) {
      NeverNegative(m, h);
      PositiveMultiple(m[h].height + 1);
    }
  }

  lemma NeverNegative(m: BlockMap, h: Bytes)
    requires Held(m, h) && Rooted(m)
    ensures m[h].height >= 0
  {
    var g :| Linked(m, g);
    LinkedHeight(m, g, h);
  }

  /** A search for `id` comes to an end: the walk does, or it meets the transaction first. */
  predicate SearchEnds(s: State, id: Bytes) {
    Ends(s.blocks, s.tip) || FindTx(ChainTxs(s), id).Some?
  }

  /** Looking up every input comes to an end; a coinbase is not looked up. */
  predicate LookupEnds(s: State, tx: Transaction) {
    tx.IsCoinbase() || Ends(s.blocks, s.tip) || AllFound(ChainTxs(s), tx.vin)
  }

  /** Verifying in order, up to the first transaction that is not accepted, comes to an end. */
  predicate VerifyingEnds(c: Suite, s: State, txs: seq<Transaction>) {
    forall i :: 0 <= i < |txs| && AllAccepted(c, s, txs, i) ==> LookupEnds(s, txs[i])
  }

  /** The search for the retargeting anchor, if there is one, comes to an end. */
  predicate AnchorEnds(m: BlockMap, h: Bytes) {
    Held(m, h) && (m[h].height + 1) % ADJUSTMENT_INTERVAL == 0 ==>
      DescentEnds(m, h, m[h].height + 1 - ADJUSTMENT_INTERVAL, {})
  }

  /** Going back from `h`, the first `n` blocks are there and above `floor`. */
  predicate AllAbove(m: BlockMap, h: Bytes, floor: int, n: nat) {
    forall j :: 0 <= j < n ==> Held(m, Back(m, h, j)) && m[Back(m, h, j)].height > floor
  }

  /** The first block on the way back that is not above `floor`; none where one is missing before. */
  ghost predicate IsAnchor(m: BlockMap, h: Bytes, floor: int, anchor: Option<Block>) {
    exists n: nat ::
      AllAbove(m, h, floor, n) &&
      match anchor
      case Some(b) => Held(m, Back(m, h, n)) && m[Back(m, h, n)] == b && b.height <= floor
      case None => !Held(m, Back(m, h, n))
  }

  lemma AboveOneMore(m: BlockMap, h: Bytes, floor: int, n: nat)
    requires AllAbove(m, h, floor, n) && Held(m, Back(m, h, n)) && m[Back(m, h, n)].height > floor
    ensures AllAbove(m, h, floor, n + 1) && Back(m, h, n + 1) == m[Back(m, h, n)].prev
  {
    BackTwice(m, h, n, 1);
    BackOne(m, Back(m, h, n));
  }

  lemma AnchorIsReached(m: BlockMap, h: Bytes)
    requires Ends(m, h)
    ensures AnchorEnds(m, h)
  {
    if Held(m, h) {
      EndingDescends(m, h, m[h].height + 1 - ADJUSTMENT_INTERVAL, {});
    }
  }

  /** One block of a search: it is found there, or further along the walk. */
  lemma TrailStep(m: BlockMap, h: Bytes, seen: set<Bytes>, id: Bytes)
    requires Held(m, h) && (EndsFrom(m, h, seen) || FindTx(Flatten(Trail(m, h, seen)), id).Some?)
    ensures h !in seen && (EndsFrom(m, h, seen) ==> EndsFrom(m, m[h].prev, seen + {h}))
    ensures var rest := Flatten(Trail(m, m[h].prev, seen + {h}));
            FindTx(Flatten(Trail(m, h, seen)), id) ==
            if FindTx(m[h].txs, id).Some? then FindTx(m[h].txs, id) else FindTx(rest, id)
  {
    var rest := Trail(m, m[h].prev, seen + {h});
    assert h !in seen;
    assert Trail(m, h, seen) == [m[h]] + rest;
    assert ([m[h]] + rest)[1..] == rest;
    FindInEither(m[h].txs, Flatten(rest), id);
  }

  method FindIn(txs: seq<Transaction>, id: Bytes) returns (r: Option<Transaction>)
    ensures r == FindTx(txs, id)
  {
    for j := 0 to |txs|
      invariant FindTx(txs, id) == FindTx(txs[j..], id)
    {
      assert txs[j..][1..] == txs[j + 1..];
      if txs[j].id == id {
        return Some(txs[j]);
      }
    }
    r := None;
  }

  class Blockchain {
    var tip: Bytes
    const db: Storage

    constructor (db: Storage, tip: Bytes)
      ensures this.db == db && this.tip == tip
    {
      this.db, this.tip := db, tip;
    }

    ghost function State(): State
      reads this, db
    {
      Chain.State(db.blocks, db.tip, tip)
    }

    /** blockchain.go Blocks, drained. */
    method Blocks() returns (bs: seq<Block>)
      requires Ends(db.blocks, tip)
      ensures bs == Walk(db.blocks, tip)
    {
      bs := [];
      var currentHash := tip;
      while |currentHash| > 0
        invariant Ends(db.blocks, currentHash)
        invariant bs + Walk(db.blocks, currentHash) == Walk(db.blocks, tip)
        decreases |Walk(db.blocks, currentHash)|
      {
        if currentHash !in db.blocks {
          break;
        }
        WalkUnfold(db.blocks, currentHash);
        var block := db.blocks[currentHash];
        JoinThree(bs, [block], Walk(db.blocks, block.prev));
        bs := bs + [block];
        currentHash := block.prev;
      }
    }

    /** blockchain.go FindTransaction: a search along the walk that stops at the first match. */
    method FindTransaction(id: Bytes) returns (r: Option<Transaction>)
      requires SearchEnds(State(), id)
      ensures r == FindTx(ChainTxs(State()), id)
    {
      var currentHash := tip;
      ghost var seen: set<Bytes> := {};
      while |currentHash| > 0
        invariant FindTx(Flatten(Trail(db.blocks, currentHash, seen)), id) == FindTx(ChainTxs(State()), id)
        invariant EndsFrom(db.blocks, currentHash, seen) || FindTx(ChainTxs(State()), id).Some?
        decreases db.blocks.Keys - seen
      {
        if currentHash !in db.blocks {
          break;
        }
        TrailStep(db.blocks, currentHash, seen, id);
        var block := db.blocks[currentHash];
        r := FindIn(block.txs, id);
        if r.Some? {
          return;
        }
        seen := seen + {currentHash};
        currentHash := block.prev;
      }
      r := None;
    }

    /** blockchain.go FindUTXO. */
    method FindUTXO() returns (utxo: StoredTable)
      requires Ends(db.blocks, tip)
      ensures utxo == Stored(FindTable(ChainTxs(State())))
    {
      var blocks := Blocks();
      utxo := VisitBlocks(blocks);
    }

    /** blockchain.go AddBlock. */
    method AddBlock(c: Suite, block: Block) returns (r: AddResult)
      modifies this`tip, db`blocks, db`tip
      ensures State() == Chain.AddBlock(c, old(State()), block)
      ensures r.AddOk? <==> AddSucceeds(c, old(State()), block)
      ensures r.AddCrash? <==> AddPanics(old(State()), block)
    {
      if block.hash in db.blocks || (block.hash == TIP_KEY && db.tip != []) {
        return AddOk;
      }
      if |block.authoritySignature| > 0 {
        if !c.poaValid(block) {
          return AddError;
        }
      } else {
        if EffectiveBits(block.bits) > 256 {
          return AddCrash;
        }
        if !Validate(c, block) {
          return AddError;
        }
      }
      if db.tip !in db.blocks {
        return AddError;
      }
      if block.hash == [] || block.hash == TIP_KEY {
        return AddError;
      }
      var lastBlock := db.blocks[db.tip];
      db.blocks := db.blocks[block.hash := block];
      if block.height > lastBlock.height {
        db.tip := block.hash;
        tip := block.hash;
      }
      r := AddOk;
    }

    /** blockchain.go VerifyTransaction. */
    method VerifyTransaction(c: Suite, tx: Transaction) returns (r: Outcome)
      requires LookupEnds(State(), tx)
      ensures r == Chain.VerifyTransaction(c, State(), tx)
    {
      if tx.IsCoinbase() {
        return Judged(Accepted);
      }
      var prev := FindPrevious(tx.vin);
      if prev.None? || db.tip !in db.blocks {
        return NoVerdict;
      }
      var v := Transactions.Verify(c, tx, prev.value, db.blocks[db.tip].height);
      r := Judged(v);
    }

    /** The lookup loop of VerifyTransaction and SignTransaction. */
    method FindPrevious(vin: seq<TxInput>) returns (r: Option<PrevTxs>)
      requires Ends(db.blocks, tip) || AllFound(ChainTxs(State()), vin)
      ensures var txs := ChainTxs(State()); r == if AllFound(txs, vin) then Some(PrevFor(txs, vin)) else None
    {
      var prev: PrevTxs := map[];
      ghost var txs := ChainTxs(State());
      for i := 0 to |vin|
        invariant forall j :: 0 <= j < i ==> FindTx(txs, vin[j].txid).Some?
        invariant prev == PrevFor(txs, vin[..i])
      {
        var found := FindTransaction(vin[i].txid);
        if found.None? {
          return None;
        }
        PrevForStep(txs, vin, i);
        prev := prev[found.value.id := found.value];
      }
      assert vin[..|vin|] == vin;
      r := Some(prev);
    }

    /** The ancestor walk of MineBlock: back from the tip to the last block not above
        `newHeight - 10`. On a linked chain it stops at exactly that height. */
    method FindAnchor(lastBlock: Block, ghost lastHash: Bytes, newHeight: int) returns (anchor: Option<Block>)
      requires Held(db.blocks, lastHash) && db.blocks[lastHash] == lastBlock && newHeight == lastBlock.height + 1
      requires DescentEnds(db.blocks, lastHash, newHeight - ADJUSTMENT_INTERVAL, {})
      ensures IsAnchor(db.blocks, lastHash, newHeight - ADJUSTMENT_INTERVAL, anchor)
      ensures Rooted(db.blocks) && newHeight >= ADJUSTMENT_INTERVAL ==>
                anchor.Some? && anchor.value.height == newHeight - ADJUSTMENT_INTERVAL
    {
      var anchorBlock := lastBlock;
      ghost var h, n: nat, seen: set<Bytes> := lastHash, 0, {};
      while anchorBlock.height > newHeight - ADJUSTMENT_INTERVAL
        invariant Held(db.blocks, h) && db.blocks[h] == anchorBlock
        invariant h == Back(db.blocks, lastHash, n)
        invariant AllAbove(db.blocks, lastHash, newHeight - ADJUSTMENT_INTERVAL, n)
        invariant DescentEnds(db.blocks, h, newHeight - ADJUSTMENT_INTERVAL, seen)
        invariant Rooted(db.blocks) ==> anchorBlock.height >= newHeight - ADJUSTMENT_INTERVAL
        decreases db.blocks.Keys - seen
      {
        ParentOneBelow(db.blocks, h);
        assert h in db.blocks.Keys - seen;
        seen := seen + {h};
        AboveOneMore(db.blocks, lastHash, newHeight - ADJUSTMENT_INTERVAL, n);
        h, n := anchorBlock.prev, n + 1;
        if !Held(db.blocks, anchorBlock.prev) {
          return None;
        }
        anchorBlock := db.blocks[anchorBlock.prev];
      }
      anchor := Some(anchorBlock);
    }

    /** The verification loop of MineBlock: stops at the first transaction that is not accepted. */
    method VerifyAll(c: Suite, txs: seq<Transaction>) returns (v: Outcome)
      requires VerifyingEnds(c, State(), txs)
      ensures v == Judged(Accepted) ==> AllAccepted(c, State(), txs, |txs|)
      ensures v != Judged(Accepted) ==> exists i :: 0 <= i < |txs| && FirstRefused(c, State(), txs, i, v)
    {
      for i := 0 to |txs|
        invariant AllAccepted(c, State(), txs, i)
      {
        v := VerifyTransaction(c, txs[i]);
        if v != Judged(Accepted) {
          assert FirstRefused(c, State(), txs, i, v);
          return;
        }
      }
      v := Judged(Accepted);
    }

    /** The difficulty of the next block: the tip's, since the retarget never moves it. */
    method NextBits(lastBlock: Block, ghost lastHash: Bytes) returns (bits: Option<int>)
      requires AnchorEnds(db.blocks, lastHash) && Held(db.blocks, lastHash) && db.blocks[lastHash] == lastBlock
      ensures bits.Some? ==> EffectiveBits(bits.value) == EffectiveBits(lastBlock.bits)
      ensures Rooted(db.blocks) ==> bits.Some?
    {
      var newBits := if lastBlock.bits == 0 then TARGET_BITS else lastBlock.bits;
      var newHeight := lastBlock.height + 1;
      if newHeight % ADJUSTMENT_INTERVAL == 0 {
        RetargetIsPastTen(db.blocks, lastHash);
        var anchor := FindAnchor(lastBlock, lastHash, newHeight);
        if anchor.None? {
          return None;
        }
        newBits := CalculateNewDifficulty(lastBlock, anchor.value);
        RetargetNeverFires(lastBlock, anchor.value);
      }
      bits := Some(newBits);
    }

    /** blockchain.go MineBlock. */
    method MineBlock(c: Suite, txs: seq<Transaction>, now: int64, cancelled: int -> bool) returns (r: MineResult)
      requires VerifyingEnds(c, State(), txs) && AnchorEnds(db.blocks, db.tip)
      modifies this`tip, db`blocks, db`tip
      ensures r.MineOk? ==> r.block.txs == txs && MayMine(c, old(State()), r.block) &&
                            State() == SaveAsTip(old(State()), r.block)
      ensures r.MineOk? ==> r.block.timestamp == now && r.block.authoritySignature == []
      ensures r.MineOk? && r.block.nonce < MAX_NONCE ==>
                r.block.hash == HashAt(c, r.block, r.block.nonce) && Admissible(c, r.block)
      ensures !r.MineOk? ==> State() == old(State())
      ensures !AllAccepted(c, old(State()), txs, |txs|) ==>
                exists i, v :: 0 <= i < |txs| && FirstRefused(c, old(State()), txs, i, v) &&
                               r == if v == Judged(Crashed) then MineCrash else MineError
      ensures AllAccepted(c, old(State()), txs, |txs|) && Held(old(db.blocks), old(db.tip)) &&
              Rooted(old(db.blocks)) ==>
                (r.MineCrash? <==> EffectiveBits(old(db.blocks)[old(db.tip)].bits) > 256) &&
                (!r.MineCrash? ==>
                   (r.MineError? <==>
                    txs == [] || exists n :: StopsAt(c, NextDraft(old(State()), txs, now), cancelled, n)))
      ensures AllAccepted(c, old(State()), txs, |txs|) && r.MineCrash? ==>
                Held(old(db.blocks), old(db.tip)) && EffectiveBits(old(db.blocks)[old(db.tip)].bits) > 256
    {
      var verdict := VerifyAll(c, txs);
      if verdict != Judged(Accepted) {
        return if verdict == Judged(Crashed) then MineCrash else MineError;
      }
      if !Held(db.blocks, db.tip) {
        return MineError;
      }
      var lastBlock := db.blocks[db.tip];
      var newBits := NextBits(lastBlock, db.tip);
      if newBits.None? {
        return MineError;
      }
      if EffectiveBits(newBits.value) > 256 {
        return MineCrash;
      }
      assert Draft(now, txs, db.tip, lastBlock.height + 1, newBits.value) == NextDraft(State(), txs, now);
      var mined := NewBlock(c, now, txs, db.tip, lastBlock.height + 1, newBits.value, cancelled);
      if mined.Failed? {
        return MineError;
      }
      var newBlock := mined.block;
      db.blocks := db.blocks[newBlock.hash := newBlock];
      db.tip := newBlock.hash;
      tip := newBlock.hash;
      r := MineOk(newBlock);
    }
  }

  /** One transaction of FindUTXO's pass: collect its unspent outputs, then record its inputs. */
  method Visit(utxo: StoredTable, spent: map<Bytes, seq<int>>, tx: Transaction, ghost done: seq<Transaction>)
    returns (utxo': StoredTable, spent': map<Bytes, seq<int>>)
    requires utxo == Stored(FindTable(done)) && Records(spent, SpentBy(done))
    ensures utxo' == Stored(FindTable(done + [tx])) && Records(spent', SpentBy(done + [tx]))
  {
    assert (done + [tx])[..|done|] == done;
    StoredAddKept(FindTable(done), tx.id, Kept(tx.vout, Indices(SpentBy(done), tx.id)));
    utxo' := CollectOutputs(utxo, spent, tx, SpentBy(done));
    spent' := RecordInputs(spent, tx, SpentBy(done));
  }

  /** The transactions of one block, in order. */
  method VisitBlock(utxo: StoredTable, spent: map<Bytes, seq<int>>, block: Block, ghost done: seq<Transaction>)
    returns (utxo': StoredTable, spent': map<Bytes, seq<int>>)
    requires utxo == Stored(FindTable(done)) && Records(spent, SpentBy(done))
    ensures utxo' == Stored(FindTable(done + block.txs)) && Records(spent', SpentBy(done + block.txs))
  {
    utxo', spent' := utxo, spent;
    ghost var seen := done;
    for j := 0 to |block.txs|
      invariant seen == done + block.txs[..j]
      invariant utxo' == Stored(FindTable(seen)) && Records(spent', SpentBy(seen))
    {
      AppendNext(done, block.txs, j);
      utxo', spent' := Visit(utxo', spent', block.txs[j], seen);
      seen := seen + [block.txs[j]];
    }
    assert block.txs[..|block.txs|] == block.txs;
  }

  /** The pass over all blocks of the walk. */
  method VisitBlocks(blocks: seq<Block>) returns (utxo: StoredTable)
    ensures utxo == Stored(FindTable(Flatten(blocks)))
  {
    utxo := map[];
    var spent: map<Bytes, seq<int>> := map[];
    ghost var done: seq<Transaction> := [];
    for i := 0 to |blocks|
      invariant done == Flatten(blocks[..i])
      invariant utxo == Stored(FindTable(done)) && Records(spent, SpentBy(done))
    {
      utxo, spent := VisitBlock(utxo, spent, blocks[i], done);
      done := done + blocks[i].txs;
      FlattenNext(blocks, i);
    }
    assert blocks[..|blocks|] == blocks;
  }

  class UtxoSet {
    const bc: Blockchain

    constructor (bc: Blockchain)
      ensures this.bc == bc
    {
      this.bc := bc;
    }

    /** utxo_set.go Reindex. */
    method Reindex()
      requires Ends(bc.db.blocks, bc.tip)
      modifies bc.db`utxo
      ensures bc.db.utxo == Stored(FindTable(ChainTxs(bc.State())))
    {
      bc.db.utxo := map[];
      var utxo := bc.FindUTXO();
      var keys := utxo.Keys;
      while keys != {}
        invariant keys <= utxo.Keys
        invariant bc.db.utxo == map id | id in utxo && id !in keys :: utxo[id]
        decreases keys
      {
        var id :| id in keys;
        bc.db.utxo := bc.db.utxo[id := utxo[id]];
        keys := keys - {id};
      }
    }

    /** utxo_set.go Update. */
    method Update(block: Block)
      modifies bc.db`utxo
      ensures bc.db.utxo == UpdateTxs(old(bc.db.utxo), block.txs, AsStored)
    {
      ghost var before := bc.db.utxo;
      for k := 0 to |block.txs|
        invariant bc.db.utxo == UpdateTxs(before, block.txs[..k], AsStored)
      {
        var tx := block.txs[k];
        ghost var mid := bc.db.utxo;
        if !tx.IsCoinbase() {
          for i := 0 to |tx.vin|
            invariant bc.db.utxo == SpendInputs(mid, tx.vin[..i])
          {
            assert tx.vin[..i + 1][..i] == tx.vin[..i];
            var vin := tx.vin[i];
            if vin.txid in bc.db.utxo {
              var updated := WithoutPosition(bc.db.utxo[vin.txid], vin.vout);
              if |updated| == 0 {
                bc.db.utxo := bc.db.utxo - {vin.txid};
              } else {
                bc.db.utxo := bc.db.utxo[vin.txid := updated];
              }
            }
          }
          assert tx.vin[..|tx.vin|] == tx.vin;
        }
        bc.db.utxo := bc.db.utxo[tx.id := tx.vout];
        assert block.txs[..k + 1][..k] == block.txs[..k];
      }
      assert block.txs[..|block.txs|] == block.txs;
    }
  }

  /** The copying loop of Update: every output whose position is not `vout`. */
  method WithoutPosition(outs: Outputs, vout: int) returns (r: Outputs)
    ensures r == RemoveAt(outs, vout)
  {
    r := [];
    for outIdx := 0 to |outs|
      invariant r == if 0 <= vout < outIdx then outs[..vout] + outs[vout + 1..outIdx] else outs[..outIdx]
    {
      if outIdx != vout {
        r := r + [outs[outIdx]];
      }
    }
  }
}
