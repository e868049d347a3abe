/** The escrow index against the ledger: what the index of internal/indexer says about a contract
    output after a whole mining run, and what the ledger accepted. */
module EscrowRuns {
  import opened Prelude
  import opened Ledger
  import opened Transactions
  import opened Signing
  import opened Chain
  import opened Utxo
  import opened UtxoBlock
  import opened MinedChain
  import opened KeptIndex
  import opened EscrowIndex

  type Events = seq<EscrowIndex.Event>

  // ---------- What the index reads ----------

  /** The inputs met under a key since its last creation, after `start`. */
  function Since(start: seq<TxInput>, es: Events, k: Key): seq<TxInput> {
    if es == [] then start
    else
      var before := Since(start, es[..|es| - 1], k);
      match es[|es| - 1]
      case Create(r) => if RecordKey(r) == k then [] else before
      case Spend(k', input, _) => if k' == k then before + [input] else before
      case Tick(_) => before
  }

  /** What the last input that the index takes for a settlement makes of the record. */
  function LastReading(inputs: seq<TxInput>): Option<Status> {
    if inputs == [] then None
    else
      var last := inputs[|inputs| - 1];
      if |last.escrowWitness| > 0 then Some(Claimed)
      else if last.isRefund then Some(Refunded)
      else LastReading(inputs[..|inputs| - 1])
  }

  predicate CreatesPending(es: Events) {
    forall i :: 0 <= i < |es| && es[i].Create? ==> es[i].record.status == Pending
  }

  predicate HasReading(o: Option<Record>, reading: Option<Status>) {
    o.Some? &&
    match reading
    case None => o.value.status == Pending || o.value.status == Expired
    case Some(s) => o.value.status == s && s != Pending
  }

  lemma EventKeepsReading(k: Key, o: Option<Record>, e: EscrowIndex.Event, inputs: seq<TxInput>)
    requires HasReading(o, LastReading(inputs)) && (e.Create? ==> e.record.status == Pending)
    ensures HasReading(ApplyAt(k, o, e),
                       LastReading(if e.Create? && RecordKey(e.record) == k then []
                                   else if e.Spend? && e.key == k then inputs + [e.input] else inputs))
  {
    if e.Spend? && e.key == k {
      assert (inputs + [e.input])[..|inputs|] == inputs;
    }
  }

  /** A created record has the status of its last reading, or is pending or expired without one. */
  lemma {:induction false} StatusIsReading(k: Key, es: Events)
    requires CreatesPending(es) && CreatesKey(es, k)
    ensures HasReading(ApplyAllAt(k, None, es), LastReading(Since([], es, k)))
  {
    var front, e := es[..|es| - 1], es[|es| - 1];
    CreatesLast(es, k);
    if CreatesKey(front, k) {
      StatusIsReading(k, front);
      EventKeepsReading(k, ApplyAllAt(k, None, front), e, Since([], front, k));
    }
  }

  /** Every creation under the key is this record. */
  predicate CreatesOnly(es: Events, k: Key, r: Record) {
    forall i :: 0 <= i < |es| && es[i].Create? && RecordKey(es[i].record) == k ==> es[i].record == r
  }

  /** A record created once keeps its terms. */
  lemma {:induction false} TermsAreKept(k: Key, r: Record, es: Events)
    requires CreatesOnly(es, k, r) && CreatesKey(es, k)
    ensures var o := ApplyAllAt(k, None, es); o.Some? && Terms(o.value) == Terms(r)
  {
    var front, e := es[..|es| - 1], es[|es| - 1];
    CreatesLast(es, k);
    if CreatesKey(front, k) {
      assert forall i :: 0 <= i < |front| ==> front[i] == es[i];
      TermsAreKept(k, r, front);
    }
  }

  lemma {:induction false} SinceConcat(start: seq<TxInput>, a: Events, b: Events, k: Key)
    ensures Since(start, a + b, k) == Since(Since(start, a, k), b, k)
  {
    if b == [] {
      assert a + b == a;
    } else {
      SinceConcat(start, a, b[..|b| - 1], k);
      assert (a + b)[..|a + b| - 1] == a + b[..|b| - 1];
    }
  }

  // ---------- What the chain holds ----------

  /** The inputs among `vin` that name `p`, in order. */
  function NamersIn(vin: seq<TxInput>, p: Outpoint): seq<TxInput> {
    if vin == [] then []
    else
      var last := vin[|vin| - 1];
      NamersIn(vin[..|vin| - 1], p) + if OutpointOf(last) == p then [last] else []
  }

  /** The inputs of `txs` that name `p`, in order; a coinbase names nothing. */
  function Namers(txs: seq<Transaction>, p: Outpoint): seq<TxInput> {
    if txs == [] then []
    else
      var last := txs[|txs| - 1];
      Namers(txs[..|txs| - 1], p) + if last.IsCoinbase() then [] else NamersIn(last.vin, p)
  }

  /** What one more transaction adds. */
  function NamersOf(tx: Transaction, p: Outpoint): seq<TxInput> {
    if tx.IsCoinbase() then [] else NamersIn(tx.vin, p)
  }

  lemma NamersAppend(txs: seq<Transaction>, tx: Transaction, p: Outpoint)
    ensures Namers(txs + [tx], p) == Namers(txs, p) + NamersOf(tx, p)
  {
    assert (txs + [tx])[..|txs|] == txs;
  }

  lemma NamersConcatStep(a: seq<Transaction>, front: seq<Transaction>, last: Transaction, b: seq<Transaction>,
                         p: Outpoint)
    requires b == front + [last] && Namers(a + front, p) == Namers(a, p) + Namers(front, p)
    ensures Namers(a + b, p) == Namers(a, p) + Namers(b, p)
  {
    JoinThree(a, front, [last]);
    NamersAppend(a + front, last, p);
    NamersAppend(front, last, p);
    JoinThree(Namers(a, p), Namers(front, p), NamersOf(last, p));
  }

  lemma {:induction false} NamersConcat(a: seq<Transaction>, b: seq<Transaction>, p: Outpoint)
    ensures Namers(a + b, p) == Namers(a, p) + Namers(b, p)
  {
    if b == [] {
      assert a + b == a;
    } else {
      NamersConcat(a, b[..|b| - 1], p);
      NamersConcatStep(a, b[..|b| - 1], b[|b| - 1], b, p);
    }
  }

  lemma DistinctParts(a: seq<int>, b: seq<int>)
    requires Distinct(a + b)
    ensures Distinct(a) && Distinct(b) && forall v :: v in a ==> v !in b
  {
    var s := a + b;
    assert forall i :: 0 <= i < |a| ==> s[i] == a[i];
    assert forall i :: 0 <= i < |b| ==> s[|a| + i] == b[i];
  }

  lemma {:induction false} NamersInOnce(vin: seq<TxInput>, p: Outpoint)
    requires Distinct(NamedBy(vin, p.txid))
    ensures |NamersIn(vin, p)| <= 1 && (NamersIn(vin, p) != [] <==> p.vout in NamedBy(vin, p.txid))
  {
    if vin != [] {
      var front, last := vin[..|vin| - 1], vin[|vin| - 1];
      DistinctParts(NamedBy(front, p.txid), if last.txid == p.txid then [last.vout] else []);
      NamersInOnce(front, p);
    }
  }

  lemma {:induction false} NamersOnce(txs: seq<Transaction>, p: Outpoint)
    requires Distinct(Named(txs, p.txid))
    ensures |Namers(txs, p)| <= 1 && (Namers(txs, p) != [] <==> p.vout in Named(txs, p.txid))
  {
    if txs != [] {
      var front, last := txs[..|txs| - 1], txs[|txs| - 1];
      DistinctParts(Named(front, p.txid), if last.IsCoinbase() then [] else NamedBy(last.vin, p.txid));
      NamersOnce(front, p);
      if !last.IsCoinbase() {
        NamersInOnce(last.vin, p);
      }
    }
  }

  // ---------- The index reads what the chain holds ----------

  /** Exactly the inputs that name `p` fall under the key `k`; a coinbase's does not. */
  predicate KeyMatches(tx: Transaction, k: Key, p: Outpoint) {
    forall i :: 0 <= i < |tx.vin| ==>
      (KeyOf(tx.vin[i].txid, tx.vin[i].vout) == k <==> !tx.IsCoinbase() && OutpointOf(tx.vin[i]) == p)
  }

  lemma {:induction false} InputsRead(start: seq<TxInput>, tx: Transaction, n: nat, k: Key, p: Outpoint)
    requires KeyMatches(tx, k, p) && n <= |tx.vin|
    ensures Since(start, InputEvents(tx.id, tx.vin[..n]), k) ==
            start + if tx.IsCoinbase() then [] else NamersIn(tx.vin[..n], p)
  {
    if n > 0 {
      InputsRead(start, tx, n - 1, k, p);
      assert tx.vin[..n][..n - 1] == tx.vin[..n - 1];
    }
  }

  lemma {:induction false} OutputsRead(start: seq<TxInput>, id: Bytes, outs: Outputs, height: int, k: Key)
    requires id != k.txID || start == []
    ensures Since(start, OutputEvents(id, outs, height), k) == start
  {
    if outs != [] {
      var n := |outs| - 1;
      OutputsRead(start, id, outs[..n], height, k);
      if IsContract(outs[n]) {
        SinceOne(start, OutputEvents(id, outs[..n], height), Create(NewRecord(id, n, outs[n], height)), k);
      } else {
        assert OutputEvents(id, outs, height) == OutputEvents(id, outs[..n], height);
      }
    }
  }

  lemma SinceOne(start: seq<TxInput>, es: Events, e: EscrowIndex.Event, k: Key)
    ensures Since(start, es + [e], k) ==
            if e.Create? && RecordKey(e.record) == k then []
            else if e.Spend? && e.key == k then Since(start, es, k) + [e.input] else Since(start, es, k)
  {
    assert (es + [e])[..|es|] == es;
  }

  lemma TxRead(start: seq<TxInput>, tx: Transaction, height: int, k: Key, p: Outpoint)
    requires KeyMatches(tx, k, p) && (tx.id != k.txID || start == [])
    ensures Since(start, OutputEvents(tx.id, tx.vout, height) + InputEvents(tx.id, tx.vin), k) ==
            start + NamersOf(tx, p)
  {
    SinceConcat(start, OutputEvents(tx.id, tx.vout, height), InputEvents(tx.id, tx.vin), k);
    OutputsRead(start, tx.id, tx.vout, height, k);
    InputsRead(start, tx, |tx.vin|, k, p);
    assert tx.vin[..|tx.vin|] == tx.vin;
  }

  /** Everything after `before` is readable: keys match, and the transaction itself comes before
      anything that names it. */
  predicate Readable(before: seq<Transaction>, txs: seq<Transaction>, k: Key, p: Outpoint) {
    forall j :: 0 <= j < |txs| ==>
      KeyMatches(txs[j], k, p) && (txs[j].id == k.txID ==> Namers(before + txs[..j], p) == [])
  }

  function TxOwnEvents(tx: Transaction, height: int): Events {
    OutputEvents(tx.id, tx.vout, height) + InputEvents(tx.id, tx.vin)
  }

  lemma OneMoreEvents(txs: seq<Transaction>, tx: Transaction, height: int)
    ensures TxEvents(txs + [tx], height) == TxEvents(txs, height) + TxOwnEvents(tx, height)
  {
    assert (txs + [tx])[..|txs|] == txs;
    JoinThree(TxEvents(txs, height), OutputEvents(tx.id, tx.vout, height), InputEvents(tx.id, tx.vin));
  }

  /** One more transaction: `read` is what was read up to it. */
  lemma OneTxRead(start: seq<TxInput>, read: seq<TxInput>, txs: seq<Transaction>, tx: Transaction, height: int,
                  k: Key, p: Outpoint)
    requires KeyMatches(tx, k, p) && (tx.id == k.txID ==> read == []) && Since(start, TxEvents(txs, height), k) == read
    ensures Since(start, TxEvents(txs + [tx], height), k) == read + NamersOf(tx, p)
  {
    OneMoreEvents(txs, tx, height);
    SinceConcat(start, TxEvents(txs, height), TxOwnEvents(tx, height), k);
    TxRead(read, tx, height, k, p);
  }

  lemma NamersOneMore(before: seq<Transaction>, front: seq<Transaction>, last: Transaction, txs: seq<Transaction>,
                      p: Outpoint)
    requires txs == front + [last]
    ensures Namers(before + txs, p) == Namers(before + front, p) + NamersOf(last, p)
  {
    JoinThree(before, front, [last]);
    NamersAppend(before + front, last, p);
  }

  lemma TxReadNext(before: seq<Transaction>, txs: seq<Transaction>, height: int, k: Key, p: Outpoint, n: nat)
    requires Readable(before, txs, k, p) && 0 < n <= |txs|
    requires Since(Namers(before, p), TxEvents(txs[..n - 1], height), k) == Namers(before + txs[..n - 1], p)
    ensures Since(Namers(before, p), TxEvents(txs[..n], height), k) == Namers(before + txs[..n], p)
  {
    OneTxRead(Namers(before, p), Namers(before + txs[..n - 1], p), txs[..n - 1], txs[n - 1], height, k, p);
    SplitAt(txs, n);
    NamersOneMore(before, txs[..n - 1], txs[n - 1], txs[..n], p);
  }

  lemma {:induction false} TxsReadUpTo(before: seq<Transaction>, txs: seq<Transaction>, height: int, k: Key,
                                       p: Outpoint, n: nat)
    requires Readable(before, txs, k, p) && n <= |txs|
    ensures Since(Namers(before, p), TxEvents(txs[..n], height), k) == Namers(before + txs[..n], p)
  {
    if n == 0 {
      assert before + txs[..0] == before;
    } else {
      TxsReadUpTo(before, txs, height, k, p, n - 1);
      TxReadNext(before, txs, height, k, p, n);
    }
  }

  lemma BlockRead(before: seq<Transaction>, b: Block, k: Key, p: Outpoint)
    requires Readable(before, b.txs, k, p)
    ensures Since(Namers(before, p), BlockEvents(b), k) == Namers(before + b.txs, p)
  {
    TxsReadUpTo(before, b.txs, b.height, k, p, |b.txs|);
    assert b.txs[..|b.txs|] == b.txs;
    var es := BlockEvents(b);
    assert es[..|es| - 1] == TxEvents(b.txs, b.height);
  }

  lemma {:induction false} RunRead(g: Block, blocks: seq<Block>, k: Key, p: Outpoint)
    requires IsGenesis(g) && Readable([], Chronicle(g, blocks), k, p)
    ensures Since([], ChainEvents(blocks), k) == Namers(Chronicle(g, blocks), p)
  {
    if blocks == [] {
      assert g.txs[..0] == [] && Namers(g.txs[..0], p) == [];
    } else {
      var all, last := Chronicle(g, blocks[..|blocks| - 1]), blocks[|blocks| - 1];
      SplitReadable(all, last.txs, k, p);
      RunRead(g, blocks[..|blocks| - 1], k, p);
      SinceConcat([], ChainEvents(blocks[..|blocks| - 1]), BlockEvents(last), k);
      BlockRead(all, last, k, p);
    }
  }

  lemma SplitReadable(all: seq<Transaction>, txs: seq<Transaction>, k: Key, p: Outpoint)
    requires Readable([], all + txs, k, p)
    ensures Readable([], all, k, p) && Readable(all, txs, k, p)
  {
    var whole := all + txs;
    forall j | 0 <= j < |all|
      ensures KeyMatches(all[j], k, p) && (all[j].id == k.txID ==> Namers([] + all[..j], p) == [])
    {
      assert whole[j] == all[j] && whole[..j] == all[..j];
    }
    forall j | 0 <= j < |txs|
      ensures KeyMatches(txs[j], k, p) && (txs[j].id == k.txID ==> Namers(all + txs[..j], p) == [])
    {
      assert whole[|all| + j] == txs[j] && [] + whole[..|all| + j] == all + txs[..j];
    }
  }

  // ---------- The record exists ----------

  lemma CreatesEither(a: Events, b: Events, k: Key)
    requires CreatesKey(a, k) || CreatesKey(b, k)
    ensures CreatesKey(a + b, k)
  {
    if CreatesKey(a, k) {
      var i :| 0 <= i < |a| && a[i].Create? && RecordKey(a[i].record) == k;
      assert (a + b)[i] == a[i];
    } else {
      var i :| 0 <= i < |b| && b[i].Create? && RecordKey(b[i].record) == k;
      assert (a + b)[|a| + i] == b[i];
    }
  }

  lemma {:induction false} OutputCreates(id: Bytes, outs: Outputs, height: int, v: nat)
    requires v < |outs| && IsContract(outs[v])
    ensures CreatesKey(OutputEvents(id, outs, height), KeyOf(id, v))
  {
    var n := |outs| - 1;
    var last := if IsContract(outs[n]) then [Create(NewRecord(id, n, outs[n], height))] else [];
    if v < n {
      OutputCreates(id, outs[..n], height, v);
    } else {
      assert last[0].Create? && RecordKey(last[0].record) == KeyOf(id, v);
    }
    CreatesEither(OutputEvents(id, outs[..n], height), last, KeyOf(id, v));
  }

  lemma {:induction false} TxCreates(txs: seq<Transaction>, height: int, tx: Transaction, v: nat)
    requires tx in txs && v < |tx.vout| && IsContract(tx.vout[v])
    ensures CreatesKey(TxEvents(txs, height), KeyOf(tx.id, v))
  {
    var front, last := txs[..|txs| - 1], txs[|txs| - 1];
    var outs := OutputEvents(last.id, last.vout, height);
    if last == tx {
      OutputCreates(tx.id, tx.vout, height, v);
    } else {
      TxCreates(front, height, tx, v);
    }
    CreatesEither(TxEvents(front, height), outs, KeyOf(tx.id, v));
    CreatesEither(TxEvents(front, height) + outs, InputEvents(last.id, last.vin), KeyOf(tx.id, v));
  }

  lemma BlockCreates(b: Block, tx: Transaction, v: nat)
    requires tx in b.txs && v < |tx.vout| && IsContract(tx.vout[v])
    ensures CreatesKey(BlockEvents(b), KeyOf(tx.id, v))
  {
    TxCreates(b.txs, b.height, tx, v);
    CreatesEither(TxEvents(b.txs, b.height), [Tick(b.height)], KeyOf(tx.id, v));
  }

  lemma {:induction false} RunCreates(blocks: seq<Block>, tx: Transaction, v: nat, n: nat)
    requires n < |blocks| && tx in blocks[n].txs && v < |tx.vout| && IsContract(tx.vout[v])
    ensures CreatesKey(ChainEvents(blocks), KeyOf(tx.id, v))
  {
    var m := |blocks| - 1;
    if n < m {
      RunCreates(blocks[..m], tx, v, n);
    } else {
      BlockCreates(blocks[m], tx, v);
    }
    CreatesEither(ChainEvents(blocks[..m]), BlockEvents(blocks[m]), KeyOf(tx.id, v));
  }

  // ---------- Nothing else is recorded under its key ----------

  /** No other output of the transaction has the key of output `v`, and the empty reference of a
      coinbase does not have it either. */
  predicate OwnKey(tx: Transaction, v: nat) {
    KeyOf(tx.id, v) != KeyOf([], -1) &&
    forall u :: 0 <= u < |tx.vout| && KeyOf(tx.id, u) == KeyOf(tx.id, v) ==> u == v
  }

  /** A transaction's outputs all have keys of their own exactly when it has at most 256 of them. */
  lemma OwnKeysExactly(tx: Transaction)
    requires tx.id != []
    ensures (forall v: nat :: v < |tx.vout| ==> OwnKey(tx, v)) <==> |tx.vout| <= 256
  {
    if |tx.vout| > 256 {
      assert KeyOf(tx.id, 256) == KeyOf(tx.id, 0);
      assert !OwnKey(tx, 0);
    }
  }

  /** The creation comes from an output of a transaction in `txs`. */
  predicate FromOutput(e: EscrowIndex.Event, txs: seq<Transaction>, height: int) {
    e.Create? ==>
      exists j, u :: 0 <= j < |txs| && 0 <= u < |txs[j].vout| &&
                     e.record == NewRecord(txs[j].id, u, txs[j].vout[u], height)
  }

  lemma {:induction false} OutputsFrom(id: Bytes, outs: Outputs, height: int, i: nat)
    requires i < |OutputEvents(id, outs, height)|
    ensures var e := OutputEvents(id, outs, height)[i];
            e.Create? && exists u :: 0 <= u < |outs| && e.record == NewRecord(id, u, outs[u], height)
  {
    var n := |outs| - 1;
    var front := OutputEvents(id, outs[..n], height);
    if i < |front| {
      OutputsFrom(id, outs[..n], height, i);
      var u :| 0 <= u < n && front[i].record == NewRecord(id, u, outs[..n][u], height);
      assert front[i].record == NewRecord(id, u, outs[u], height);
    } else {
      assert OutputEvents(id, outs, height)[i].record == NewRecord(id, n, outs[n], height);
    }
  }

  lemma {:induction false} InputsCreateNothing(id: Bytes, vin: seq<TxInput>, i: nat)
    requires i < |InputEvents(id, vin)|
    ensures !InputEvents(id, vin)[i].Create?
  {
    var front := InputEvents(id, vin[..|vin| - 1]);
    if i < |front| {
      InputsCreateNothing(id, vin[..|vin| - 1], i);
    }
  }

  lemma FromLonger(e: EscrowIndex.Event, txs: seq<Transaction>, longer: seq<Transaction>, height: int)
    requires FromOutput(e, txs, height) && |txs| <= |longer| && longer[..|txs|] == txs
    ensures FromOutput(e, longer, height)
  {
    if e.Create? {
      var j, u :| 0 <= j < |txs| && 0 <= u < |txs[j].vout| &&
                  e.record == NewRecord(txs[j].id, u, txs[j].vout[u], height);
      assert longer[..|txs|][j] == longer[j];
    }
  }

  lemma {:induction false} TxsFrom(txs: seq<Transaction>, height: int, i: nat)
    requires i < |TxEvents(txs, height)|
    ensures FromOutput(TxEvents(txs, height)[i], txs, height)
  {
    var n := |txs| - 1;
    var before, tx := TxEvents(txs[..n], height), txs[n];
    var outs, ins := OutputEvents(tx.id, tx.vout, height), InputEvents(tx.id, tx.vin);
    assert TxEvents(txs, height) == before + outs + ins;
    if i < |before| {
      TxsFrom(txs[..n], height, i);
      FromLonger(before[i], txs[..n], txs, height);
    } else if i < |before| + |outs| {
      OutputsFrom(tx.id, tx.vout, height, i - |before|);
      assert (before + outs + ins)[i] == outs[i - |before|] && txs[n] == tx;
    } else {
      InputsCreateNothing(tx.id, tx.vin, i - |before| - |outs|);
    }
  }

  /** What a block creates under the key is the record of that very output. */
  lemma BlockCreatesOnly(b: Block, tx: Transaction, v: nat)
    requires v < |tx.vout| && OwnKey(tx, v)
    requires forall j :: 0 <= j < |b.txs| && b.txs[j].id == tx.id ==> b.txs[j] == tx
    ensures CreatesOnly(BlockEvents(b), KeyOf(tx.id, v), NewRecord(tx.id, v, tx.vout[v], b.height))
  {
    var es, k := BlockEvents(b), KeyOf(tx.id, v);
    forall i | 0 <= i < |es| && es[i].Create? && RecordKey(es[i].record) == k
      ensures es[i].record == NewRecord(tx.id, v, tx.vout[v], b.height)
    {
      TxsFrom(b.txs, b.height, i);
      var j, u :| 0 <= j < |b.txs| && 0 <= u < |b.txs[j].vout| &&
                  es[i].record == NewRecord(b.txs[j].id, u, b.txs[j].vout[u], b.height);
      assert b.txs[j] == tx;
    }
  }

  /** A block without the transaction creates nothing under the key. */
  lemma BlockCreatesNone(b: Block, k: Key, r: Record)
    requires forall j :: 0 <= j < |b.txs| ==> b.txs[j].id != k.txID
    ensures CreatesOnly(BlockEvents(b), k, r)
  {
    var es := BlockEvents(b);
    if CreatesKey(es, k) {
      var i :| 0 <= i < |es| && es[i].Create? && RecordKey(es[i].record) == k;
      TxsFrom(b.txs, b.height, i);
      assert false;
    }
  }

  /** Only block `n` holds a transaction with this ID, and only `tx`. */
  predicate HeldOnlyAt(blocks: seq<Block>, n: nat, tx: Transaction)
    requires n < |blocks|
  {
    forall m, j :: 0 <= m < |blocks| && 0 <= j < |blocks[m].txs| && blocks[m].txs[j].id == tx.id ==>
      m == n && blocks[m].txs[j] == tx
  }

  lemma {:induction false} RunCreatesOnly(blocks: seq<Block>, upTo: nat, n: nat, tx: Transaction, v: nat)
    requires n < |blocks| && upTo <= |blocks| && v < |tx.vout| && OwnKey(tx, v) && HeldOnlyAt(blocks, n, tx)
    ensures CreatesOnly(ChainEvents(blocks[..upTo]), KeyOf(tx.id, v), NewRecord(tx.id, v, tx.vout[v], blocks[n].height))
  {
    if upTo > 0 {
      var b := blocks[upTo - 1];
      RunCreatesOnly(blocks, upTo - 1, n, tx, v);
      assert blocks[..upTo][..upTo - 1] == blocks[..upTo - 1];
      if upTo - 1 == n {
        BlockCreatesOnly(b, tx, v);
      } else {
        BlockCreatesNone(b, KeyOf(tx.id, v), NewRecord(tx.id, v, tx.vout[v], blocks[n].height));
      }
    }
  }

  /** Every transaction of a run but the one of genesis is in one block, and IDs are unique. */
  lemma {:induction false} BlockOf(g: Block, blocks: seq<Block>, tx: Transaction) returns (n: nat)
    requires UniqueIds(Chronicle(g, blocks)) && tx in Chronicle(g, blocks) && tx !in g.txs
    ensures n < |blocks| && tx in blocks[n].txs && HeldOnlyAt(blocks, n, tx)
  {
    var last := |blocks| - 1;
    var all, txs := Chronicle(g, blocks[..last]), blocks[last].txs;
    UniqueParts(txs, all);
    if tx in all {
      n := BlockOf(g, blocks[..last], tx);
      forall j | 0 <= j < |txs| ensures txs[j].id != tx.id {
        IdsApart(all, txs, tx, txs[j]);
      }
    } else {
      n := last;
      forall m, j | 0 <= m < last && 0 <= j < |blocks[m].txs| ensures blocks[m].txs[j].id != tx.id {
        InChronicle(g, blocks[..last], m, j);
        IdsApart(all, txs, blocks[m].txs[j], tx);
      }
    }
  }

  lemma IdsApart(a: seq<Transaction>, b: seq<Transaction>, x: Transaction, y: Transaction)
    requires UniqueIds(a + b) && x in a && y in b
    ensures x.id != y.id
  {
    var i :| 0 <= i < |a| && a[i] == x;
    var j :| 0 <= j < |b| && b[j] == y;
    assert (a + b)[i] == x && (a + b)[|a| + j] == y;
  }

  lemma {:induction false} InChronicle(g: Block, blocks: seq<Block>, m: nat, j: nat)
    requires m < |blocks| && j < |blocks[m].txs|
    ensures blocks[m].txs[j] in Chronicle(g, blocks)
  {
    var last := |blocks| - 1;
    if m < last {
      InChronicle(g, blocks[..last], m, j);
    }
  }

  // ---------- Created pending ----------

  lemma {:induction false} OutputsPending(id: Bytes, outs: Outputs, height: int)
    ensures CreatesPending(OutputEvents(id, outs, height))
  {
    if outs != [] {
      OutputsPending(id, outs[..|outs| - 1], height);
    }
  }

  lemma {:induction false} InputsPending(id: Bytes, vin: seq<TxInput>)
    ensures CreatesPending(InputEvents(id, vin))
  {
    if vin != [] {
      InputsPending(id, vin[..|vin| - 1]);
    }
  }

  lemma {:induction false} TxsPending(txs: seq<Transaction>, height: int)
    ensures CreatesPending(TxEvents(txs, height))
  {
    if txs != [] {
      var last := txs[|txs| - 1];
      TxsPending(txs[..|txs| - 1], height);
      OutputsPending(last.id, last.vout, height);
      InputsPending(last.id, last.vin);
    }
  }

  lemma {:induction false} ChainPending(bs: seq<Block>)
    ensures CreatesPending(ChainEvents(bs))
  {
    if bs != [] {
      ChainPending(bs[..|bs| - 1]);
      TxsPending(bs[|bs| - 1].txs, bs[|bs| - 1].height);
    }
  }

  // ---------- On a mining run ----------

  lemma InputIsNamed(all: seq<Transaction>, j: nat, i: nat)
    requires j < |all| && !all[j].IsCoinbase() && i < |all[j].vin|
    ensures all[j].vin[i].vout in Named(all, all[j].vin[i].txid)
  {
    var input := all[j].vin[i];
    assert all[..j + 1][..j] == all[..j];
    assert OutpointOf(input) in SpentBy(all[..j + 1]);
    SpentByMonotone(all, j + 1);
    NamedIsSpent(all, input.txid, input.vout);
  }

  lemma KeyMatchesInput(all: seq<Transaction>, a: nat, v: nat, j: nat, i: nat)
    requires a < |all| && j < |all| && i < |all[j].vin| && ProperEntry(all, a)
    requires v < |all[a].vout| && OwnKey(all[a], v)
    ensures var input := all[j].vin[i];
            KeyOf(input.txid, input.vout) == KeyOf(all[a].id, v) <==>
            !all[j].IsCoinbase() && OutpointOf(input) == Outpoint(all[a].id, v)
  {
    var input := all[j].vin[i];
    if !all[j].IsCoinbase() && input.txid == all[a].id {
      InputIsNamed(all, j, i);
      var named := Named(all, input.txid);
      var n :| 0 <= n < |named| && named[n] == input.vout;
    }
  }

  lemma KeysMatch(all: seq<Transaction>, a: nat, v: nat, j: nat)
    requires a < |all| && j < |all| && ProperEntry(all, a)
    requires v < |all[a].vout| && OwnKey(all[a], v)
    ensures KeyMatches(all[j], KeyOf(all[a].id, v), Outpoint(all[a].id, v))
  {
    forall i | 0 <= i < |all[j].vin|
      ensures KeyOf(all[j].vin[i].txid, all[j].vin[i].vout) == KeyOf(all[a].id, v) <==>
              !all[j].IsCoinbase() && OutpointOf(all[j].vin[i]) == Outpoint(all[a].id, v)
    {
      KeyMatchesInput(all, a, v, j, i);
    }
  }

  lemma HistoryReadable(all: seq<Transaction>, walk: seq<Transaction>, a: nat, v: nat)
    requires IsHistory(all, walk) && a < |all| && v < |all[a].vout| && OwnKey(all[a], v)
    ensures Readable([], all, KeyOf(all[a].id, v), Outpoint(all[a].id, v))
  {
    var id, p := all[a].id, Outpoint(all[a].id, v);
    assert ProperEntry(all, a);
    forall j | 0 <= j < |all|
      ensures KeyMatches(all[j], KeyOf(id, v), p) && (all[j].id == id ==> Namers([] + all[..j], p) == [])
    {
      KeysMatch(all, a, v, j);
      if all[j].id == id {
        assert ProperEntry(all, j);
        NamedPrefix(all[..j + 1], j, id);
        assert all[..j + 1][..j] == all[..j] == [] + all[..j];
        NamersOnce(all[..j], p);
      }
    }
  }

  lemma {:induction false} NamerIn(vin: seq<TxInput>, p: Outpoint, input: TxInput) returns (i: nat)
    requires input in NamersIn(vin, p)
    ensures i < |vin| && vin[i] == input && OutpointOf(input) == p
  {
    var n := |vin| - 1;
    if input in NamersIn(vin[..n], p) {
      i := NamerIn(vin[..n], p, input);
    } else {
      i := n;
    }
  }

  lemma {:induction false} NamerAt(txs: seq<Transaction>, p: Outpoint, input: TxInput) returns (j: nat, i: nat)
    requires input in Namers(txs, p)
    ensures j < |txs| && !txs[j].IsCoinbase() && i < |txs[j].vin| && txs[j].vin[i] == input && OutpointOf(input) == p
  {
    var n := |txs| - 1;
    if input in Namers(txs[..n], p) {
      j, i := NamerAt(txs[..n], p, input);
    } else {
      j := n;
      i := NamerIn(txs[n].vin, p, input);
    }
  }

  /** Every input on the chain that names an output settled it properly, if it is a contract. */
  lemma {:induction false} NamerSettled(c: Suite, g: Block, blocks: seq<Block>, p: Outpoint, input: TxInput)
    returns (height: int)
    requires IsMiningRun(c, g, blocks) && input in Namers(Chronicle(g, blocks), p)
    ensures InputSettles(c, ChainTxs(After(g, blocks)), input, height)
  {
    if blocks == [] {
      var j, i := NamerAt(g.txs, p, input);
      assert false;
    } else {
      var n := |blocks| - 1;
      var front := blocks[..n];
      NamersConcat(Chronicle(g, front), blocks[n].txs, p);
      if input in Namers(Chronicle(g, front), p) {
        height := NamerSettled(c, g, front, p, input);
        assert blocks[..n] == front;
        FoundStays(c, g, blocks, n, input.txid);
        SettlesOnLonger(c, ChainTxs(After(g, front)), ChainTxs(After(g, blocks)), input, height);
      } else {
        var j, i := NamerAt(blocks[n].txs, p, input);
        EveryContractSettledProperly(c, g, blocks, n, j, i);
        height := blocks[n].height - 1;
      }
    }
  }

  /** The ledger took the input for what it says it is, at some height. */
  ghost predicate SettledOnChain(c: Suite, input: TxInput, out: TxOutput) {
    exists height :: SettledProperly(c, input, out, height)
  }

  lemma ReadingOfOne(inputs: seq<TxInput>, o: Option<Record>)
    requires |inputs| == 1 && HasReading(o, LastReading(inputs))
    ensures o.value.status == LedgerKind(inputs[0]) <==> (|inputs[0].escrowWitness| > 0 <==> !inputs[0].isRefund)
  {
    assert inputs[..0] == [] && LastReading([]) == None;
  }

  /** The record the index holds for a contract output after a run. */
  lemma RecordAfterRun(c: Suite, g: Block, blocks: seq<Block>, a: nat, v: nat) returns (n: nat)
    requires OnceRun(c, g, blocks) && a < |Chronicle(g, blocks)|
    requires var tx := Chronicle(g, blocks)[a]; v < |tx.vout| && IsContract(tx.vout[v]) && OwnKey(tx, v)
    ensures var all := Chronicle(g, blocks);
            var tx, namers := all[a], Namers(all, Outpoint(all[a].id, v));
            var o := Look(Process(map[], blocks), KeyOf(tx.id, v));
            |namers| <= 1 && HasReading(o, LastReading(namers)) &&
            n < |blocks| && tx in blocks[n].txs && Terms(o.value) == NewRecord(tx.id, v, tx.vout[v], blocks[n].height)
  {
    var all, walk := Chronicle(g, blocks), ChainTxs(After(g, blocks));
    var es, k, p := ChainEvents(blocks), KeyOf(all[a].id, v), Outpoint(all[a].id, v);
    RunHistory(c, g, blocks);
    NotInGenesis(g, all[a], v);
    n := BlockOf(g, blocks, all[a]);
    RunCreates(blocks, all[a], v, n);
    EachKeyAlone(map[], es, k);
    ReadAfterRun(g, blocks, walk, a, v);
    TermsAfterRun(blocks, n, all[a], v);
    assert ProperEntry(all, a);
    NamersOnce(all, p);
  }

  lemma NotInGenesis(g: Block, tx: Transaction, v: nat)
    requires IsGenesis(g) && v < |tx.vout| && IsContract(tx.vout[v])
    ensures tx !in g.txs
  {
  }

  lemma ReadAfterRun(g: Block, blocks: seq<Block>, walk: seq<Transaction>, a: nat, v: nat)
    requires var all := Chronicle(g, blocks);
             IsGenesis(g) && IsHistory(all, walk) && a < |all| && v < |all[a].vout| && OwnKey(all[a], v) &&
             CreatesKey(ChainEvents(blocks), KeyOf(all[a].id, v))
    ensures var all := Chronicle(g, blocks);
            var k := KeyOf(all[a].id, v);
            HasReading(ApplyAllAt(k, None, ChainEvents(blocks)), LastReading(Namers(all, Outpoint(all[a].id, v))))
  {
    var all := Chronicle(g, blocks);
    var k, p := KeyOf(all[a].id, v), Outpoint(all[a].id, v);
    HistoryReadable(all, walk, a, v);
    RunRead(g, blocks, k, p);
    ChainPending(blocks);
    StatusIsReading(k, ChainEvents(blocks));
  }

  lemma TermsAfterRun(blocks: seq<Block>, n: nat, tx: Transaction, v: nat)
    requires n < |blocks| && HeldOnlyAt(blocks, n, tx) && v < |tx.vout| && OwnKey(tx, v)
    requires CreatesKey(ChainEvents(blocks), KeyOf(tx.id, v))
    ensures var o := ApplyAllAt(KeyOf(tx.id, v), None, ChainEvents(blocks));
            o.Some? && Terms(o.value) == NewRecord(tx.id, v, tx.vout[v], blocks[n].height)
  {
    RunCreatesOnly(blocks, |blocks|, n, tx, v);
    assert blocks[..|blocks|] == blocks;
    TermsAreKept(KeyOf(tx.id, v), NewRecord(tx.id, v, tx.vout[v], blocks[n].height), ChainEvents(blocks));
  }

  /** The record shows the output's own terms, and the height of the block that holds it. */
  predicate HasTerms(r: Record, blocks: seq<Block>, tx: Transaction, v: nat)
    requires v < |tx.vout|
  {
    exists n :: 0 <= n < |blocks| && tx in blocks[n].txs &&
                Shows(r, tx.id, v, tx.vout[v], blocks[n].height)
  }

  /** After indexing the blocks of a mining run without double spends from height 1 on, for every
      contract output whose key is its own: its record shows its terms, and at most one input on the
      chain names it. Without one the record is pending or expired. With one, which the ledger
      accepted as a proper claim or refund, the record has the ledger's kind of settlement exactly
      when the input carries a witness if and only if it is not a refund. */
  lemma IndexAgreesWithLedger(c: Suite, g: Block, blocks: seq<Block>, a: nat, v: nat)
    requires OnceRun(c, g, blocks) && a < |Chronicle(g, blocks)|
    requires var tx := Chronicle(g, blocks)[a]; v < |tx.vout| && IsContract(tx.vout[v]) && OwnKey(tx, v)
    ensures var tx := Chronicle(g, blocks)[a];
            var namers := Namers(Chronicle(g, blocks), Outpoint(tx.id, v));
            var o := Look(Process(map[], blocks), KeyOf(tx.id, v));
            o.Some? && HasTerms(o.value, blocks, tx, v) && |namers| <= 1 &&
            (namers == [] ==> o.value.status == Pending || o.value.status == Expired) &&
            (namers != [] ==>
               SettledOnChain(c, namers[0], tx.vout[v]) &&
               (o.value.status == LedgerKind(namers[0]) <==> (|namers[0].escrowWitness| > 0 <==> !namers[0].isRefund)))
  {
    var all := Chronicle(g, blocks);
    var namers := Namers(all, Outpoint(all[a].id, v));
    var n := RecordAfterRun(c, g, blocks, a, v);
    if namers != [] {
      ReadingOfOne(namers, Look(Process(map[], blocks), KeyOf(all[a].id, v)));
      OneNamerSettled(c, g, blocks, a, v, namers[0]);
    }
  }

  lemma OneNamerSettled(c: Suite, g: Block, blocks: seq<Block>, a: nat, v: nat, input: TxInput)
    requires OnceRun(c, g, blocks) && a < |Chronicle(g, blocks)|
    requires var tx := Chronicle(g, blocks)[a];
             v < |tx.vout| && IsContract(tx.vout[v]) && input in Namers(Chronicle(g, blocks), Outpoint(tx.id, v))
    ensures SettledOnChain(c, input, Chronicle(g, blocks)[a].vout[v])
  {
    var all, walk := Chronicle(g, blocks), ChainTxs(After(g, blocks));
    var p := Outpoint(all[a].id, v);
    RunHistory(c, g, blocks);
    MiningRun(c, g, blocks);
    assert all[a] in walk;
    var w :| 0 <= w < |walk| && walk[w] == all[a];
    FindUnique(walk, w);
    var j, i := NamerAt(all, p, input);
    var height := NamerSettled(c, g, blocks, p, input);
    assert SettledProperly(c, input, all[a].vout[v], height);
  }
}
