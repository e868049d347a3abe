/** The escrow table of internal/indexer as a fold of events over blocks. */
module EscrowIndex {
  import opened Prelude
  import opened Ledger
  import opened Transactions

  datatype Status = Pending | Claimed | Refunded | Expired

  datatype Record = Record(
    txID: Bytes,
    vout: int,
    amount: int64,
    seller: Bytes,
    buyer: Bytes,
    dataHashLock: Bytes,
    timeoutBlock: int64,
    status: Status,
    createdAt: int,
    claimedTxID: Bytes,
    preimage: Bytes,
    refundedTxID: Bytes)

  /** store.go escrowKey: the transaction ID and the output index reduced to one byte. */
  datatype Key = Key(txID: Bytes, vout: byte)

  function KeyOf(txID: Bytes, vout: int): Key {
    Key(txID, vout % 256)
  }

  function RecordKey(r: Record): Key {
    KeyOf(r.txID, r.vout)
  }

  type EscrowTable = map<Key, Record>

  // ---------- Events ----------

  datatype Event =
    | Create(record: Record)
    | Spend(key: Key, input: TxInput, spender: Bytes)
    | Tick(height: int)

  function NewRecord(txID: Bytes, vout: int, out: TxOutput, height: int): Record {
    Record(txID, vout, out.value, out.pubKeyHash, out.buyerPubKeyHash, out.dataHashLock, out.timeoutBlock,
           Pending, height, [], [], [])
  }

  /** A claim if the input carries a witness, a refund if it is flagged as one, else nothing. */
  function Settle(r: Record, input: TxInput, spender: Bytes): Record {
    if |input.escrowWitness| > 0 then r.(status := Claimed, claimedTxID := spender, preimage := input.escrowWitness)
    else if input.isRefund then r.(status := Refunded, refundedTxID := spender)
    else r
  }

  function Expire(r: Record, height: int): Record {
    if r.status == Pending && height >= r.timeoutBlock then r.(status := Expired) else r
  }

  function OutputEvents(txID: Bytes, outs: seq<TxOutput>, height: int): seq<Event> {
    if outs == [] then []
    else
      var n := |outs| - 1;
      OutputEvents(txID, outs[..n], height) +
      if IsContract(outs[n]) then [Create(NewRecord(txID, n, outs[n], height))] else []
  }

  function InputEvents(txID: Bytes, vin: seq<TxInput>): seq<Event> {
    if vin == [] then []
    else
      var last := vin[|vin| - 1];
      InputEvents(txID, vin[..|vin| - 1]) + [Spend(KeyOf(last.txid, last.vout), last, txID)]
  }

  function TxEvents(txs: seq<Transaction>, height: int): seq<Event> {
    if txs == [] then []
    else
      var tx := txs[|txs| - 1];
      TxEvents(txs[..|txs| - 1], height) + OutputEvents(tx.id, tx.vout, height) + InputEvents(tx.id, tx.vin)
  }

  /** indexer.go ProcessBlock: each transaction's outputs, then its inputs; expiry at the end. */
  function BlockEvents(b: Block): seq<Event> {
    TxEvents(b.txs, b.height) + [Tick(b.height)]
  }

  function ChainEvents(blocks: seq<Block>): seq<Event> {
    if blocks == [] then [] else ChainEvents(blocks[..|blocks| - 1]) + BlockEvents(blocks[|blocks| - 1])
  }

  function Apply(t: EscrowTable, e: Event): EscrowTable {
    match e
    case Create(r) => t[RecordKey(r) := r]
    case Spend(k, input, spender) => if k in t then t[k := Settle(t[k], input, spender)] else t
    case Tick(h) => map k | k in t :: Expire(t[k], h)
  }

  function ApplyAll(t: EscrowTable, es: seq<Event>): EscrowTable {
    if es == [] then t else Apply(ApplyAll(t, es[..|es| - 1]), es[|es| - 1])
  }

  lemma {:induction false} ApplyAllConcat(t: EscrowTable, a: seq<Event>, b: seq<Event>)
    ensures ApplyAll(t, a + b) == ApplyAll(ApplyAll(t, a), b)
  {
    if b == [] {
      assert a + b == a;
    } else {
      ApplyAllConcat(t, a, b[..|b| - 1]);
      assert (a + b)[..|a + b| - 1] == a + b[..|b| - 1];
    }
  }

  // ---------- One key at a time ----------

  function Look(t: EscrowTable, k: Key): Option<Record> {
    if k in t then Some(t[k]) else None
  }

  function ApplyAt(k: Key, o: Option<Record>, e: Event): Option<Record> {
    match e
    case Create(r) => if RecordKey(r) == k then Some(r) else o
    case Spend(k', input, spender) => if k' == k && o.Some? then Some(Settle(o.value, input, spender)) else o
    case Tick(h) => if o.Some? then Some(Expire(o.value, h)) else None
  }

  function ApplyAllAt(k: Key, o: Option<Record>, es: seq<Event>): Option<Record> {
    if es == [] then o else ApplyAt(k, ApplyAllAt(k, o, es[..|es| - 1]), es[|es| - 1])
  }

  lemma {:induction false} EachKeyAlone(t: EscrowTable, es: seq<Event>, k: Key)
    ensures Look(ApplyAll(t, es), k) == ApplyAllAt(k, Look(t, k), es)
  {
    if es != [] {
      EachKeyAlone(t, es[..|es| - 1], k);
    }
  }

  predicate CreatesKey(es: seq<Event>, k: Key) {
    exists i :: 0 <= i < |es| && es[i].Create? && RecordKey(es[i].record) == k
  }

  lemma CreatesLast(es: seq<Event>, k: Key)
    requires es != []
    ensures CreatesKey(es, k) <==>
            CreatesKey(es[..|es| - 1], k) || (es[|es| - 1].Create? && RecordKey(es[|es| - 1].record) == k)
  {
    var n := |es| - 1;
    if CreatesKey(es[..n], k) {
      var i :| 0 <= i < n && es[..n][i].Create? && RecordKey(es[..n][i].record) == k;
      assert es[i].Create?;
    }
    if CreatesKey(es, k) {
      var i :| 0 <= i < |es| && es[i].Create? && RecordKey(es[i].record) == k;
      assert i < n ==> es[..n][i].Create?;
    }
  }

  /** A creation forgets whatever the table held for its key before. */
  lemma {:induction false} CreationForgets(k: Key, a: Option<Record>, b: Option<Record>, es: seq<Event>)
    requires CreatesKey(es, k)
    ensures ApplyAllAt(k, a, es) == ApplyAllAt(k, b, es)
  {
    CreatesLast(es, k);
    if CreatesKey(es[..|es| - 1], k) {
      CreationForgets(k, a, b, es[..|es| - 1]);
    }
  }

  lemma {:induction false} NeverCreated(k: Key, es: seq<Event>)
    requires !CreatesKey(es, k)
    ensures ApplyAllAt(k, None, es) == None
  {
    if es != [] {
      CreatesLast(es, k);
      NeverCreated(k, es[..|es| - 1]);
    }
  }

  // ---------- Replay ----------

  function Process(t: EscrowTable, blocks: seq<Block>): EscrowTable {
    ApplyAll(t, ChainEvents(blocks))
  }

  /** Whatever was left of earlier, interrupted passes, a full pass gives the same table as a
      first one, provided it creates every key the table holds. */
  lemma FullPassForgets(t: EscrowTable, es: seq<Event>)
    requires forall k :: k in t ==> CreatesKey(es, k)
    ensures ApplyAll(t, es) == ApplyAll(map[], es)
  {
    var a, b := ApplyAll(t, es), ApplyAll(map[], es);
    forall k ensures Look(a, k) == Look(b, k) {
      EachKeyAlone(t, es, k);
      EachKeyAlone(map[], es, k);
      if k in t {
        CreationForgets(k, Look(t, k), None, es);
      }
    }
    forall k | k in a || k in b ensures k in a && k in b && a[k] == b[k] {
      assert Look(a, k) == Look(b, k);
    }
  }

  /** A table holds only keys that were created. */
  lemma KeysWereCreated(t: EscrowTable, es: seq<Event>, k: Key)
    requires k in ApplyAll(t, es)
    ensures k in t || CreatesKey(es, k)
  {
    EachKeyAlone(t, es, k);
    if k !in t && !CreatesKey(es, k) {
      NeverCreated(k, es);
    }
  }

  lemma {:induction false} PrefixEvents(blocks: seq<Block>, n: nat)
    requires n <= |blocks|
    ensures ChainEvents(blocks[..n]) <= ChainEvents(blocks)
  {
    if n < |blocks| {
      PrefixEvents(blocks[..|blocks| - 1], n);
      assert blocks[..|blocks| - 1][..n] == blocks[..n];
    } else {
      assert blocks[..n] == blocks;
    }
  }

  /** The stream restarts at the beginning after each reconnect: pass `i` gets as far as
      `cuts[i]` blocks. */
  function Passes(t: EscrowTable, blocks: seq<Block>, cuts: seq<nat>): EscrowTable
    requires forall i :: 0 <= i < |cuts| ==> cuts[i] <= |blocks|
  {
    if cuts == [] then t
    else Process(Passes(t, blocks, cuts[..|cuts| - 1]), blocks[..cuts[|cuts| - 1]])
  }

  lemma {:induction false} PassesHoldCreatedKeys(blocks: seq<Block>, cuts: seq<nat>, k: Key)
    requires forall i :: 0 <= i < |cuts| ==> cuts[i] <= |blocks|
    requires k in Passes(map[], blocks, cuts)
    ensures CreatesKey(ChainEvents(blocks), k)
  {
    if cuts != [] {
      var n := |cuts| - 1;
      var before, part := Passes(map[], blocks, cuts[..n]), ChainEvents(blocks[..cuts[n]]);
      KeysWereCreated(before, part, k);
      if k in before {
        PassesHoldCreatedKeys(blocks, cuts[..n], k);
      } else {
        PrefixEvents(blocks, cuts[n]);
        var i :| 0 <= i < |part| && part[i].Create? && RecordKey(part[i].record) == k;
        assert ChainEvents(blocks)[i].Create?;
      }
    }
  }

  /** However often and wherever the stream broke before, one complete pass leaves exactly the
      escrow table of a single pass from an empty store. */
  lemma ReplayIsIdempotent(blocks: seq<Block>, cuts: seq<nat>)
    requires forall i :: 0 <= i < |cuts| ==> cuts[i] <= |blocks|
    ensures Process(Passes(map[], blocks, cuts), blocks) == Process(map[], blocks)
  {
    var t := Passes(map[], blocks, cuts);
    forall k | k in t ensures CreatesKey(ChainEvents(blocks), k) {
      PassesHoldCreatedKeys(blocks, cuts, k);
    }
    FullPassForgets(t, ChainEvents(blocks));
  }

  // ---------- What a status means ----------

  predicate Settles(e: Event, k: Key) {
    e.Spend? && e.key == k && (|e.input.escrowWitness| > 0 || e.input.isRefund)
  }

  /** The status an escrow ends with when nothing recreates it: that of the last input that
      settles it; failing that, expired if some block reached its timeout. */
  function MeantStatus(k: Key, timeout: int, es: seq<Event>): Status {
    if es == [] then Pending
    else
      var e, before := es[|es| - 1], MeantStatus(k, timeout, es[..|es| - 1]);
      if Settles(e, k) then if |e.input.escrowWitness| > 0 then Claimed else Refunded
      else if e.Tick? && e.height >= timeout && before == Pending then Expired
      else before
  }

  predicate SettledIn(k: Key, es: seq<Event>) {
    exists i :: 0 <= i < |es| && Settles(es[i], k)
  }

  predicate TimedOutIn(timeout: int, es: seq<Event>) {
    exists i :: 0 <= i < |es| && es[i].Tick? && es[i].height >= timeout
  }

  /** The terms of the escrow, which no event changes. */
  function Terms(r: Record): Record {
    r.(status := Pending, claimedTxID := [], preimage := [], refundedTxID := [])
  }

  /** The record names the transaction that settled it last, and the preimage of a claim. */
  predicate NamesSettler(r: Record, e: Event)
    requires e.Spend?
  {
    if |e.input.escrowWitness| > 0 then r.claimedTxID == e.spender && r.preimage == e.input.escrowWitness
    else r.refundedTxID == e.spender
  }

  /** From its creation on, an escrow keeps its terms, has the status the events mean, and names
      its last settler. */
  lemma {:induction false} StatusIsMeant(k: Key, r: Record, es: seq<Event>)
    requires r.status == Pending && !CreatesKey(es, k)
    ensures var o := ApplyAllAt(k, Some(r), es);
            o.Some? && Terms(o.value) == Terms(r) && o.value.status == MeantStatus(k, r.timeoutBlock, es) &&
            forall i :: 0 <= i < |es| && IsLastSettlement(k, es, i) ==> NamesSettler(o.value, es[i])
  {
    if es != [] {
      var n := |es| - 1;
      CreatesLast(es, k);
      StatusIsMeant(k, r, es[..n]);
      forall i | 0 <= i < n && IsLastSettlement(k, es, i) ensures IsLastSettlement(k, es[..n], i) {
        assert es[..n][i] == es[i];
        assert forall j :: i < j < n ==> es[..n][j] == es[j];
      }
    }
  }

  /** Read off the events: pending means neither settled nor timed out, expired means timed out
      and never settled, and claimed or refunded names the kind of the last settlement. */
  lemma {:induction false} MeantStatusIsRight(k: Key, timeout: int, es: seq<Event>)
    ensures var s := MeantStatus(k, timeout, es);
            (s == Pending <==> !SettledIn(k, es) && !TimedOutIn(timeout, es)) &&
            (s == Expired <==> !SettledIn(k, es) && TimedOutIn(timeout, es)) &&
            (s == Claimed || s == Refunded <==> SettledIn(k, es)) &&
            (SettledIn(k, es) ==> LastSettles(k, es, s))
  {
    if es != [] {
      var n := |es| - 1;
      var front := es[..n];
      MeantStatusIsRight(k, timeout, front);
      LastEvent(k, timeout, es);
      if SettledIn(k, front) && !Settles(es[n], k) {
        var i :| 0 <= i < n && IsLastSettlement(k, front, i);
        assert IsLastSettlement(k, es, i);
      } else if Settles(es[n], k) {
        assert IsLastSettlement(k, es, n);
      }
    }
  }

  predicate IsLastSettlement(k: Key, es: seq<Event>, i: int) {
    0 <= i < |es| && Settles(es[i], k) && forall j :: i < j < |es| ==> !Settles(es[j], k)
  }

  /** The last settling input is a claim exactly when the status says so. */
  predicate LastSettles(k: Key, es: seq<Event>, s: Status) {
    exists i :: 0 <= i < |es| && IsLastSettlement(k, es, i) && (s == Claimed <==> |es[i].input.escrowWitness| > 0)
  }

  lemma LastEvent(k: Key, timeout: int, es: seq<Event>)
    requires es != []
    ensures SettledIn(k, es) <==> SettledIn(k, es[..|es| - 1]) || Settles(es[|es| - 1], k)
    ensures var e := es[|es| - 1];
            TimedOutIn(timeout, es) <==> TimedOutIn(timeout, es[..|es| - 1]) || (e.Tick? && e.height >= timeout)
  {
    var n := |es| - 1;
    assert forall i :: 0 <= i < n ==> es[..n][i] == es[i];
    if SettledIn(k, es[..n]) {
      var i :| 0 <= i < n && Settles(es[..n][i], k);
      assert Settles(es[i], k);
    }
    if SettledIn(k, es) {
      var i :| 0 <= i < |es| && Settles(es[i], k);
      assert i < n ==> Settles(es[..n][i], k);
    }
    if TimedOutIn(timeout, es[..n]) {
      var i :| 0 <= i < n && es[..n][i].Tick? && es[..n][i].height >= timeout;
      assert es[i].Tick?;
    }
    if TimedOutIn(timeout, es) {
      var i :| 0 <= i < |es| && es[i].Tick? && es[i].height >= timeout;
      assert i < n ==> es[..n][i].Tick?;
    }
  }

  // ---------- Outputs that share a key ----------

  /** A contract output after `v` with the key of `v`. */
  predicate SharesKey(id: Bytes, outs: seq<TxOutput>, v: int, w: int) {
    0 <= v < w < |outs| && IsContract(outs[w]) && KeyOf(id, w) == KeyOf(id, v)
  }

  /** Of several contract outputs under one key, such as outputs 256 apart, the record shows the
      latest. */
  lemma {:induction false} LatestTakesKey(t: EscrowTable, id: Bytes, outs: seq<TxOutput>, height: int, w: nat)
    requires w < |outs| && IsContract(outs[w]) && forall u :: !SharesKey(id, outs, w, u)
    ensures Look(ApplyAll(t, OutputEvents(id, outs, height)), KeyOf(id, w)) == Some(NewRecord(id, w, outs[w], height))
  {
    var n := |outs| - 1;
    if w < n {
      forall u ensures !SharesKey(id, outs[..n], w, u) {
        assert !SharesKey(id, outs, w, u);
      }
      LatestTakesKey(t, id, outs[..n], height, w);
      assert !SharesKey(id, outs, w, n);
    }
    LastOutputAt(t, id, outs, height, KeyOf(id, w));
  }

  lemma LastOutputAt(t: EscrowTable, id: Bytes, outs: seq<TxOutput>, height: int, k: Key)
    requires outs != []
    ensures var n := |outs| - 1;
            Look(ApplyAll(t, OutputEvents(id, outs, height)), k) ==
            if IsContract(outs[n]) && KeyOf(id, n) == k then Some(NewRecord(id, n, outs[n], height))
            else Look(ApplyAll(t, OutputEvents(id, outs[..n], height)), k)
  {
    var n := |outs| - 1;
    var front := OutputEvents(id, outs[..n], height);
    if IsContract(outs[n]) {
      assert (front + [Create(NewRecord(id, n, outs[n], height))])[..|front|] == front;
    } else {
      assert OutputEvents(id, outs, height) == front;
    }
  }

  lemma {:induction false} LatestSharer(id: Bytes, outs: seq<TxOutput>, v: nat, w: nat) returns (last: nat)
    requires SharesKey(id, outs, v, w)
    ensures SharesKey(id, outs, v, last) && forall u :: !SharesKey(id, outs, last, u)
    decreases |outs| - w
  {
    if u :| SharesKey(id, outs, w, u) {
      last := LatestSharer(id, outs, v, u);
    } else {
      last := w;
    }
  }

  /** The record shows output `v` of transaction `id`: who may claim it, who may be refunded, what is
      at stake, and until when. */
  predicate Shows(r: Record, id: Bytes, v: int, out: TxOutput, height: int) {
    r.txID == id && r.vout == v && r.amount == out.value && r.seller == out.pubKeyHash &&
    r.buyer == out.buyerPubKeyHash && r.dataHashLock == out.dataHashLock && r.timeoutBlock == out.timeoutBlock &&
    r.createdAt == height
  }

  /** So a contract output has its record, pending and with no settler, exactly when no later contract
      output shares its key. */
  lemma OwnRecordExactly(t: EscrowTable, id: Bytes, outs: seq<TxOutput>, height: int, v: nat)
    requires v < |outs| && IsContract(outs[v])
    ensures var o := Look(ApplyAll(t, OutputEvents(id, outs, height)), KeyOf(id, v));
            (o.Some? && Shows(o.value, id, v, outs[v], height) && o.value.status == Pending &&
             o.value.claimedTxID == o.value.preimage == o.value.refundedTxID == []) <==>
            forall w :: !SharesKey(id, outs, v, w)
  {
    if w :| SharesKey(id, outs, v, w) {
      var last := LatestSharer(id, outs, v, w);
      LatestTakesKey(t, id, outs, height, last);
    } else {
      LatestTakesKey(t, id, outs, height, v);
    }
  }

  // ---------- The index and the ledger ----------

  /** What Verify makes of a settling input: the refund flag alone decides. */
  function LedgerKind(input: TxInput): Status {
    if input.isRefund then Refunded else Claimed
  }

  /** The same transaction with another witness in input `i`. */
  function WithWitness(tx: Transaction, i: nat, data: Bytes): Transaction
    requires i < |tx.vin|
  {
    tx.(vin := tx.vin[i := tx.vin[i].(escrowWitness := data)])
  }

  /** A refund may carry any witness: neither the script nor the signed message looks at it. The
      ledger goes on accepting the transaction, and the index records a claim. */
  lemma WitnessedRefundIsMisread(c: Suite, r: Record, tx: Transaction, prev: PrevTxs, height: int, i: nat, data: Bytes,
                                 spender: Bytes)
    requires VerifyVerdict(c, tx, prev, height).Accepted? && !tx.IsCoinbase() && i < |tx.vin| && tx.vin[i].isRefund
    requires data != []
    ensures var tx' := WithWitness(tx, i, data);
            VerifyVerdict(c, tx', prev, height).Accepted? && LedgerKind(tx'.vin[i]) == Refunded &&
            Settle(r, tx'.vin[i], spender).status == Claimed
  {
    var tx' := WithWitness(tx, i, data);
    assert Trimmed(tx') == Trimmed(tx);
    assert InputValues(prev, tx'.vin) == InputValues(prev, tx.vin);
    forall j | 0 <= j < |tx'.vin| ensures InputOk(c, tx', prev, height, j) {
      assert InputOk(c, tx, prev, height, j);
    }
  }

  // ---------- Expiry ----------

  /** After any pass over blocks of nondecreasing height, a pending escrow's timeout is above
      every processed height. */
  lemma PendingIsNotDue(t: EscrowTable, blocks: seq<Block>, k: Key, i: nat)
    requires i < |blocks| && forall a, b :: 0 <= a < b < |blocks| ==> blocks[a].height <= blocks[b].height
    requires k in Process(t, blocks) && Process(t, blocks)[k].status == Pending
    ensures Process(t, blocks)[k].timeoutBlock > blocks[i].height
  {
    var n := |blocks| - 1;
    var es := ChainEvents(blocks);
    assert es[|es| - 1] == Tick(blocks[n].height);
    var before := ApplyAll(t, es[..|es| - 1]);
    assert Process(t, blocks) == Apply(before, Tick(blocks[n].height));
  }
}
