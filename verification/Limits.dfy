/** The size and value limits of internal/network/grpc_server.go SubmitTransaction, and what
    they do for the 64-bit sums of Transaction.Verify. */
module Limits {
  import opened Prelude
  import opened Ledger
  import opened Transactions
  import opened Signing

  const MAX_TX_BYTES: int := 1024 * 1024
  const MAX_TX_VALUE: int64 := 100_000_000_000

  predicate WithinLimits(c: Suite, tx: Transaction) {
    |c.serialize(tx)| <= MAX_TX_BYTES && forall i :: 0 <= i < |tx.vout| ==> tx.vout[i].value <= MAX_TX_VALUE
  }

  /** grpc_server.go SubmitTransaction, up to the hand-over to the mempool. */
  method CheckLimits(c: Suite, tx: Transaction) returns (ok: bool)
    ensures ok <==> WithinLimits(c, tx)
    ensures ok <==> |c.serialize(tx)| <= 1_048_576 &&
                    forall i :: 0 <= i < |tx.vout| ==> tx.vout[i].value <= 100_000_000_000
  {
    var serialized := c.serialize(tx);
    if |serialized| > MAX_TX_BYTES {
      return false;
    }
    for i := 0 to |tx.vout|
      invariant forall j :: 0 <= j < i ==> tx.vout[j].value <= MAX_TX_VALUE
    {
      if tx.vout[i].value > MAX_TX_VALUE {
        return false;
      }
    }
    ok := true;
  }

  /** Every referenced output is itself within the value limit. */
  predicate InputsWithinLimit(prev: PrevTxs, tx: Transaction) {
    forall i :: 0 <= i < |tx.vin| ==> -MAX_TX_VALUE <= InputValue(prev, tx.vin[i]) <= MAX_TX_VALUE
  }

  lemma ShortSumFits(xs: seq<int>)
    requires |xs| <= MAX_TX_BYTES
    requires forall i :: 0 <= i < |xs| ==> -MAX_TX_VALUE <= xs[i] <= MAX_TX_VALUE
    ensures -TWO63 <= Sum(xs) < TWO63
  {
    SumAtLeast(xs, -MAX_TX_VALUE);
    SumAtMost(xs, MAX_TX_VALUE);
  }

  /** Within the limits neither sum wraps, so Verify's inflation test compares the true sums. */
  lemma LimitsKeepSumsExact(c: Suite, tx: Transaction, prev: PrevTxs)
    requires WithinLimits(c, tx) && InputsWithinLimit(prev, tx)
    requires |tx.vin| + |tx.vout| <= |c.serialize(tx)|
    requires forall i :: 0 <= i < |tx.vout| ==> tx.vout[i].value > 0
    ensures Wrap64(InputTotal(prev, tx)) == InputTotal(prev, tx)
    ensures Wrap64(TotalValue(tx.vout)) == TotalValue(tx.vout)
  {
    ShortSumFits(InputValues(prev, tx.vin));
    ShortSumFits(OutputValues(tx.vout));
  }

  /** Hence an accepted transaction within the limits spends no more than its inputs hold. */
  lemma AcceptedWithinLimits(c: Suite, tx: Transaction, prev: PrevTxs, height: int)
    requires WithinLimits(c, tx) && InputsWithinLimit(prev, tx)
    requires |tx.vin| + |tx.vout| <= |c.serialize(tx)|
    requires !tx.IsCoinbase() && VerifyVerdict(c, tx, prev, height).Accepted?
    ensures TotalValue(tx.vout) <= InputTotal(prev, tx)
  {
    LimitsKeepSumsExact(c, tx, prev);
  }

  /** Verify's inflation test gives the answer of the true comparison. */
  predicate TestIsExact(prev: PrevTxs, tx: Transaction) {
    Wrap64(InputTotal(prev, tx)) >= Wrap64(TotalValue(tx.vout)) <==> InputTotal(prev, tx) >= TotalValue(tx.vout)
  }

  /** Positive outputs, as Verify demands, and totals between zero and the given bounds. */
  predicate TotalsWithin(prev: PrevTxs, tx: Transaction, maxIn: int, maxOut: int) {
    (forall i :: 0 <= i < |tx.vout| ==> tx.vout[i].value > 0) &&
    0 <= InputTotal(prev, tx) <= maxIn && TotalValue(tx.vout) <= maxOut
  }

  ghost predicate ExactWithin(maxIn: int, maxOut: int) {
    forall prev, tx :: TotalsWithin(prev, tx, maxIn, maxOut) ==> TestIsExact(prev, tx)
  }

  /** The test is exact for all transactions whose totals are within two bounds if and only if both
      bounds are below 2^63: a total of exactly 2^63 already fails it, on either side. */
  lemma InflationTestExact(maxIn: int, maxOut: int)
    requires maxIn >= 0 && maxOut >= 0
    ensures ExactWithin(maxIn, maxOut) <==> maxIn < TWO63 && maxOut < TWO63
  {
    if maxIn < TWO63 && maxOut < TWO63 {
      forall prev, tx | TotalsWithin(prev, tx, maxIn, maxOut) ensures TestIsExact(prev, tx) {
        SumAtLeast(OutputValues(tx.vout), 0);
      }
    } else {
      var pair := [Plain(TWO63 - 1), Plain(1)];
      PairTotal(pair);
      var id: Bytes := [0];
      if maxOut >= TWO63 {
        var paysTooMuch := Transaction(id, [], pair);
        assert InputTotal(map[], paysTooMuch) == 0;
        assert TotalsWithin(map[], paysTooMuch, maxIn, maxOut) && !TestIsExact(map[], paysTooMuch);
      } else {
        var prev: PrevTxs := map[id := Transaction(id, [], pair)];
        var holdsTooMuch := Transaction(id, [Spender(id, 0), Spender(id, 1)], []);
        var vs := InputValues(prev, holdsTooMuch.vin);
        assert vs == OutputValues(pair);
        assert TotalValue([]) == 0;
        assert TotalsWithin(prev, holdsTooMuch, maxIn, maxOut) && !TestIsExact(prev, holdsTooMuch);
      }
    }
  }

  function Plain(value: int64): TxOutput {
    TxOutput(value, [], P2PKH, [], 0, [])
  }

  function Spender(id: Bytes, vout: int): TxInput {
    TxInput(id, vout, [], [], [], false)
  }

  /** Spends one output into two of the largest 64-bit value. */
  function Oversized(c: Suite, id: Bytes, txid: Bytes, vout: int, key: PrivateKey): Transaction {
    var input := TxInput(txid, vout, [], c.publicKey(key), [], false);
    var out := TxOutput(TWO63 - 1, [], P2PKH, [], 0, []);
    Transaction(id, [input], [out, out])
  }

  /** Beyond the limits the test does fail: for every suite, key and ordinary output of
      non-negative value there is an accepted transaction that creates value. */
  lemma UnlimitedSumsWrap(c: Suite, prev: PrevTxs, id: Bytes, txid: Bytes, vout: int, key: PrivateKey,
                          entropy: int -> int, height: int)
    requires c.SignaturesVerify()
    requires txid in prev && txid != [] && prev[txid].id != [] && 0 <= vout < |prev[txid].vout|
    requires !IsContract(prev[txid].vout[vout]) && prev[txid].vout[vout].value >= 0
    ensures AllResolve(prev, Oversized(c, id, txid, vout, key).vin)
    ensures var tx := SignedTx(c, Oversized(c, id, txid, vout, key), prev, key, entropy);
            VerifyVerdict(c, tx, prev, height).Accepted? && TotalValue(tx.vout) == 2 * (TWO63 - 1) &&
            InputTotal(prev, tx) == prev[txid].vout[vout].value
  {
    var tx := Oversized(c, id, txid, vout, key);
    var v := prev[txid].vout[vout].value;
    assert Resolves(prev, tx.vin[0]);
    SingleInput(prev, tx.vin);
    assert InputTotal(prev, tx) == v;
    PairTotal(tx.vout);
    assert TotalValue(tx.vout) == 2 * (TWO63 - 1);
    SignThenVerify(c, tx, prev, key, entropy, height);
    var s := SignedTx(c, tx, prev, key, entropy);
    SingleInput(prev, s.vin);
  }

  lemma SingleInput(prev: PrevTxs, vin: seq<TxInput>)
    requires |vin| == 1
    ensures Sum(InputValues(prev, vin)) == InputValue(prev, vin[0])
  {
    var vs := InputValues(prev, vin);
    assert vs[..0] == [];
  }

  lemma PairTotal(outs: seq<TxOutput>)
    requires |outs| == 2
    ensures TotalValue(outs) == outs[0].value + outs[1].value
  {
    var vs := OutputValues(outs);
    var first := vs[..1];
    assert first[..0] == [];
    assert Sum(first) == vs[0];
  }
}
