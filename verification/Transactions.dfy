/** Signing and verification: internal/core/transaction.go, and the script predicates of
    internal/core/transaction_output.go. */
module Transactions {
  import opened Prelude
  import opened Ledger

  type PrevTxs = map<Bytes, Transaction>

  // ---------- Script predicates ----------

  predicate CanClaimEscrow(c: Suite, out: TxOutput, delivered: Bytes, claimer: Bytes) {
    out.scriptType == ESCROW && c.sha256(delivered) == out.dataHashLock && claimer == out.pubKeyHash
  }

  predicate CanClaimZKCP(c: Suite, out: TxOutput, delivered: Bytes, claimer: Bytes) {
    out.scriptType == ZKCP && c.sha256(delivered) == out.dataHashLock && claimer == out.pubKeyHash
  }

  predicate CanRefundEscrow(out: TxOutput, height: int, claimer: Bytes) {
    (out.scriptType == ESCROW || out.scriptType == ZKCP) && height > out.timeoutBlock && claimer == out.buyerPubKeyHash
  }

  predicate IsContract(out: TxOutput) {
    out.scriptType == ESCROW || out.scriptType == ZKCP
  }

  // ---------- What is signed ----------

  function TrimmedInput(input: TxInput): TxInput {
    TxInput(input.txid, input.vout, [], [], [], input.isRefund)
  }

  function TrimmedInputs(vin: seq<TxInput>): (r: seq<TxInput>)
    ensures |r| == |vin|
    ensures forall i :: 0 <= i < |vin| ==> r[i] == TrimmedInput(vin[i])
  {
    seq(|vin|, i requires 0 <= i < |vin| => TrimmedInput(vin[i]))
  }

  /** transaction.go TrimmedCopy: no signatures, keys or witnesses. */
  function Trimmed(tx: Transaction): Transaction {
    Transaction(tx.id, TrimmedInputs(tx.vin), tx.vout)
  }

  predicate Known(prev: PrevTxs, input: TxInput) {
    input.txid in prev && prev[input.txid].id != []
  }

  /** The input names an output that exists; otherwise the lookup indexes out of range. */
  predicate Resolves(prev: PrevTxs, input: TxInput) {
    Known(prev, input) && 0 <= input.vout < |prev[input.txid].vout|
  }

  function PrevOut(prev: PrevTxs, input: TxInput): TxOutput
    requires Resolves(prev, input)
  {
    prev[input.txid].vout[input.vout]
  }

  function ExpectedHash(input: TxInput, out: TxOutput): Bytes {
    if input.isRefund && out.scriptType == ESCROW then out.buyerPubKeyHash else out.pubKeyHash
  }

  /** The message for input `i`: the trimmed transaction with that input's key slot filled. */
  function SigningDigest(c: Suite, tx: Transaction, prev: PrevTxs, i: nat): Digest
    requires i < |tx.vin| && Resolves(prev, tx.vin[i])
  {
    var t := Trimmed(tx);
    var key := ExpectedHash(tx.vin[i], PrevOut(prev, tx.vin[i]));
    c.TxHash(t.(vin := t.vin[i := t.vin[i].(pubKey := key)]))
  }

  // ---------- Verify ----------

  datatype Verdict = Accepted | Rejected | Crashed

  predicate ScriptOk(c: Suite, input: TxInput, out: TxOutput, height: int) {
    IsContract(out) ==>
      var claimer := c.hash160(input.pubKey);
      if input.isRefund then CanRefundEscrow(out, height, claimer)
      else CanClaimEscrow(c, out, input.escrowWitness, claimer) || CanClaimZKCP(c, out, input.escrowWitness, claimer)
  }

  predicate SignatureOk(c: Suite, tx: Transaction, prev: PrevTxs, i: nat)
    requires i < |tx.vin| && Resolves(prev, tx.vin[i])
  {
    var input := tx.vin[i];
    |input.signature| == 64 && |input.pubKey| == 64 &&
    c.checkSignature(input.pubKey, SigningDigest(c, tx, prev, i), input.signature)
  }

  predicate InputOk(c: Suite, tx: Transaction, prev: PrevTxs, height: int, i: nat)
    requires i < |tx.vin|
  {
    Resolves(prev, tx.vin[i]) && SignatureOk(c, tx, prev, i) &&
    ScriptOk(c, tx.vin[i], PrevOut(prev, tx.vin[i]), height)
  }

  predicate WellPosed(tx: Transaction, prev: PrevTxs) {
    (forall i :: 0 <= i < |tx.vin| ==> Known(prev, tx.vin[i])) &&
    (forall i :: 0 <= i < |tx.vout| ==> tx.vout[i].value > 0)
  }

  function InputValue(prev: PrevTxs, input: TxInput): int {
    if Resolves(prev, input) then PrevOut(prev, input).value else 0
  }

  function InputValues(prev: PrevTxs, vin: seq<TxInput>): (vs: seq<int>)
    ensures |vs| == |vin|
    ensures forall i :: 0 <= i < |vin| ==> vs[i] == InputValue(prev, vin[i])
  {
    seq(|vin|, i requires 0 <= i < |vin| => InputValue(prev, vin[i]))
  }

  function InputTotal(prev: PrevTxs, tx: Transaction): int {
    Sum(InputValues(prev, tx.vin))
  }

  predicate Accepts(c: Suite, tx: Transaction, prev: PrevTxs, height: int) {
    tx.IsCoinbase() ||
    (WellPosed(tx, prev) &&
     InputsOk(c, tx, prev, height) &&
     Wrap64(InputTotal(prev, tx)) >= Wrap64(TotalValue(tx.vout)))
  }

  /** The first input that fails does so by naming an output that does not exist. */
  predicate Crashes(c: Suite, tx: Transaction, prev: PrevTxs, height: int) {
    !tx.IsCoinbase() && WellPosed(tx, prev) &&
    exists i :: 0 <= i < |tx.vin| && !Resolves(prev, tx.vin[i]) &&
                forall j :: 0 <= j < i ==> InputOk(c, tx, prev, height, j)
  }

  function VerifyVerdict(c: Suite, tx: Transaction, prev: PrevTxs, height: int): Verdict {
    if Accepts(c, tx, prev, height) then Accepted
    else if Crashes(c, tx, prev, height) then Crashed
    else Rejected
  }

  lemma RejectedAt(c: Suite, tx: Transaction, prev: PrevTxs, height: int, k: nat)
    requires !tx.IsCoinbase() && k < |tx.vin|
    requires Resolves(prev, tx.vin[k]) && !InputOk(c, tx, prev, height, k)
    requires forall j :: 0 <= j < k ==> InputOk(c, tx, prev, height, j)
    ensures !InputsOk(c, tx, prev, height) && VerifyVerdict(c, tx, prev, height) == Rejected
  {
    forall i | 0 <= i < |tx.vin| && !Resolves(prev, tx.vin[i]) ensures k < i {
      assert i < k ==> InputOk(c, tx, prev, height, i);
    }
  }

  lemma CrashedAt(c: Suite, tx: Transaction, prev: PrevTxs, height: int, k: nat)
    requires !tx.IsCoinbase() && WellPosed(tx, prev) && k < |tx.vin| && !Resolves(prev, tx.vin[k])
    requires forall j :: 0 <= j < k ==> InputOk(c, tx, prev, height, j)
    ensures !InputsOk(c, tx, prev, height) && VerifyVerdict(c, tx, prev, height) == Crashed
  {
    assert !InputOk(c, tx, prev, height, k);
  }

  lemma NoCrash(c: Suite, tx: Transaction, prev: PrevTxs, height: int)
    requires InputsOk(c, tx, prev, height)
    ensures !Crashes(c, tx, prev, height)
  {
    forall i | 0 <= i < |tx.vin| ensures Resolves(prev, tx.vin[i]) {
      assert InputOk(c, tx, prev, height, i);
    }
  }

  lemma FilledSlot(c: Suite, tx: Transaction, prev: PrevTxs, i: nat, txCopy: Transaction)
    requires i < |tx.vin| && Resolves(prev, tx.vin[i])
    requires txCopy == Trimmed(tx)
    ensures var key := ExpectedHash(tx.vin[i], PrevOut(prev, tx.vin[i]));
            var filled := txCopy.(vin := txCopy.vin[i := txCopy.vin[i].(signature := [], pubKey := key)]);
            c.TxHash(filled) == SigningDigest(c, tx, prev, i) &&
            filled.(vin := filled.vin[i := filled.vin[i].(pubKey := [])]) == txCopy
  {
    var key := ExpectedHash(tx.vin[i], PrevOut(prev, tx.vin[i]));
    var filled := txCopy.(vin := txCopy.vin[i := txCopy.vin[i].(signature := [], pubKey := key)]);
    assert filled.vin[i := filled.vin[i].(pubKey := [])] == txCopy.vin;
  }

  lemma OutputSumStep(outs: seq<TxOutput>, i: nat)
    requires i < |outs|
    ensures TotalValue(outs[..i + 1]) == TotalValue(outs[..i]) + outs[i].value
  {
    assert OutputValues(outs[..i + 1])[..i] == OutputValues(outs[..i]);
  }

  lemma InputSumStep(prev: PrevTxs, vin: seq<TxInput>, i: nat)
    requires i < |vin|
    ensures Sum(InputValues(prev, vin[..i + 1])) == Sum(InputValues(prev, vin[..i])) + InputValue(prev, vin[i])
  {
    assert InputValues(prev, vin[..i + 1])[..i] == InputValues(prev, vin[..i]);
  }

  /** Positive outputs and their wrapping sum, or None at the first output that is not positive. */
  method SumOutputs(outs: seq<TxOutput>) returns (r: Option<int64>)
    ensures r.Some? <==> forall i :: 0 <= i < |outs| ==> outs[i].value > 0
    ensures r.Some? ==> r.value == Wrap64(TotalValue(outs))
  {
    var sum: int64 := 0;
    for i := 0 to |outs|
      invariant forall j :: 0 <= j < i ==> outs[j].value > 0
      invariant sum == Wrap64(TotalValue(outs[..i]))
    {
      if outs[i].value <= 0 {
        return None;
      }
      OutputSumStep(outs, i);
      WrapAbsorbs(TotalValue(outs[..i]), outs[i].value);
      sum := Wrap64(sum + outs[i].value);
    }
    assert outs[..|outs|] == outs;
    r := Some(sum);
  }

  /** The first loop of Verify: every referenced transaction was supplied. */
  method AllKnown(tx: Transaction, prev: PrevTxs) returns (ok: bool)
    ensures ok <==> forall i :: 0 <= i < |tx.vin| ==> Known(prev, tx.vin[i])
  {
    for i := 0 to |tx.vin|
      invariant forall j :: 0 <= j < i ==> Known(prev, tx.vin[j])
    {
      if tx.vin[i].txid !in prev || prev[tx.vin[i].txid].id == [] {
        return false;
      }
    }
    ok := true;
  }

  predicate InputsOk(c: Suite, tx: Transaction, prev: PrevTxs, height: int) {
    forall i :: 0 <= i < |tx.vin| ==> InputOk(c, tx, prev, height, i)
  }

  /** The first `n` inputs pass. */
  predicate FirstOk(c: Suite, tx: Transaction, prev: PrevTxs, height: int, n: nat)
    requires n <= |tx.vin|
  {
    forall j :: 0 <= j < n ==> InputOk(c, tx, prev, height, j)
  }

  function InputSum64(prev: PrevTxs, vin: seq<TxInput>): int64 {
    Wrap64(Sum(InputValues(prev, vin)))
  }

  lemma InputSum64Step(prev: PrevTxs, vin: seq<TxInput>, i: nat)
    requires i < |vin|
    ensures InputSum64(prev, vin[..i + 1]) == Wrap64(InputSum64(prev, vin[..i]) + InputValue(prev, vin[i]))
  {
    InputSumStep(prev, vin, i);
    WrapAbsorbs(Sum(InputValues(prev, vin[..i])), InputValue(prev, vin[i]));
  }

  /** One round of Verify's second loop: fill the input's key slot, check the input against the
      hash of the copy, and empty the slot again. */
  method VerifyInput(c: Suite, tx: Transaction, prev: PrevTxs, height: int, inID: nat, txCopy: Transaction)
    returns (ok: bool, txCopy': Transaction)
    requires inID < |tx.vin| && Resolves(prev, tx.vin[inID]) && txCopy == Trimmed(tx)
    ensures ok <==> InputOk(c, tx, prev, height, inID)
    ensures txCopy' == Trimmed(tx)
  {
    var vin := tx.vin[inID];
    var prevOut := prev[vin.txid].vout[vin.vout];
    FilledSlot(c, tx, prev, inID, txCopy);
    var refund := vin.isRefund && prevOut.scriptType == ESCROW;
    var expected := if refund then prevOut.buyerPubKeyHash else prevOut.pubKeyHash;
    txCopy' := txCopy.(vin := txCopy.vin[inID := txCopy.vin[inID].(signature := [], pubKey := expected)]);
    ok := CheckInput(c, vin, prevOut, c.TxHash(txCopy'), height);
    txCopy' := txCopy'.(vin := txCopy'.vin[inID := txCopy'.vin[inID].(pubKey := [])]);
  }

  /** One input of Verify's second loop: a panic if it names no output, else the checks. */
  method JudgeInput(c: Suite, tx: Transaction, prev: PrevTxs, height: int, inID: nat, txCopy: Transaction)
    returns (v: Verdict, txCopy': Transaction, value: int64)
    requires inID < |tx.vin| && Known(prev, tx.vin[inID]) && txCopy == Trimmed(tx)
    ensures v.Accepted? <==> InputOk(c, tx, prev, height, inID)
    ensures v.Crashed? <==> !Resolves(prev, tx.vin[inID])
    ensures v.Accepted? ==> txCopy' == Trimmed(tx) && value == InputValue(prev, tx.vin[inID])
  {
    var vin := tx.vin[inID];
    txCopy', value := txCopy, 0;
    if !(0 <= vin.vout < |prev[vin.txid].vout|) {
      return Crashed, txCopy', value;
    }
    var ok;
    ok, txCopy' := VerifyInput(c, tx, prev, height, inID, txCopy);
    if !ok {
      return Rejected, txCopy', value;
    }
    v, value := Accepted, prev[vin.txid].vout[vin.vout].value;
  }

  /** The first input that is not accepted decides. */
  lemma DecidedAt(c: Suite, tx: Transaction, prev: PrevTxs, height: int, k: nat, v: Verdict)
    requires !tx.IsCoinbase() && WellPosed(tx, prev) && k < |tx.vin| && FirstOk(c, tx, prev, height, k)
    requires !InputOk(c, tx, prev, height, k) && v == if Resolves(prev, tx.vin[k]) then Rejected else Crashed
    ensures !InputsOk(c, tx, prev, height) && v == VerifyVerdict(c, tx, prev, height)
  {
    if Resolves(prev, tx.vin[k]) {
      RejectedAt(c, tx, prev, height, k);
    } else {
      CrashedAt(c, tx, prev, height, k);
    }
  }

  /** The second loop of Verify. One trimmed copy is shared by all inputs. */
  method VerifyInputs(c: Suite, tx: Transaction, prev: PrevTxs, height: int)
    returns (v: Verdict, inputSum: int64)
    requires !tx.IsCoinbase() && WellPosed(tx, prev)
    ensures v.Accepted? <==> InputsOk(c, tx, prev, height)
    ensures v.Accepted? ==> inputSum == Wrap64(InputTotal(prev, tx))
    ensures !v.Accepted? ==> v == VerifyVerdict(c, tx, prev, height)
  {
    var txCopy := Trimmed(tx);
    inputSum := 0;
    for inID := 0 to |tx.vin|
      invariant txCopy == Trimmed(tx)
      invariant FirstOk(c, tx, prev, height, inID)
      invariant inputSum == InputSum64(prev, tx.vin[..inID])
    {
      var value;
      v, txCopy, value := JudgeInput(c, tx, prev, height, inID, txCopy);
      if !v.Accepted? {
        DecidedAt(c, tx, prev, height, inID, v);
        return v, 0;
      }
      InputSum64Step(prev, tx.vin, inID);
      inputSum := Wrap64(inputSum + value);
    }
    WholeSum(prev, tx);
    v := Accepted;
  }

  lemma WholeSum(prev: PrevTxs, tx: Transaction)
    ensures InputSum64(prev, tx.vin[..|tx.vin|]) == Wrap64(InputTotal(prev, tx))
  {
    assert tx.vin[..|tx.vin|] == tx.vin;
  }

  /** transaction.go Verify. */
  method Verify(c: Suite, tx: Transaction, prev: PrevTxs, height: int) returns (v: Verdict)
    ensures v == VerifyVerdict(c, tx, prev, height)
  {
    if tx.IsCoinbase() {
      return Accepted;
    }
    var known := AllKnown(tx, prev);
    if !known {
      return Rejected;
    }
    var outputSum := SumOutputs(tx.vout);
    if outputSum.None? {
      return Rejected;
    }
    var inputSum;
    v, inputSum := VerifyInputs(c, tx, prev, height);
    if v.Accepted? && inputSum < outputSum.value {
      NoCrash(c, tx, prev, height);
      return Rejected;
    }
  }

  /** The checks Verify makes on one resolved input, in its order. */
  method CheckInput(c: Suite, vin: TxInput, prevOut: TxOutput, digest: Digest, height: int) returns (ok: bool)
    ensures ok <==> |vin.signature| == 64 && |vin.pubKey| == 64 &&
                    c.checkSignature(vin.pubKey, digest, vin.signature) && ScriptOk(c, vin, prevOut, height)
  {
    if |vin.signature| != 64 {
      return false;
    }
    if |vin.pubKey| != 64 {
      return false;
    }
    if !c.checkSignature(vin.pubKey, digest, vin.signature) {
      return false;
    }
    if prevOut.scriptType == ESCROW || prevOut.scriptType == ZKCP {
      var claimer := c.hash160(vin.pubKey);
      if vin.isRefund {
        if !CanRefundEscrow(prevOut, height, claimer) {
          return false;
        }
      } else if prevOut.scriptType == ESCROW {
        if !CanClaimEscrow(c, prevOut, vin.escrowWitness, claimer) {
          return false;
        }
      } else if prevOut.scriptType == ZKCP {
        if !CanClaimZKCP(c, prevOut, vin.escrowWitness, claimer) {
          return false;
        }
      }
    }
    ok := true;
  }
}
