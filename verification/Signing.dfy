/** transaction.go Sign, and what signing and verification mean for each other. */
module Signing {
  import opened Prelude
  import opened Ledger
  import opened Transactions

  datatype SignResult = Signed | MissingPrevious | IndexPanic

  predicate AllResolve(prev: PrevTxs, vin: seq<TxInput>) {
    forall i :: 0 <= i < |vin| ==> Resolves(prev, vin[i])
  }

  /** Input `i` carrying the signature of `key`; `entropy(i)` is the random nonce drawn for it. */
  function SignedInput(c: Suite, tx: Transaction, prev: PrevTxs, key: PrivateKey, entropy: int -> int, i: nat): TxInput
    requires i < |tx.vin| && Resolves(prev, tx.vin[i])
  {
    tx.vin[i].(signature := c.sign(key, SigningDigest(c, tx, prev, i), entropy(i)))
  }

  function SignedTx(c: Suite, tx: Transaction, prev: PrevTxs, key: PrivateKey, entropy: int -> int): (r: Transaction)
    requires AllResolve(prev, tx.vin)
    ensures r.id == tx.id && r.vout == tx.vout && |r.vin| == |tx.vin|
    ensures forall i :: 0 <= i < |tx.vin| ==> r.vin[i] == SignedInput(c, tx, prev, key, entropy, i)
  {
    tx.(vin := seq(|tx.vin|, i requires 0 <= i < |tx.vin| => SignedInput(c, tx, prev, key, entropy, i)))
  }

  /** Signing stopped at input `k`, which names an output that does not exist. */
  predicate SignedUpTo(c: Suite, tx: Transaction, prev: PrevTxs, key: PrivateKey, entropy: int -> int, k: int,
                       vin: seq<TxInput>)
  {
    0 <= k < |tx.vin| == |vin| && !Resolves(prev, tx.vin[k]) &&
    (forall j :: 0 <= j < k ==> Resolves(prev, tx.vin[j]) && vin[j] == SignedInput(c, tx, prev, key, entropy, j)) &&
    (forall j :: k <= j < |vin| ==> vin[j] == tx.vin[j])
  }

  /** One input of Sign: the signature over the shared trimmed copy with the input's key slot
      filled, and the copy with the slot cleared again. */
  method SignCopy(c: Suite, ghost tx: Transaction, prev: PrevTxs, key: PrivateKey, nonce: int, inID: nat,
                  input: TxInput, txCopy: Transaction)
    returns (signature: Bytes, txCopy': Transaction)
    requires inID < |tx.vin| && Resolves(prev, tx.vin[inID]) && input == tx.vin[inID] && txCopy == Trimmed(tx)
    ensures signature == c.sign(key, SigningDigest(c, tx, prev, inID), nonce) && txCopy' == Trimmed(tx)
  {
    var prevOut := prev[input.txid].vout[input.vout];
    FilledSlot(c, tx, prev, inID, txCopy);
    var refund := input.isRefund && prevOut.scriptType == ESCROW;
    var expected := if refund then prevOut.buyerPubKeyHash else prevOut.pubKeyHash;
    var filled := txCopy.(vin := txCopy.vin[inID := txCopy.vin[inID].(signature := [], pubKey := expected)]);
    signature := c.sign(key, c.TxHash(filled), nonce);
    txCopy' := filled.(vin := filled.vin[inID := filled.vin[inID].(pubKey := [])]);
  }

  /** The loop of Sign, once every previous transaction is known. A panic part way leaves the
      earlier inputs signed. */
  method SignInputs(c: Suite, id: Bytes, vin: array<TxInput>, vout: seq<TxOutput>, prev: PrevTxs, key: PrivateKey,
                    entropy: int -> int)
    returns (r: SignResult)
    requires forall i :: 0 <= i < vin.Length ==> Known(prev, vin[i])
    modifies vin
    ensures var tx := Transaction(id, old(vin[..]), vout);
            if AllResolve(prev, tx.vin) then r == Signed && vin[..] == SignedTx(c, tx, prev, key, entropy).vin
            else r == IndexPanic && exists k :: SignedUpTo(c, tx, prev, key, entropy, k, vin[..])
  {
    ghost var tx := Transaction(id, vin[..], vout);
    var txCopy := Trimmed(Transaction(id, vin[..], vout));
    for inID := 0 to vin.Length
      invariant txCopy == Trimmed(tx)
      invariant forall j :: 0 <= j < inID ==>
                  Resolves(prev, tx.vin[j]) && vin[j] == SignedInput(c, tx, prev, key, entropy, j)
      invariant forall j :: inID <= j < vin.Length ==> vin[j] == tx.vin[j]
    {
      var copied := txCopy.vin[inID];
      if !(0 <= copied.vout < |prev[copied.txid].vout|) {
        assert SignedUpTo(c, tx, prev, key, entropy, inID, vin[..]);
        return IndexPanic;
      }
      var signature;
      signature, txCopy := SignCopy(c, tx, prev, key, entropy(inID), inID, vin[inID], txCopy);
      vin[inID] := vin[inID].(signature := signature);
    }
    assert AllResolve(prev, tx.vin);
    r := Signed;
  }

  /** transaction.go Sign: writes signatures into the transaction's input slice. */
  method Sign(c: Suite, id: Bytes, vin: array<TxInput>, vout: seq<TxOutput>, prev: PrevTxs, key: PrivateKey,
              entropy: int -> int)
    returns (r: SignResult)
    modifies vin
    ensures var tx := Transaction(id, old(vin[..]), vout);
            if tx.IsCoinbase() then r == Signed && vin[..] == old(vin[..])
            else if exists i :: 0 <= i < |tx.vin| && !Known(prev, tx.vin[i]) then
              r == MissingPrevious && vin[..] == old(vin[..])
            else if AllResolve(prev, tx.vin) then
              r == Signed && vin[..] == SignedTx(c, tx, prev, key, entropy).vin
            else r == IndexPanic && exists k :: SignedUpTo(c, tx, prev, key, entropy, k, vin[..])
  {
    if vin.Length == 1 && vin[0].txid == [] && vin[0].vout == -1 {
      return Signed;
    }
    ghost var tx := Transaction(id, vin[..], vout);
    var known := AllKnown(Transaction(id, vin[..], vout), prev);
    if !known {
      return MissingPrevious;
    }
    assert forall i :: 0 <= i < vin.Length ==> vin[i] == tx.vin[i];
    r := SignInputs(c, id, vin, vout, prev, key, entropy);
  }

  // ---------- What a signature covers ----------

  /** The transaction whose hash is signed for input `i`: every output, and of every input the
      outpoint and the refund flag; no ID, signature or witness, and a key only in input `i`. */
  function Message(tx: Transaction, i: nat, key: Bytes): Transaction {
    Transaction([],
                seq(|tx.vin|, j requires 0 <= j < |tx.vin| =>
                  TxInput(tx.vin[j].txid, tx.vin[j].vout, [], if j == i then key else [], [], tx.vin[j].isRefund)),
                tx.vout)
  }

  /** The signed digest is the hash of that message, with the buyer's key hash in the slot of an
      escrow refund and the seller's or owner's otherwise. */
  lemma DigestCovers(c: Suite, tx: Transaction, prev: PrevTxs, i: nat)
    requires i < |tx.vin| && Resolves(prev, tx.vin[i])
    ensures var out := prev[tx.vin[i].txid].vout[tx.vin[i].vout];
            var key := if tx.vin[i].isRefund && out.scriptType == ESCROW then out.buyerPubKeyHash else out.pubKeyHash;
            SigningDigest(c, tx, prev, i) == c.sha256(c.serialize(Message(tx, i, key)))
  {
    var t := Trimmed(tx);
    var key := ExpectedHash(tx.vin[i], PrevOut(prev, tx.vin[i]));
    assert t.vin[i := t.vin[i].(pubKey := key)] == Message(tx, i, key).vin;
  }

  /** The two transactions pay the same outputs and name the same outpoints with the same refund flags. */
  predicate SameContent(a: Transaction, b: Transaction) {
    a.vout == b.vout && |a.vin| == |b.vin| &&
    forall j :: 0 <= j < |a.vin| ==>
      a.vin[j].txid == b.vin[j].txid && a.vin[j].vout == b.vin[j].vout && a.vin[j].isRefund == b.vin[j].isRefund
  }

  /** Two different messages with one encoding, or two encodings with one hash. */
  ghost predicate MessagesClash(c: Suite, x: Transaction, y: Transaction) {
    x != y && (c.serialize(x) == c.serialize(y) || Collision(c.sha256, c.serialize(x), c.serialize(y)))
  }

  /** A signature is good for one content: two transactions with one digest pay and spend the same,
      or their messages clash. */
  lemma DigestBindsContent(c: Suite, a: Transaction, aPrev: PrevTxs, i: nat, b: Transaction, bPrev: PrevTxs, j: nat)
    requires i < |a.vin| && Resolves(aPrev, a.vin[i]) && j < |b.vin| && Resolves(bPrev, b.vin[j])
    requires SigningDigest(c, a, aPrev, i) == SigningDigest(c, b, bPrev, j)
    ensures SameContent(a, b) ||
            MessagesClash(c, Message(a, i, ExpectedHash(a.vin[i], PrevOut(aPrev, a.vin[i]))),
                          Message(b, j, ExpectedHash(b.vin[j], PrevOut(bPrev, b.vin[j]))))
  {
    DigestCovers(c, a, aPrev, i);
    DigestCovers(c, b, bPrev, j);
    var x := Message(a, i, ExpectedHash(a.vin[i], PrevOut(aPrev, a.vin[i])));
    var y := Message(b, j, ExpectedHash(b.vin[j], PrevOut(bPrev, b.vin[j])));
    if x == y {
      forall k | 0 <= k < |a.vin|
        ensures a.vin[k].txid == b.vin[k].txid && a.vin[k].vout == b.vin[k].vout &&
                a.vin[k].isRefund == b.vin[k].isRefund
      {
        assert x.vin[k] == y.vin[k];
      }
    }
  }

  // ---------- Signing and verifying agree on the message ----------

  /** The message for an input does not depend on the signatures already written. */
  lemma DigestIgnoresSignatures(c: Suite, tx: Transaction, prev: PrevTxs, key: PrivateKey, entropy: int -> int, i: nat)
    requires AllResolve(prev, tx.vin) && i < |tx.vin|
    ensures var s := SignedTx(c, tx, prev, key, entropy);
            Resolves(prev, s.vin[i]) && SigningDigest(c, s, prev, i) == SigningDigest(c, tx, prev, i)
  {
    assert Trimmed(SignedTx(c, tx, prev, key, entropy)) == Trimmed(tx);
  }

  lemma SignedInputOk(c: Suite, tx: Transaction, prev: PrevTxs, key: PrivateKey, entropy: int -> int, height: int,
                      i: nat)
    requires c.SignaturesVerify() && AllResolve(prev, tx.vin) && i < |tx.vin|
    requires tx.vin[i].pubKey == c.publicKey(key)
    ensures InputOk(c, SignedTx(c, tx, prev, key, entropy), prev, height, i) <==>
            ScriptOk(c, tx.vin[i], PrevOut(prev, tx.vin[i]), height)
  {
    DigestIgnoresSignatures(c, tx, prev, key, entropy, i);
    var d := SigningDigest(c, tx, prev, i);
    assert c.OwnSignatureVerifies(key, d, entropy(i));
  }

  lemma SignedInputsOk(c: Suite, tx: Transaction, prev: PrevTxs, key: PrivateKey, entropy: int -> int, height: int)
    requires c.SignaturesVerify() && AllResolve(prev, tx.vin)
    requires forall i :: 0 <= i < |tx.vin| ==> tx.vin[i].pubKey == c.publicKey(key)
    ensures InputsOk(c, SignedTx(c, tx, prev, key, entropy), prev, height) <==>
            forall i :: 0 <= i < |tx.vin| ==> ScriptOk(c, tx.vin[i], PrevOut(prev, tx.vin[i]), height)
  {
    var s := SignedTx(c, tx, prev, key, entropy);
    forall i | 0 <= i < |tx.vin|
      ensures InputOk(c, s, prev, height, i) <==> ScriptOk(c, tx.vin[i], PrevOut(prev, tx.vin[i]), height)
    {
      SignedInputOk(c, tx, prev, key, entropy, height, i);
    }
  }

  /** A transaction whose inputs all carry the signer's key is accepted once signed exactly
      when its scripts allow it and it does not create value (in 64-bit arithmetic). */
  lemma SignThenVerify(c: Suite, tx: Transaction, prev: PrevTxs, key: PrivateKey, entropy: int -> int, height: int)
    requires c.SignaturesVerify() && AllResolve(prev, tx.vin) && !tx.IsCoinbase()
    requires forall i :: 0 <= i < |tx.vin| ==> tx.vin[i].pubKey == c.publicKey(key)
    requires forall i :: 0 <= i < |tx.vout| ==> tx.vout[i].value > 0
    ensures VerifyVerdict(c, SignedTx(c, tx, prev, key, entropy), prev, height).Accepted? <==>
            (forall i :: 0 <= i < |tx.vin| ==> ScriptOk(c, tx.vin[i], PrevOut(prev, tx.vin[i]), height)) &&
            Wrap64(InputTotal(prev, tx)) >= Wrap64(TotalValue(tx.vout))
  {
    var s := SignedTx(c, tx, prev, key, entropy);
    assert InputValues(prev, s.vin) == InputValues(prev, tx.vin);
    SignedInputsOk(c, tx, prev, key, entropy, height);
  }

  // ---------- Settlement ----------

  /** What an accepted input that spends a contract output must have shown. */
  predicate SettledProperly(c: Suite, input: TxInput, out: TxOutput, height: int) {
    if input.isRefund then height > out.timeoutBlock && c.hash160(input.pubKey) == out.buyerPubKeyHash
    else c.sha256(input.escrowWitness) == out.dataHashLock && c.hash160(input.pubKey) == out.pubKeyHash
  }

  /** What an input must show, spelled out: an output that exists, the spender's signature over the
      message, and for a contract output a proper settlement. */
  predicate InputPasses(c: Suite, tx: Transaction, prev: PrevTxs, height: int, i: nat)
    requires i < |tx.vin|
  {
    var input := tx.vin[i];
    input.txid in prev && prev[input.txid].id != [] && 0 <= input.vout < |prev[input.txid].vout| &&
    var out := prev[input.txid].vout[input.vout];
    var key := if input.isRefund && out.scriptType == ESCROW then out.buyerPubKeyHash else out.pubKeyHash;
    |input.signature| == 64 && |input.pubKey| == 64 &&
    c.checkSignature(input.pubKey, c.sha256(c.serialize(Message(tx, i, key))), input.signature) &&
    (out.scriptType == ESCROW || out.scriptType == ZKCP ==> SettledProperly(c, input, out, height))
  }

  lemma InputPassesExactly(c: Suite, tx: Transaction, prev: PrevTxs, height: int, i: nat)
    requires i < |tx.vin|
    ensures InputOk(c, tx, prev, height, i) <==> InputPasses(c, tx, prev, height, i)
  {
    if Resolves(prev, tx.vin[i]) {
      DigestCovers(c, tx, prev, i);
    }
  }

  /** What comes before the inputs are judged: every previous transaction is there and every output positive. */
  predicate Presentable(tx: Transaction, prev: PrevTxs) {
    (forall i :: 0 <= i < |tx.vin| ==> tx.vin[i].txid in prev && prev[tx.vin[i].txid].id != []) &&
    (forall i :: 0 <= i < |tx.vout| ==> tx.vout[i].value > 0)
  }

  /** The verdict in terms of the transaction alone. Accepted: a coinbase, or a presentable
      transaction whose inputs all pass and whose 64-bit sums do not grow. Crashed: a presentable one
      with an input that names a missing output behind inputs that pass. */
  lemma VerdictIsExact(c: Suite, tx: Transaction, prev: PrevTxs, height: int)
    ensures var coinbase := |tx.vin| == 1 && tx.vin[0].txid == [] && tx.vin[0].vout == -1;
            (VerifyVerdict(c, tx, prev, height).Accepted? <==>
               coinbase ||
               (Presentable(tx, prev) && (forall i :: 0 <= i < |tx.vin| ==> InputPasses(c, tx, prev, height, i)) &&
                Wrap64(InputTotal(prev, tx)) >= Wrap64(TotalValue(tx.vout)))) &&
            (VerifyVerdict(c, tx, prev, height).Crashed? <==>
               !coinbase && Presentable(tx, prev) &&
               exists k :: 0 <= k < |tx.vin| && !(0 <= tx.vin[k].vout < |prev[tx.vin[k].txid].vout|) &&
                           forall j :: 0 <= j < k ==> InputPasses(c, tx, prev, height, j))
  {
    forall i | 0 <= i < |tx.vin| ensures InputOk(c, tx, prev, height, i) <==> InputPasses(c, tx, prev, height, i) {
      InputPassesExactly(c, tx, prev, height, i);
    }
    if InputsOk(c, tx, prev, height) {
      NoCrash(c, tx, prev, height);
    }
  }

  /** Every contract output an accepted transaction spends is claimed by the seller with a
      preimage of the lock, or refunded to the buyer strictly after the timeout, and the
      spender signed. */
  lemma SettlementIsSound(c: Suite, tx: Transaction, prev: PrevTxs, height: int, i: nat)
    requires VerifyVerdict(c, tx, prev, height).Accepted? && !tx.IsCoinbase()
    requires i < |tx.vin|
    ensures Resolves(prev, tx.vin[i])
    ensures |tx.vin[i].signature| == |tx.vin[i].pubKey| == 64
    ensures c.checkSignature(tx.vin[i].pubKey, SigningDigest(c, tx, prev, i), tx.vin[i].signature)
    ensures var out := PrevOut(prev, tx.vin[i]);
            IsContract(out) ==> SettledProperly(c, tx.vin[i], out, height)
  {
    assert InputOk(c, tx, prev, height, i);
  }

  /** Before the timeout has passed a contract output only moves against its preimage. */
  lemma NoEarlyRefund(c: Suite, tx: Transaction, prev: PrevTxs, height: int, i: nat)
    requires VerifyVerdict(c, tx, prev, height).Accepted? && !tx.IsCoinbase()
    requires i < |tx.vin|
    requires Resolves(prev, tx.vin[i]) && IsContract(PrevOut(prev, tx.vin[i]))
    requires height <= PrevOut(prev, tx.vin[i]).timeoutBlock
    ensures !tx.vin[i].isRefund
    ensures c.sha256(tx.vin[i].escrowWitness) == PrevOut(prev, tx.vin[i]).dataHashLock
    ensures c.hash160(tx.vin[i].pubKey) == PrevOut(prev, tx.vin[i]).pubKeyHash
  {
    SettlementIsSound(c, tx, prev, height, i);
  }

  /** Acceptance only ever improves with height. */
  lemma AcceptanceIsMonotone(c: Suite, tx: Transaction, prev: PrevTxs, low: int, high: int)
    requires low <= high
    requires VerifyVerdict(c, tx, prev, low).Accepted?
    ensures VerifyVerdict(c, tx, prev, high).Accepted?
  {
    if !tx.IsCoinbase() {
      forall i | 0 <= i < |tx.vin| ensures InputOk(c, tx, prev, high, i) {
        assert InputOk(c, tx, prev, low, i);
      }
    }
  }
}
