/** The outputs, the coinbase, signing against the chain, and the claims and refunds of
    internal/core/transaction.go and transaction_output.go. */
module Builders {
  import opened Prelude
  import opened Ledger
  import opened Transactions
  import opened Signing
  import opened Wallets
  import Base58
  import opened Chain

  datatype BuildResult = Built(tx: Transaction) | Failed | Panicked

  // ---------- Outputs ----------

  /** transaction_output.go NewTXOutput; None where it panics. */
  function NewTXOutput(value: int64, address: Bytes): Option<TxOutput> {
    var h := LockedHash(address);
    if value <= 0 || h.None? then None else Some(TxOutput(value, h.value, P2PKH, [], 0, []))
  }

  /** transaction_output.go NewEscrowOutput; None where it panics. */
  function NewEscrowOutput(value: int64, seller: Bytes, buyer: Bytes, lock: Bytes, timeout: int64): Option<TxOutput> {
    var s, b := LockedHash(seller), LockedHash(buyer);
    if value <= 0 || s.None? || b.None? then None
    else Some(TxOutput(value, s.value, ESCROW, lock, timeout, b.value))
  }

  function NewZKCPOutput(value: int64, seller: Bytes, buyer: Bytes, lock: Bytes, timeout: int64): Option<TxOutput> {
    var e := NewEscrowOutput(value, seller, buyer, lock, timeout);
    if e.None? then None else Some(e.value.(scriptType := ZKCP))
  }

  /** The three constructors panic exactly on a value that is not positive or an address that decodes
      to less than five bytes, and otherwise store what they were given under their own script type. */
  lemma OutputsAreAsAsked(value: int64, seller: Bytes, buyer: Bytes, lock: Bytes, timeout: int64)
    ensures var sd, bd := Base58.Decode(seller), Base58.Decode(buyer);
            var p := NewTXOutput(value, seller);
            var e := NewEscrowOutput(value, seller, buyer, lock, timeout);
            var z := NewZKCPOutput(value, seller, buyer, lock, timeout);
            (p.None? <==> value <= 0 || |sd| < 5) &&
            (e.None? <==> z.None?) && (z.None? <==> value <= 0 || |sd| < 5 || |bd| < 5) &&
            (p.Some? ==> p.value == TxOutput(value, sd[1..|sd| - 4], P2PKH, [], 0, [])) &&
            (e.Some? ==>
               e.value == TxOutput(value, sd[1..|sd| - 4], ESCROW, lock, timeout, bd[1..|bd| - 4]) &&
               z.value == TxOutput(value, sd[1..|sd| - 4], ZKCP, lock, timeout, bd[1..|bd| - 4]))
  {
  }

  const SUBSIDY: int64 := 10

  /** transaction.go NewCoinbaseTX; None where its output panics. `drawn` is the random text used
      when no data is given. */
  function NewCoinbaseTX(c: Suite, to: Bytes, data: Bytes, drawn: Bytes): (r: Option<Transaction>)
    ensures r.Some? <==> LockedHash(to).Some?
    ensures r.Some? ==>
              r.value.IsCoinbase() && TotalValue(r.value.vout) == 10 && |r.value.vout| == 1 &&
              r.value.vout[0].pubKeyHash == LockedHash(to).value && !IsContract(r.value.vout[0]) &&
              r.value.vin[0].pubKey == (if data == [] then drawn else data) &&
              r.value.id == c.TxHash(r.value)
  {
    var out := NewTXOutput(SUBSIDY, to);
    if out.None? then None
    else
      SingleTotal(out.value);
      var text := if data == [] then drawn else data;
      Some(WithId(c, [TxInput([], -1, [], text, [], false)], [out.value]))
  }

  function Text(s: string): Bytes {
    seq(|s|, i requires 0 <= i < |s| => s[i] as int % 256)
  }

  /** The data of the genesis coinbase. */
  function GenesisData(): Bytes {
    Text("The Times 03/Jan/2009 Chancellor on brink of second bailout for banks")
  }

  lemma SingleTotal(out: TxOutput)
    ensures TotalValue([out]) == out.value
  {
    assert OutputValues([out]) == [out.value];
    SumOne(out.value);
  }

  // ---------- Claim and refund ----------

  /** A draft with its ID filled in. */
  function WithId(c: Suite, vin: seq<TxInput>, vout: seq<TxOutput>): Transaction {
    var draft := Transaction([], vin, vout);
    draft.(id := c.TxHash(draft))
  }

  /** What signing against the chain comes to: an error when a previous transaction is missing, a
      coinbase left as it is, a panic when an input names an output its transaction does not have,
      and the signed transaction otherwise. */
  ghost function SignOutcome(c: Suite, walk: seq<Transaction>, tx: Transaction, key: PrivateKey,
                             entropy: int -> int): BuildResult
  {
    var prev := PrevFor(walk, tx.vin);
    if !AllFound(walk, tx.vin) then Failed
    else if tx.IsCoinbase() then Built(tx)
    else if exists i :: 0 <= i < |tx.vin| && !Known(prev, tx.vin[i]) then Failed
    else if AllResolve(prev, tx.vin) then Built(SignedTx(c, tx, prev, key, entropy))
    else Panicked
  }

  /** blockchain.go SignTransaction, on the transactions of the chain. */
  method SignTransaction(c: Suite, walk: seq<Transaction>, tx: Transaction, key: PrivateKey, entropy: int -> int)
    returns (r: BuildResult)
    ensures r == SignOutcome(c, walk, tx, key, entropy)
  {
    var found := FindPrevious(walk, tx.vin);
    if found.None? {
      return Failed;
    }
    r := SignWith(c, tx, found.value, key, entropy);
  }

  /** The lookup loop of SignTransaction. */
  method FindPrevious(walk: seq<Transaction>, vin: seq<TxInput>) returns (r: Option<PrevTxs>)
    ensures r == if AllFound(walk, vin) then Some(PrevFor(walk, vin)) else None
  {
    var prev: PrevTxs := map[];
    for i := 0 to |vin|
      invariant forall j :: 0 <= j < i ==> FindTx(walk, vin[j].txid).Some?
      invariant prev == PrevFor(walk, vin[..i])
    {
      var found := FindTx(walk, vin[i].txid);
      if found.None? {
        return None;
      }
      PrevForStep(walk, vin, i);
      prev := prev[found.value.id := found.value];
    }
    assert vin[..|vin|] == vin;
    r := Some(prev);
  }

  /** Transaction.Sign applied to the transaction's own input slice. */
  method SignWith(c: Suite, tx: Transaction, prev: PrevTxs, key: PrivateKey, entropy: int -> int)
    returns (r: BuildResult)
    ensures if tx.IsCoinbase() then r == Built(tx)
            else if exists i :: 0 <= i < |tx.vin| && !Known(prev, tx.vin[i]) then r == Failed
            else if AllResolve(prev, tx.vin) then r == Built(SignedTx(c, tx, prev, key, entropy))
            else r == Panicked
  {
    var vin := new TxInput[|tx.vin|](i requires 0 <= i < |tx.vin| => tx.vin[i]);
    assert vin[..] == tx.vin;
    var s := Sign(c, tx.id, vin, tx.vout, prev, key, entropy);
    match s {
      case Signed => r := Built(Transaction(tx.id, vin[..], tx.vout));
      case MissingPrevious => r := Failed;
      case IndexPanic => r := Panicked;
    }
  }

  /** The unsigned transaction both escrow settlements build: one input, one output of the same value. */
  function SettlementDraft(c: Suite, w: Wallet, txid: Bytes, index: int, out: TxOutput, data: Bytes,
                           refund: bool): Option<Transaction>
  {
    var payout := NewTXOutput(out.value, GetAddress(c, w.publicKey));
    if payout.None? then None
    else Some(WithId(c, [TxInput(txid, index, [], w.publicKey, data, refund)], [payout.value]))
  }

  /** transaction.go NewEscrowClaimTransaction (`refund` false, with the delivered data) and
      NewEscrowRefundTransaction (`refund` true, without). */
  method BuildSettlement(c: Suite, walk: seq<Transaction>, w: Wallet, txid: Bytes, index: int, data: Bytes,
                         refund: bool, entropy: int -> int)
    returns (r: BuildResult)
    ensures var found := FindTx(walk, txid);
            if found.None? || !(0 <= index < |found.value.vout|) then r == Failed
            else if found.value.vout[index].value <= 0 then r == Panicked
            else if txid == [] then r == Failed
            else r.Built? && IsSettlement(c, walk, w, txid, index, data, refund, entropy, r.tx)
  {
    var found := FindTx(walk, txid);
    if found.None? {
      return Failed;
    }
    if index < 0 || index >= |found.value.vout| {
      return Failed;
    }
    var escrowOut := found.value.vout[index];
    WalletAddress(c, w.publicKey);
    var input := TxInput(txid, index, [], w.publicKey, data, refund);
    var output := NewTXOutput(escrowOut.value, GetAddress(c, w.publicKey));
    if output.None? {
      return Panicked;
    }
    var tx := WithId(c, [input], [output.value]);
    r := SignTransaction(c, walk, tx, w.privateKey, entropy);
    SettlementResolves(walk, tx);
  }

  lemma SettlementResolves(walk: seq<Transaction>, tx: Transaction)
    requires |tx.vin| == 1 && FindTx(walk, tx.vin[0].txid).Some?
    requires 0 <= tx.vin[0].vout < |FindTx(walk, tx.vin[0].txid).value.vout|
    ensures AllFound(walk, tx.vin)
    ensures tx.vin[0].txid == [] ==> !Known(PrevFor(walk, tx.vin), tx.vin[0])
    ensures tx.vin[0].txid != [] ==> AllResolve(PrevFor(walk, tx.vin), tx.vin)
  {
  }

  /** `tx` is the signed settlement of output `index` of `txid` by wallet `w`. */
  ghost predicate IsSettlement(c: Suite, walk: seq<Transaction>, w: Wallet, txid: Bytes, index: int, data: Bytes,
                               refund: bool, entropy: int -> int, tx: Transaction)
  {
    var found := FindTx(walk, txid);
    txid != [] && found.Some? && 0 <= index < |found.value.vout| &&
    var draft := SettlementDraft(c, w, txid, index, found.value.vout[index], data, refund);
    draft.Some? && AllResolve(PrevFor(walk, draft.value.vin), draft.value.vin) &&
    tx == SignedTx(c, draft.value, PrevFor(walk, draft.value.vin), w.privateKey, entropy)
  }

  /** A settlement pays the whole value to the wallet's own key, from the one outpoint it was asked
      for, with the given data and refund flag, the wallet's signature over its own message, and the
      hash of the unsigned transaction as ID. */
  lemma SettlementPays(c: Suite, walk: seq<Transaction>, w: Wallet, txid: Bytes, index: int, data: Bytes,
                       refund: bool, entropy: int -> int, tx: Transaction)
    requires IsSettlement(c, walk, w, txid, index, data, refund, entropy, tx)
    ensures var prev := PrevFor(walk, tx.vin);
            |tx.vin| == 1 && Resolves(prev, tx.vin[0]) &&
            var signature := c.sign(w.privateKey, SigningDigest(c, tx, prev, 0), entropy(0));
            var unsigned := TxInput(txid, index, [], w.publicKey, data, refund);
            tx.vin == [TxInput(txid, index, signature, w.publicKey, data, refund)] &&
            tx.vout == [TxOutput(FindTx(walk, txid).value.vout[index].value, c.hash160(w.publicKey), P2PKH, [], 0,
                                 [])] &&
            tx.id == c.sha256(c.serialize(Transaction([], [unsigned], tx.vout)))
  {
    var draft := SettlementDraft(c, w, txid, index, FindTx(walk, txid).value.vout[index], data, refund).value;
    WalletAddress(c, w.publicKey);
    SameTxids(walk, draft.vin, tx.vin);
    DigestIgnoresSignatures(c, draft, PrevFor(walk, draft.vin), w.privateKey, entropy, 0);
  }

  /** A settlement is accepted at a height exactly when its script allows it there; the value
      always balances and the signature always verifies. */
  lemma SettlementAccepted(c: Suite, walk: seq<Transaction>, w: Wallet, txid: Bytes, index: int, data: Bytes,
                           refund: bool, entropy: int -> int, tx: Transaction, height: int)
    requires c.SignaturesVerify() && OwnsItsKey(c, w)
    requires IsSettlement(c, walk, w, txid, index, data, refund, entropy, tx)
    ensures var out := FindTx(walk, txid).value.vout[index];
            VerifyVerdict(c, tx, PrevFor(walk, tx.vin), height).Accepted? <==>
            ScriptOk(c, TxInput(txid, index, [], w.publicKey, data, refund), out, height)
  {
    var out := FindTx(walk, txid).value.vout[index];
    var draft := SettlementDraft(c, w, txid, index, out, data, refund).value;
    var prev := PrevFor(walk, draft.vin);
    SignThenVerify(c, draft, prev, w.privateKey, entropy, height);
    SameTxids(walk, draft.vin, tx.vin);
    assert InputValues(prev, draft.vin) == [out.value];
    assert OutputValues(draft.vout) == [out.value];
  }

  lemma SameTxids(walk: seq<Transaction>, a: seq<TxInput>, b: seq<TxInput>)
    requires |a| == |b| && forall i :: 0 <= i < |a| ==> a[i].txid == b[i].txid
    ensures PrevFor(walk, a) == PrevFor(walk, b)
  {
    assert Txids(a) == Txids(b) by {
      forall id ensures id in Txids(a) <==> id in Txids(b) {
        if id in Txids(a) {
          var i :| 0 <= i < |a| && a[i].txid == id;
          assert b[i].txid == id;
        }
        if id in Txids(b) {
          var i :| 0 <= i < |b| && b[i].txid == id;
          assert a[i].txid == id;
        }
      }
    }
  }

  /** A built claim of a contract output is accepted, at every height alike, exactly when the
      delivered data hashes to the lock and the wallet is the seller's. */
  lemma ClaimAccepted(c: Suite, walk: seq<Transaction>, w: Wallet, txid: Bytes, index: int, data: Bytes,
                      entropy: int -> int, tx: Transaction, height: int)
    requires c.SignaturesVerify() && OwnsItsKey(c, w)
    requires IsSettlement(c, walk, w, txid, index, data, false, entropy, tx)
    requires IsContract(FindTx(walk, txid).value.vout[index])
    ensures var out := FindTx(walk, txid).value.vout[index];
            VerifyVerdict(c, tx, PrevFor(walk, tx.vin), height).Accepted? <==>
            c.sha256(data) == out.dataHashLock && c.hash160(w.publicKey) == out.pubKeyHash
  {
    SettlementAccepted(c, walk, w, txid, index, data, false, entropy, tx, height);
  }

  /** A built refund of a contract output is accepted at exactly the heights above the timeout,
      and only for the buyer's wallet. */
  lemma RefundAccepted(c: Suite, walk: seq<Transaction>, w: Wallet, txid: Bytes, index: int,
                       entropy: int -> int, tx: Transaction, height: int)
    requires c.SignaturesVerify() && OwnsItsKey(c, w)
    requires IsSettlement(c, walk, w, txid, index, [], true, entropy, tx)
    requires IsContract(FindTx(walk, txid).value.vout[index])
    ensures var out := FindTx(walk, txid).value.vout[index];
            VerifyVerdict(c, tx, PrevFor(walk, tx.vin), height).Accepted? <==>
            height > out.timeoutBlock && c.hash160(w.publicKey) == out.buyerPubKeyHash
  {
    SettlementAccepted(c, walk, w, txid, index, [], true, entropy, tx, height);
  }

  /** An escrow or ZKCP output made for two wallets' addresses is claimable by the seller's
      wallet and refundable to the buyer's: the addresses carry exactly their key hashes. */
  lemma EscrowForWallets(c: Suite, seller: Wallet, buyer: Wallet, value: int64, lock: Bytes, timeout: int64)
    requires value > 0
    ensures var sa, ba := GetAddress(c, seller.publicKey), GetAddress(c, buyer.publicKey);
            var e := NewEscrowOutput(value, sa, ba, lock, timeout);
            var z := NewZKCPOutput(value, sa, ba, lock, timeout);
            e.Some? && z.Some? && e.value.pubKeyHash == z.value.pubKeyHash == c.hash160(seller.publicKey) &&
            e.value.buyerPubKeyHash == z.value.buyerPubKeyHash == c.hash160(buyer.publicKey)
  {
    WalletAddress(c, seller.publicKey);
    WalletAddress(c, buyer.publicKey);
  }

  /** From end to end: once an escrow or ZKCP output made for two wallets is on the chain, the
      seller's claim with data that hashes to the lock is accepted at every height, and the
      buyer's refund at exactly the heights above the timeout. */
  lemma EscrowLifecycle(c: Suite, walk: seq<Transaction>, seller: Wallet, buyer: Wallet, txid: Bytes, index: int,
                        value: int64, data: Bytes, timeout: int64, entropy: int -> int, claim: Transaction,
                        refund: Transaction, height: int)
    requires c.SignaturesVerify() && OwnsItsKey(c, seller) && OwnsItsKey(c, buyer) && value > 0
    requires FindTx(walk, txid).Some? && 0 <= index < |FindTx(walk, txid).value.vout|
    requires var sa, ba := GetAddress(c, seller.publicKey), GetAddress(c, buyer.publicKey);
             var out := FindTx(walk, txid).value.vout[index];
             Some(out) == NewEscrowOutput(value, sa, ba, c.sha256(data), timeout) ||
             Some(out) == NewZKCPOutput(value, sa, ba, c.sha256(data), timeout)
    requires IsSettlement(c, walk, seller, txid, index, data, false, entropy, claim)
    requires IsSettlement(c, walk, buyer, txid, index, [], true, entropy, refund)
    ensures VerifyVerdict(c, claim, PrevFor(walk, claim.vin), height).Accepted?
    ensures VerifyVerdict(c, refund, PrevFor(walk, refund.vin), height).Accepted? <==> height > timeout
  {
    EscrowForWallets(c, seller, buyer, value, c.sha256(data), timeout);
    ClaimAccepted(c, walk, seller, txid, index, data, entropy, claim, height);
    RefundAccepted(c, walk, buyer, txid, index, entropy, refund, height);
  }
}
