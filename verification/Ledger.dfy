/** The ledger's records (internal/core/transaction.go, transaction_input.go,
    transaction_output.go, block.go) and the foreign primitives they rest on. */
module Ledger {
  import opened Prelude

  type ScriptType = byte
  const P2PKH: ScriptType := 0
  const ESCROW: ScriptType := 1
  const ZKCP: ScriptType := 2

  datatype TxInput = TxInput(
    txid: Bytes,
    vout: int,
    signature: Bytes,
    pubKey: Bytes,
    escrowWitness: Bytes,
    isRefund: bool)

  datatype TxOutput = TxOutput(
    value: int64,
    pubKeyHash: Bytes,
    scriptType: ScriptType,
    dataHashLock: Bytes,
    timeoutBlock: int64,
    buyerPubKeyHash: Bytes)

  datatype Transaction = Transaction(id: Bytes, vin: seq<TxInput>, vout: seq<TxOutput>)
  {
    predicate IsCoinbase() {
      |vin| == 1 && vin[0].txid == [] && vin[0].vout == -1
    }
  }

  datatype Block = Block(
    timestamp: int64,
    txs: seq<Transaction>,
    prev: Bytes,
    hash: Bytes,
    nonce: int,
    height: int,
    bits: int,
    authoritySignature: Bytes,
    authorityPubKey: Bytes)

  type PrivateKey = int

  /** The primitives the ledger treats as black boxes: SHA-256, Hash160, gob encoding of a
      transaction, ECDSA on P-256 and the proof-of-authority check. Every theorem holds for
      every choice of them; nothing assumes that a hash is injective. */
  datatype Suite = Suite(
    sha256: Bytes -> Digest,
    hash160: Bytes -> KeyHash,
    serialize: Transaction -> Bytes,
    publicKey: PrivateKey -> Bytes64,
    sign: (PrivateKey, Digest, int) -> Bytes64,
    checkSignature: (Bytes64, Digest, Bytes64) -> bool,
    poaValid: Block -> bool)
  {
    /** The one law of signatures used: what a key signs (with any nonce) verifies under
        its own public key. */
    ghost predicate SignaturesVerify() {
      forall k: PrivateKey, d: Digest, n: int :: OwnSignatureVerifies(k, d, n)
    }

    predicate OwnSignatureVerifies(k: PrivateKey, d: Digest, n: int) {
      checkSignature(publicKey(k), d, sign(k, d, n))
    }

    /** transaction.go Hash: SHA-256 of the encoding with the ID blanked. */
    function TxHash(tx: Transaction): Digest {
      sha256(serialize(tx.(id := [])))
    }
  }

  /** Two different strings with one hash. */
  ghost predicate Collision(h: Bytes -> Digest, x: Bytes, y: Bytes) {
    x != y && h(x) == h(y)
  }

  function OutputValues(outs: seq<TxOutput>): (vs: seq<int>)
    ensures |vs| == |outs|
    ensures forall i :: 0 <= i < |outs| ==> vs[i] == outs[i].value
  {
    seq(|outs|, i requires 0 <= i < |outs| => outs[i].value)
  }

  function TotalValue(outs: seq<TxOutput>): int {
    Sum(OutputValues(outs))
  }
}
