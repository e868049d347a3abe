/** internal/core/wallet.go addresses and TXOutput.Lock of internal/core/transaction_output.go. */
module Wallets {
  import opened Prelude
  import opened Ledger
  import Base58

  const VERSION: byte := 0
  const CHECKSUM_LENGTH := 4

  datatype Wallet = Wallet(privateKey: PrivateKey, publicKey: Bytes64)

  predicate OwnsItsKey(c: Suite, w: Wallet) {
    w.publicKey == c.publicKey(w.privateKey)
  }

  function Checksum(c: Suite, payload: Bytes): (s: Bytes)
    ensures |s| == CHECKSUM_LENGTH
  {
    c.sha256(c.sha256(payload))[..CHECKSUM_LENGTH]
  }

  function GetAddress(c: Suite, pubKey: Bytes): Bytes {
    var payload := [VERSION] + c.hash160(pubKey);
    Base58.Encode(WithChecksum(c, payload))
  }

  predicate ValidateAddress(c: Suite, address: Bytes) {
    EndsInChecksum(c, Base58.Decode(address))
  }

  predicate EndsInChecksum(c: Suite, d: Bytes) {
    |d| >= CHECKSUM_LENGTH + 1 &&
    d[|d| - CHECKSUM_LENGTH..] == Checksum(c, [d[0]] + d[1..|d| - CHECKSUM_LENGTH])
  }

  function WithChecksum(c: Suite, payload: Bytes): Bytes {
    payload + Checksum(c, payload)
  }

  /** The key hash TXOutput.Lock stores, or None where it reports a malformed address. */
  function LockedHash(address: Bytes): Option<Bytes> {
    var d := Base58.Decode(address);
    if |d| < CHECKSUM_LENGTH + 1 then None else Some(d[1..|d| - CHECKSUM_LENGTH])
  }

  /** An address is valid exactly when it decodes to at least five bytes, the last four of which begin
      the double SHA-256 of the others. */
  lemma ValidExactly(c: Suite, address: Bytes)
    ensures var d := Base58.Decode(address);
            ValidateAddress(c, address) <==>
            |d| >= 5 && d[|d| - 4..] == c.sha256(c.sha256(d[..|d| - 4]))[..4]
  {
    var d := Base58.Decode(address);
    if |d| >= 5 {
      assert [d[0]] + d[1..|d| - 4] == d[..|d| - 4];
    }
  }

  /** So two valid addresses end in the same four bytes exactly when the double SHA-256 of their
      payloads begins with the same four. */
  lemma ChecksumsAgree(c: Suite, a: Bytes, b: Bytes)
    requires ValidateAddress(c, a) && ValidateAddress(c, b)
    ensures var d, e := Base58.Decode(a), Base58.Decode(b);
            d[|d| - 4..] == e[|e| - 4..] <==>
            c.sha256(c.sha256(d[..|d| - 4]))[..4] == c.sha256(c.sha256(e[..|e| - 4]))[..4]
  {
    ValidExactly(c, a);
    ValidExactly(c, b);
  }

  /** Every wallet's address validates, and locking to it stores exactly the wallet's key hash. */
  lemma WalletAddress(c: Suite, pubKey: Bytes)
    ensures ValidateAddress(c, GetAddress(c, pubKey))
    ensures LockedHash(GetAddress(c, pubKey)) == Some(c.hash160(pubKey))
    ensures |Base58.Decode(GetAddress(c, pubKey))| == 25 && Base58.Decode(GetAddress(c, pubKey))[0] == 0
  {
    var payload := [VERSION] + c.hash160(pubKey);
    Base58.DecodeEncode(WithChecksum(c, payload));
    ChecksummedPayload(c, payload);
  }

  lemma ChecksummedPayload(c: Suite, payload: Bytes)
    requires |payload| >= 1
    ensures EndsInChecksum(c, WithChecksum(c, payload))
  {
    var d := WithChecksum(c, payload);
    assert [d[0]] + d[1..|d| - CHECKSUM_LENGTH] == payload;
  }

  lemma ChecksumSplits(c: Suite, d: Bytes)
    requires EndsInChecksum(c, d)
    ensures d == WithChecksum(c, d[..|d| - CHECKSUM_LENGTH])
  {
    assert [d[0]] + d[1..|d| - CHECKSUM_LENGTH] == d[..|d| - CHECKSUM_LENGTH];
  }

  predicate Spells(c: Suite, payload: Bytes, address: Bytes) {
    |payload| >= 1 && address == Base58.Encode(WithChecksum(c, payload))
  }

  lemma ValidIsSpelled(c: Suite, address: Bytes)
    requires Base58.OverAlphabet(address) && ValidateAddress(c, address)
    ensures exists payload: Bytes :: Spells(c, payload, address)
  {
    var d := Base58.Decode(address);
    assert Base58.Encode(d) == address by { Base58.EncodeDecode(address); }
    ChecksumSplits(c, d);
    assert Spells(c, d[..|d| - CHECKSUM_LENGTH], address);
  }

  lemma SpelledIsValid(c: Suite, payload: Bytes, address: Bytes)
    requires Spells(c, payload, address)
    ensures ValidateAddress(c, address)
  {
    assert Base58.Decode(address) == WithChecksum(c, payload) by {
      Base58.DecodeEncode(WithChecksum(c, payload));
    }
    ChecksummedPayload(c, payload);
  }

  /** Among strings over the alphabet, the valid addresses are exactly the encodings of
      payloads followed by their checksum. */
  lemma ValidAddresses(c: Suite, address: Bytes)
    requires Base58.OverAlphabet(address)
    ensures ValidateAddress(c, address) <==> exists payload: Bytes :: Spells(c, payload, address)
  {
    if ValidateAddress(c, address) {
      ValidIsSpelled(c, address);
    }
    if payload: Bytes :| Spells(c, payload, address) {
      SpelledIsValid(c, payload, address);
    }
  }

  /** A version byte and a key hash have at most one valid spelling over the alphabet. */
  lemma AddressIsUnique(c: Suite, a: Bytes, b: Bytes)
    requires Base58.OverAlphabet(a) && Base58.OverAlphabet(b)
    requires ValidateAddress(c, a) && ValidateAddress(c, b)
    requires Base58.Decode(a)[0] == Base58.Decode(b)[0]
    requires LockedHash(a) == LockedHash(b)
    ensures a == b
  {
    var d, e := Base58.Decode(a), Base58.Decode(b);
    ChecksumSplits(c, d);
    ChecksumSplits(c, e);
    assert d[..|d| - CHECKSUM_LENGTH] == [d[0]] + LockedHash(a).value;
    assert e[..|e| - CHECKSUM_LENGTH] == [e[0]] + LockedHash(b).value;
    Base58.EncodeDecode(a);
    Base58.EncodeDecode(b);
  }
}
