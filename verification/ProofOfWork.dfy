/** internal/core/proofofwork.go and internal/core/block.go. */
module ProofOfWork {
  import opened Prelude
  import opened Ledger
  import opened Numerals
  import Merkle

  const MAX_NONCE: int := 0x7FFF_FFFF_FFFF_FFFF
  const TARGET_BITS: int := 16
  const ADJUSTMENT_INTERVAL: int := 10
  const TARGET_BLOCK_SECONDS: int := 600

  function EffectiveBits(bits: int): int {
    if bits == 0 then TARGET_BITS else bits
  }

  function Pow2(n: nat): (p: nat)
    ensures p > 0
  {
    if n == 0 then 1 else 2 * Pow2(n - 1)
  }

  /** The bound `1 << (256 - bits)` a hash must stay below. */
  function Target(bits: int): nat
    requires EffectiveBits(bits) <= 256
  {
    Pow2(256 - EffectiveBits(bits))
  }

  function FixedBytes(n: nat, width: nat): (s: Bytes)
    ensures |s| == width
  {
    if width == 0 then [] else FixedBytes(n / 256, width - 1) + [n % 256]
  }

  /** utils.go IntToHex: eight bytes, big-endian, two's complement. */
  function IntToHex(x: int): (s: Bytes) {
    FixedBytes(x % TWO64, 8)
  }

  function Serialized(c: Suite, txs: seq<Transaction>): (data: seq<Bytes>)
    ensures |data| == |txs|
    ensures forall i :: 0 <= i < |txs| ==> data[i] == c.serialize(txs[i])
  {
    seq(|txs|, i requires 0 <= i < |txs| => c.serialize(txs[i]))
  }

  /** block.go HashTransactions: the Merkle root, or nil for an empty block. */
  function TransactionsHash(c: Suite, txs: seq<Transaction>): Bytes {
    if txs == [] then [] else Merkle.Root(c.sha256, Serialized(c, txs))
  }

  method HashTransactions(c: Suite, b: Block) returns (h: Bytes)
    ensures h == TransactionsHash(c, b.txs)
  {
    if |b.txs| == 0 {
      return [];
    }
    var data: seq<Bytes> := [];
    for i := 0 to |b.txs|
      invariant data == Serialized(c, b.txs[..i])
    {
      data := data + [c.serialize(b.txs[i])];
    }
    assert b.txs[..|b.txs|] == b.txs;
    var root := Merkle.NewMerkleTree(c.sha256, data);
    h := root.value;
  }

  function PrepareData(b: Block, nonce: int, txHash: Bytes): Bytes {
    b.prev + txHash + IntToHex(b.timestamp) + IntToHex(EffectiveBits(b.bits)) + IntToHex(nonce)
  }

  /** The hash a nonce gives the block. */
  function HashAt(c: Suite, b: Block, nonce: int): Digest {
    c.sha256(PrepareData(b, nonce, TransactionsHash(c, b.txs)))
  }

  predicate Works(c: Suite, b: Block, nonce: int)
    requires EffectiveBits(b.bits) <= 256
  {
    Value(HashAt(c, b, nonce), 256) < Target(b.bits)
  }

  /** proofofwork.go Validate: it checks the recorded nonce, not the recorded hash. */
  predicate Validate(c: Suite, b: Block)
    requires EffectiveBits(b.bits) <= 256
  {
    Works(c, b, b.nonce)
  }

  // ---------- The target is a count of leading zero bits ----------

  /** The `width` low bits of `x`, most significant first. */
  function LowBits(x: nat, width: nat): (bits: seq<int>)
    ensures |bits| == width && InBase(bits, 2)
  {
    if width == 0 then [] else LowBits(x / 2, width - 1) + [x % 2]
  }

  /** The bits of a byte string, most significant first. */
  function BitsOf(d: Bytes): (bits: seq<int>)
    ensures |bits| == 8 * |d| && InBase(bits, 2)
  {
    if d == [] then [] else BitsOf(d[..|d| - 1]) + LowBits(d[|d| - 1], 8)
  }

  lemma ValueStep(s: seq<int>, x: int)
    ensures Value(s + [x], 2) == 2 * Value(s, 2) + x
  {
    assert (s + [x])[..|s|] == s;
  }

  lemma {:induction false} ValueOfLowBits(s: seq<int>, x: nat, width: nat)
    requires x < Pow2(width)
    ensures Value(s + LowBits(x, width), 2) == Value(s, 2) * Pow2(width) + x
  {
    if width == 0 {
      assert s + LowBits(x, 0) == s;
    } else {
      ValueOfLowBits(s, x / 2, width - 1);
      var front := s + LowBits(x / 2, width - 1);
      ValueStep(front, x % 2);
      assert s + LowBits(x, width) == front + [x % 2];
      DoubleProduct(Value(s, 2), Pow2(width - 1));
    }
  }

  lemma DoubleProduct(v: int, p: int)
    ensures 2 * (v * p) == v * (2 * p)
  {
  }

  lemma {:induction false} ValueOfBits(d: Bytes)
    ensures Value(BitsOf(d), 2) == Value(d, 256)
  {
    if d != [] {
      ValueOfBits(d[..|d| - 1]);
      assert Pow2(8) == 256;
      ValueOfLowBits(BitsOf(d[..|d| - 1]), d[|d| - 1], 8);
    }
  }

  lemma {:induction false} BinaryUpper(s: seq<int>)
    requires InBase(s, 2)
    ensures 0 <= Value(s, 2) < Pow2(|s|)
  {
    if s != [] {
      BinaryUpper(s[..|s| - 1]);
    }
  }

  lemma {:induction false} BinaryLower(s: seq<int>, i: nat)
    requires InBase(s, 2) && i < |s| && s[i] != 0
    ensures Value(s, 2) >= Pow2(|s| - 1 - i)
  {
    if i == |s| - 1 {
      BinaryUpper(s[..|s| - 1]);
    } else {
      BinaryLower(s[..|s| - 1], i);
    }
  }

  lemma {:induction false} Pow2Monotone(a: nat, b: nat)
    requires a <= b
    ensures Pow2(a) <= Pow2(b)
  {
    if a < b {
      Pow2Monotone(a, b - 1);
    }
  }

  /** A hash is below `1 << (256 - bits)` exactly when its first `bits` bits are zero. */
  lemma TargetIsLeadingZeros(d: Digest, bits: int)
    requires 1 <= bits <= 256
    ensures Value(d, 256) < Target(bits) <==> forall i :: 0 <= i < bits ==> BitsOf(d)[i] == 0
  {
    ValueOfBits(d);
    ZeroBitsDecide(BitsOf(d), bits, 256 - bits);
  }

  /** A difficulty below zero asks nothing. */
  lemma MeetsTarget(d: Digest, bits: int)
    requires bits <= 256 && bits != 0
    ensures Value(d, 256) < Target(bits) <==> forall i :: 0 <= i < bits ==> BitsOf(d)[i] == 0
  {
    if bits > 0 {
      TargetIsLeadingZeros(d, bits);
    } else {
      HashBelow(d, 256 - bits);
    }
  }

  lemma HashBelow(d: Digest, k: nat)
    requires k >= 256
    ensures Value(d, 256) < Pow2(k)
  {
    ValueOfBits(d);
    BinaryUpper(BitsOf(d));
    Pow2Monotone(256, k);
  }

  lemma ZeroBitsDecide(s: seq<int>, k: nat, rest: nat)
    requires InBase(s, 2) && |s| == k + rest
    ensures Value(s, 2) < Pow2(rest) <==> forall i :: 0 <= i < k ==> s[i] == 0
  {
    if forall i :: 0 <= i < k ==> s[i] == 0 {
      ZerosMeanSmall(s, k);
    } else {
      var i: nat :| i < k && s[i] != 0;
      BinaryLower(s, i);
      Pow2Monotone(rest, |s| - 1 - i);
    }
  }

  lemma ZerosMeanSmall(s: seq<int>, k: nat)
    requires InBase(s, 2) && k <= |s| && forall i :: 0 <= i < k ==> s[i] == 0
    ensures Value(s, 2) < Pow2(|s| - k)
  {
    assert s == Zeros(k) + s[k..];
    ValueOfLeadingZeros(k, s[k..], 2);
    BinaryUpper(s[k..]);
  }

  // ---------- The header ----------

  lemma {:induction false} ValueOfFixed(n: nat, width: nat)
    requires n < Pow2(8 * width)
    ensures Value(FixedBytes(n, width), 256) == n
  {
    if width > 0 {
      EightBits(8 * (width - 1));
      ValueOfFixed(n / 256, width - 1);
      assert FixedBytes(n, width)[..width - 1] == FixedBytes(n / 256, width - 1);
    }
  }

  lemma EightBits(k: nat)
    ensures Pow2(k + 8) == 256 * Pow2(k)
  {
    assert Pow2(k + 8) == 4 * Pow2(k + 6) && Pow2(k + 6) == 4 * Pow2(k + 4);
    assert Pow2(k + 4) == 4 * Pow2(k + 2);
  }

  lemma EightBytes()
    ensures Pow2(64) == TWO64
  {
    EightBits(0);
    EightBits(8);
    EightBits(16);
    EightBits(24);
    EightBits(32);
    EightBits(40);
    EightBits(48);
    EightBits(56);
  }

  /** IntToHex writes the number modulo 2^64, most significant byte first. */
  lemma ValueOfHex(x: int)
    ensures |IntToHex(x)| == 8 && Value(IntToHex(x), 256) == x % TWO64
  {
    EightBytes();
    ValueOfFixed(x % TWO64, 8);
  }

  lemma HexIsInjective(x: int64, y: int64)
    requires IntToHex(x) == IntToHex(y)
    ensures x == y
  {
    ValueOfHex(x);
    ValueOfHex(y);
  }

  /** Headers over parents of one length that spell the same bytes agree in all five fields. */
  lemma HeaderIsInjective(a: Block, n: int64, aHash: Bytes, b: Block, m: int64, bHash: Bytes)
    requires |a.prev| == |b.prev| && PrepareData(a, n, aHash) == PrepareData(b, m, bHash)
    requires -TWO63 <= a.bits < TWO63 && -TWO63 <= b.bits < TWO63
    ensures a.prev == b.prev && aHash == bHash && a.timestamp == b.timestamp &&
            EffectiveBits(a.bits) == EffectiveBits(b.bits) && n == m
  {
    var x, y := PrepareData(a, n, aHash), PrepareData(b, m, bHash);
    var p, q := |a.prev|, |a.prev| + |aHash|;
    assert |x| == q + 24 && |y| == |b.prev| + |bHash| + 24;
    assert x[..p] == a.prev && y[..p] == b.prev;
    assert x[p..q] == aHash && y[p..q] == bHash;
    assert x[q..q + 8] == IntToHex(a.timestamp) && y[q..q + 8] == IntToHex(b.timestamp);
    assert x[q + 8..q + 16] == IntToHex(EffectiveBits(a.bits)) && y[q + 8..q + 16] == IntToHex(EffectiveBits(b.bits));
    assert x[q + 16..] == IntToHex(n) && y[q + 16..] == IntToHex(m);
    HexIsInjective(a.timestamp, b.timestamp);
    HexIsInjective(EffectiveBits(a.bits), EffectiveBits(b.bits));
    HexIsInjective(n, m);
  }

  /** The bytes a block hash is taken of: parent, Merkle root, time, difficulty and nonce, in this order. */
  lemma HashIsOfHeader(c: Suite, b: Block, nonce: int)
    requires b.txs != []
    ensures var root := Merkle.Root(c.sha256, seq(|b.txs|, i requires 0 <= i < |b.txs| => c.serialize(b.txs[i])));
            HashAt(c, b, nonce) ==
            c.sha256(b.prev + root + IntToHex(b.timestamp) + IntToHex(if b.bits == 0 then 16 else b.bits) +
                     IntToHex(nonce))
  {
    assert Serialized(c, b.txs) == seq(|b.txs|, i requires 0 <= i < |b.txs| => c.serialize(b.txs[i]));
  }

  /** So one hash stands for one header and one list of encoded transactions of its length, or SHA-256
      collides on the headers or inside the two Merkle trees. */
  lemma HashBindsBlock(c: Suite, a: Block, n: int64, b: Block, m: int64)
    requires |a.prev| == |b.prev| && |a.txs| == |b.txs| && a.txs != [] && HashAt(c, a, n) == HashAt(c, b, m)
    requires -TWO63 <= a.bits < TWO63 && -TWO63 <= b.bits < TWO63
    ensures (a.prev == b.prev && a.timestamp == b.timestamp && EffectiveBits(a.bits) == EffectiveBits(b.bits) &&
             n == m && forall i :: 0 <= i < |a.txs| ==> c.serialize(a.txs[i]) == c.serialize(b.txs[i])) ||
            Collision(c.sha256, PrepareData(a, n, TransactionsHash(c, a.txs)),
                      PrepareData(b, m, TransactionsHash(c, b.txs))) ||
            Merkle.TreesCollide(c.sha256, Serialized(c, a.txs), Serialized(c, b.txs))
  {
    var x, y := TransactionsHash(c, a.txs), TransactionsHash(c, b.txs);
    if PrepareData(a, n, x) == PrepareData(b, m, y) {
      HeaderIsInjective(a, n, x, b, m, y);
      Merkle.EqualLengthBinding(c.sha256, Serialized(c, a.txs), Serialized(c, b.txs));
      if Serialized(c, a.txs) == Serialized(c, b.txs) {
        forall i | 0 <= i < |a.txs| ensures c.serialize(a.txs[i]) == c.serialize(b.txs[i]) {
          assert Serialized(c, a.txs)[i] == Serialized(c, b.txs)[i];
        }
      }
    }
  }

  // ---------- Mining ----------

  /** The search reaches nonce `n`, polls the context there and finds it cancelled. */
  ghost predicate StopsAt(c: Suite, b: Block, cancelled: int -> bool, n: int)
    requires EffectiveBits(b.bits) <= 256
  {
    n % 1000 == 0 && 0 <= n < MAX_NONCE && cancelled(n) && forall m :: 0 <= m < n ==> !Works(c, b, m)
  }

  /** The block NewBlock fills in before it searches. */
  function Draft(now: int64, txs: seq<Transaction>, prev: Bytes, height: int, bits: int): Block {
    Block(now, txs, prev, [], 0, height, EffectiveBits(bits), [], [])
  }

  datatype RunResult = Found(nonce: int, hash: Bytes) | NoTransactions | Cancelled

  /** proofofwork.go Run. `cancelled(n)` is what polling the context at nonce `n` reports. */
  method Run(c: Suite, b: Block, cancelled: int -> bool) returns (r: RunResult)
    requires EffectiveBits(b.bits) <= 256
    ensures r.NoTransactions? <==> b.txs == []
    ensures r.Cancelled? <==> b.txs != [] && exists n :: StopsAt(c, b, cancelled, n)
    ensures r.Found? ==> 0 <= r.nonce <= MAX_NONCE && forall n :: 0 <= n < r.nonce ==> !Works(c, b, n)
    ensures r.Found? && r.nonce < MAX_NONCE ==> Works(c, b, r.nonce) && r.hash == HashAt(c, b, r.nonce)
    ensures r.Found? && r.nonce == MAX_NONCE ==> r.hash == HashAt(c, b, MAX_NONCE - 1)
  {
    var nonce := 0;
    var hash: Bytes := [];
    var txHash := HashTransactions(c, b);
    if |txHash| == 0 {
      return NoTransactions;
    }
    while nonce < MAX_NONCE
      invariant 0 <= nonce <= MAX_NONCE
      invariant forall n :: 0 <= n < nonce ==> !Works(c, b, n)
      invariant forall n :: 0 <= n < nonce && n % 1000 == 0 ==> !cancelled(n)
      invariant nonce > 0 ==> hash == HashAt(c, b, nonce - 1)
    {
      if nonce % 1000 == 0 && cancelled(nonce) {
        assert StopsAt(c, b, cancelled, nonce);
        return Cancelled;
      }
      hash := c.sha256(PrepareData(b, nonce, txHash));
      assert hash == HashAt(c, b, nonce);
      if Value(hash, 256) < Target(b.bits) {
        assert Works(c, b, nonce);
        return Found(nonce, hash);
      }
      nonce := nonce + 1;
    }
    r := Found(nonce, hash);
  }

  datatype BlockResult = Mined(block: Block) | Failed

  /** block.go NewBlock. */
  method NewBlock(c: Suite, now: int64, txs: seq<Transaction>, prev: Bytes, height: int, bits: int,
                  cancelled: int -> bool)
    returns (r: BlockResult)
    requires EffectiveBits(bits) <= 256
    ensures r.Failed? <==>
            txs == [] || exists n :: StopsAt(c, Draft(now, txs, prev, height, bits), cancelled, n)
    ensures r.Mined? ==>
              var b := r.block;
              b.txs == txs != [] && b.prev == prev && b.height == height && b.timestamp == now &&
              b.bits == EffectiveBits(bits) && b.authoritySignature == [] && |b.hash| == 32 &&
              0 <= b.nonce <= MAX_NONCE
    ensures r.Mined? && r.block.nonce < MAX_NONCE ==>
              Admissible(c, r.block) && r.block.hash == HashAt(c, r.block, r.block.nonce) &&
              forall n :: 0 <= n < r.block.nonce ==> !Works(c, r.block, n)
    ensures r.Mined? && r.block.nonce == MAX_NONCE ==> r.block.hash == HashAt(c, r.block, MAX_NONCE - 1)
  {
    var effective := if bits == 0 then TARGET_BITS else bits;
    var block := Block(now, txs, prev, [], 0, height, effective, [], []);
    assert block == Draft(now, txs, prev, height, bits);
    var found := Run(c, block, cancelled);
    if !found.Found? {
      return Failed;
    }
    ghost var draft := block;
    block := block.(hash := found.hash, nonce := found.nonce);
    assert forall n :: HashAt(c, block, n) == HashAt(c, draft, n);
    assert forall n :: Works(c, block, n) == Works(c, draft, n);
    r := Mined(block);
  }

  /** blockchain.go AddBlock's admission check. */
  predicate Admissible(c: Suite, b: Block) {
    if b.authoritySignature != [] then c.poaValid(b)
    else EffectiveBits(b.bits) <= 256 && Validate(c, b)
  }

  /** A block without an authority's signature is admitted exactly when its recorded nonce gives a
      hash with as many leading zero bits as its difficulty asks, 16 where it asks none. */
  lemma AdmissibleExactly(c: Suite, b: Block)
    ensures b.authoritySignature != [] ==> (Admissible(c, b) <==> c.poaValid(b))
    ensures b.authoritySignature == [] ==>
              var bits := if b.bits == 0 then 16 else b.bits;
              (Admissible(c, b) <==>
               bits <= 256 && forall i :: 0 <= i < bits ==> BitsOf(HashAt(c, b, b.nonce))[i] == 0)
  {
    if b.authoritySignature == [] && EffectiveBits(b.bits) <= 256 {
      MeetsTarget(HashAt(c, b, b.nonce), EffectiveBits(b.bits));
    }
  }

  // ---------- Difficulty ----------

  function Clamp(bits: int): int {
    if bits < 8 then 8 else if bits > 24 then 24 else bits
  }

  /** proofofwork.go CalculateNewDifficulty. */
  function CalculateNewDifficulty(last: Block, anchor: Block): (bits: int)
    ensures last.height % ADJUSTMENT_INTERVAL != 0 ==> bits == last.bits
    ensures last.height % ADJUSTMENT_INTERVAL == 0 ==> 8 <= bits <= 24
    ensures 8 <= last.bits <= 24 ==> last.bits - 1 <= bits <= last.bits + 1
    ensures last.height % ADJUSTMENT_INTERVAL == 0 && 8 <= last.bits <= 24 ==>
              var taken := Wrap64(last.timestamp - anchor.timestamp);
              (bits > last.bits <==> taken < 3000 && last.bits < 24) &&
              (bits < last.bits <==> taken > 12000 && last.bits > 8)
  {
    if last.height % ADJUSTMENT_INTERVAL != 0 then last.bits
    else
      var actual := Wrap64(last.timestamp - anchor.timestamp);
      var target := ADJUSTMENT_INTERVAL * TARGET_BLOCK_SECONDS;
      if actual < target / 2 then Clamp(last.bits + 1)
      else if actual > target * 2 then Clamp(last.bits - 1)
      else Clamp(last.bits)
  }
}
