/** Bytes, 64-bit integers and the small helpers every other module uses. */
module Prelude {

  type byte = b: int | 0 <= b < 256

  /** A Go byte slice. A nil slice and an empty slice are both `[]`. */
  type Bytes = seq<byte>

  /** A SHA-256 result. */
  type Digest = d: Bytes | |d| == 32 witness seq(32, _ => 0)

  /** A RIPEMD-160 result. */
  type KeyHash = d: Bytes | |d| == 20 witness seq(20, _ => 0)

  /** A P-256 public key (x || y) or signature (r || s), zero-padded. */
  type Bytes64 = d: Bytes | |d| == 64 witness seq(64, _ => 0)

  const TWO63: int := 0x8000_0000_0000_0000
  const TWO64: int := 0x1_0000_0000_0000_0000

  type int64 = x: int | -TWO63 <= x < TWO63

  datatype Option<+T> = None | Some(value: T)

  /** Two's-complement truncation to 64 bits: what Go's `+` on int64 does. */
  function Wrap64(x: int): (r: int64)
    ensures -TWO63 <= x < TWO63 ==> r == x
  {
    (x + TWO63) % TWO64 - TWO63
  }

  /** How many times 2^64 has to be taken off `x` to bring it into range. */
  function WrapCount(x: int): int {
    (x + TWO63) / TWO64
  }

  lemma WrapSplit(x: int)
    ensures x == Wrap64(x) + WrapCount(x) * TWO64
  {
  }

  lemma WrapShift(x: int, k: int)
    ensures Wrap64(x + k * TWO64) == Wrap64(x)
  {
  }

  /** Wrapping early or late gives the same 64-bit sum. */
  lemma WrapAbsorbs(x: int, y: int)
    ensures Wrap64(Wrap64(x) + y) == Wrap64(x + y)
  {
    WrapSplit(x);
    WrapShift(Wrap64(x) + y, WrapCount(x));
  }

  function Sum(xs: seq<int>): int {
    if xs == [] then 0 else Sum(xs[..|xs| - 1]) + xs[|xs| - 1]
  }

  lemma {:induction false} SumConcat(xs: seq<int>, ys: seq<int>)
    ensures Sum(xs + ys) == Sum(xs) + Sum(ys)
  {
    if ys == [] {
      assert xs + ys == xs;
    } else {
      SumConcat(xs, ys[..|ys| - 1]);
      assert (xs + ys)[..|xs + ys| - 1] == xs + ys[..|ys| - 1];
    }
  }

  lemma SumOne(x: int)
    ensures Sum([x]) == x
  {
    assert [x][..0] == [];
  }

  /** A sum is one element and everything around it. */
  lemma {:induction false} SumAround(xs: seq<int>, j: nat)
    requires j < |xs|
    ensures Sum(xs) == Sum(xs[..j] + xs[j + 1..]) + xs[j]
  {
    var n := |xs| - 1;
    var r := xs[..j] + xs[j + 1..];
    if j == n {
      assert r == xs[..n];
    } else {
      SumAround(xs[..n], j);
      assert r[..n - 1] == xs[..n][..j] + xs[..n][j + 1..];
      assert r[n - 1] == xs[n];
    }
  }

  lemma {:induction false} SumAtLeast(xs: seq<int>, lo: int)
    requires forall i :: 0 <= i < |xs| ==> lo <= xs[i]
    ensures |xs| * lo <= Sum(xs)
  {
    if xs != [] {
      SumAtLeast(xs[..|xs| - 1], lo);
      MulSucc(|xs| - 1, lo);
    }
  }

  lemma {:induction false} SumAtMost(xs: seq<int>, hi: int)
    requires forall i :: 0 <= i < |xs| ==> xs[i] <= hi
    ensures Sum(xs) <= |xs| * hi
  {
    if xs != [] {
      SumAtMost(xs[..|xs| - 1], hi);
      MulSucc(|xs| - 1, hi);
    }
  }

  lemma MulSucc(n: nat, k: int)
    ensures (n + 1) * k == n * k + k
  {
  }

  lemma SplitLast<T>(xs: seq<T>)
    requires xs != []
    ensures xs == xs[..|xs| - 1] + [xs[|xs| - 1]]
  {
  }

  lemma SplitAt<T>(xs: seq<T>, n: nat)
    requires 0 < n <= |xs|
    ensures xs[..n] == xs[..n - 1] + [xs[n - 1]]
  {
  }

  lemma TakeOneMore<T>(xs: seq<T>, i: nat)
    requires i < |xs|
    ensures xs[..i + 1] == xs[..i] + [xs[i]]
  {
  }

  lemma JoinThree<T>(a: seq<T>, b: seq<T>, c: seq<T>)
    ensures a + b + c == a + (b + c)
  {
  }

  predicate Distinct<T(==)>(xs: seq<T>) {
    forall i, j :: 0 <= i < j < |xs| ==> xs[i] != xs[j]
  }
}
