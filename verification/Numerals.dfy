/** Positional numerals, most significant digit first: what `big.Int.SetBytes`,
    `big.Int.Bytes` and repeated `DivMod` compute. */
module Numerals {

  function Value(ds: seq<int>, base: nat): int {
    if ds == [] then 0 else Value(ds[..|ds| - 1], base) * base + ds[|ds| - 1]
  }

  /** The shortest numeral for `n`; zero has no digits. */
  function Digits(n: nat, base: nat): (ds: seq<int>)
    requires base >= 2
    ensures InBase(ds, base)
    ensures ds != [] ==> ds[0] != 0
    decreases n
  {
    if n == 0 then []
    else
      DivShrinks(n, base);
      Digits(n / base, base) + [n % base]
  }

  predicate InBase(ds: seq<int>, base: nat) {
    forall i :: 0 <= i < |ds| ==> 0 <= ds[i] < base
  }

  function Zeros(n: nat): seq<int> {
    seq(n, _ => 0)
  }

  /** How many elements at the front of `ds` equal `z`. */
  function Leading(ds: seq<int>, z: int): (n: nat)
    ensures n <= |ds|
    ensures forall i :: 0 <= i < n ==> ds[i] == z
    ensures n < |ds| ==> ds[n] != z
  {
    if ds == [] || ds[0] != z then 0 else 1 + Leading(ds[1..], z)
  }

  lemma DivShrinks(n: nat, base: nat)
    requires base >= 2 && n > 0
    ensures n / base < n
    ensures n == (n / base) * base + n % base
  {
    assert n == (n / base) * base + n % base;
  }

  lemma SmallMultipleIsZero(d: int, base: int)
    requires -base < d * base < base
    ensures d == 0
  {
    if d >= 1 {
      MulAtLeast(d, base);
    } else if d <= -1 {
      MulAtLeast(-d, base);
    }
  }

  lemma MulAtLeast(d: int, base: int)
    requires d >= 1 && base >= 0
    ensures d * base >= base
  {
  }

  lemma DivOfSum(q: nat, base: nat, r: nat)
    requires r < base
    ensures (q * base + r) / base == q
    ensures (q * base + r) % base == r
  {
    var n := q * base + r;
    var q' := n / base;
    assert n == q' * base + n % base;
    Distribute(q, q', base);
    SmallMultipleIsZero(q - q', base);
  }

  lemma Distribute(q: int, q': int, base: int)
    ensures (q - q') * base == q * base - q' * base
  {
  }

  lemma DigitsUnfold(n: nat, base: nat)
    requires base >= 2 && n > 0
    ensures Digits(n, base) == Digits(n / base, base) + [n % base]
  {
  }

  lemma {:induction false} ValueNonNegative(ds: seq<int>, base: nat)
    requires InBase(ds, base)
    ensures Value(ds, base) >= 0
  {
    if ds != [] {
      ValueNonNegative(ds[..|ds| - 1], base);
    }
  }

  lemma {:induction false} ValueOfDigits(n: nat, base: nat)
    requires base >= 2
    ensures Value(Digits(n, base), base) == n
    decreases n
  {
    if n != 0 {
      DivShrinks(n, base);
      ValueOfDigits(n / base, base);
      assert Digits(n, base)[..|Digits(n, base)| - 1] == Digits(n / base, base);
    }
  }

  lemma {:induction false} ValueOfLeadingZeros(k: nat, ds: seq<int>, base: nat)
    ensures Value(Zeros(k) + ds, base) == Value(ds, base)
  {
    var s := Zeros(k) + ds;
    if ds != [] {
      ValueOfLeadingZeros(k, ds[..|ds| - 1], base);
      assert s[..|s| - 1] == Zeros(k) + ds[..|ds| - 1];
    } else if k > 0 {
      ValueOfLeadingZeros(k - 1, [], base);
      assert s[..|s| - 1] == Zeros(k - 1) + [];
    }
  }

  lemma {:induction false} ValuePositive(ds: seq<int>, base: nat)
    requires base >= 2 && InBase(ds, base) && ds != [] && ds[0] != 0
    ensures Value(ds, base) > 0
  {
    if |ds| > 1 {
      ValuePositive(ds[..|ds| - 1], base);
    } else {
      assert ds[..0] == [];
    }
  }

  /** A numeral without leading zeros is the shortest numeral of its value. */
  lemma {:induction false} DigitsOfValue(ds: seq<int>, base: nat)
    requires base >= 2 && InBase(ds, base)
    requires ds != [] ==> ds[0] != 0
    ensures Value(ds, base) >= 0
    ensures Digits(Value(ds, base), base) == ds
  {
    ValueNonNegative(ds, base);
    if ds != [] {
      var front, last := ds[..|ds| - 1], ds[|ds| - 1];
      DigitsOfValue(front, base);
      ValuePositive(ds, base);
      DivOfSum(Value(front, base), base, last);
      assert ds == front + [last];
    }
  }

  /** Every numeral is a run of zeros followed by the shortest numeral of its value. */
  lemma SplitLeadingZeros(ds: seq<int>, base: nat)
    requires base >= 2 && InBase(ds, base)
    ensures Value(ds, base) >= 0
    ensures ds == Zeros(Leading(ds, 0)) + Digits(Value(ds, base), base)
  {
    var k := Leading(ds, 0);
    var tail := ds[k..];
    assert ds == Zeros(k) + tail;
    ValueOfLeadingZeros(k, tail, base);
    DigitsOfValue(tail, base);
  }

  /** A zero run followed by a shortest numeral has exactly that many leading zeros. */
  lemma {:induction false} LeadingOfRun(k: nat, ds: seq<int>, z: int)
    requires ds != [] ==> ds[0] != z
    ensures Leading(seq(k, _ => z) + ds, z) == k
  {
    if k > 0 {
      LeadingOfRun(k - 1, ds, z);
      assert (seq(k, _ => z) + ds)[1..] == seq(k - 1, _ => z) + ds;
    } else {
      assert seq(0, _ => z) + ds == ds;
    }
  }
}
