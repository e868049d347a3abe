/** internal/core/base58.go and ReverseBytes of internal/core/utils.go. */
module Base58 {
  import opened Prelude
  import opened Numerals

  /** The i-th character code of the alphabet
      "123456789ABCDEFGHJKLMNPQRSTUVWXYZabcdefghijkmnopqrstuvwxyz":
      the six runs 1-9, A-H, J-N, P-Z, a-k and m-z. */
  function Glyph(i: int): (c: byte)
    requires 0 <= i < 58
  {
    if i < 9 then '1' as int + i
    else if i < 17 then 'A' as int + i - 9
    else if i < 22 then 'J' as int + i - 17
    else if i < 33 then 'P' as int + i - 22
    else if i < 44 then 'a' as int + i - 33
    else 'm' as int + i - 44
  }

  function Alphabet(): (s: Bytes)
    ensures |s| == 58
    ensures forall i :: 0 <= i < 58 ==> s[i] == Glyph(i)
  {
    seq(58, i requires 0 <= i < 58 => Glyph(i))
  }

  /** bytes.IndexByte: the first position of `c`, or -1. */
  function IndexByte(s: Bytes, c: byte): (r: int)
    ensures -1 <= r < |s|
    ensures r >= 0 ==> s[r] == c
    ensures r < 0 <==> c !in s
  {
    if s == [] then -1
    else if s[0] == c then 0
    else var r := IndexByte(s[1..], c); if r < 0 then -1 else r + 1
  }

  function Indices(s: Bytes): (ds: seq<int>)
    ensures |ds| == |s|
    ensures forall i :: 0 <= i < |s| ==> ds[i] == IndexByte(Alphabet(), s[i])
  {
    seq(|s|, i requires 0 <= i < |s| => IndexByte(Alphabet(), s[i]))
  }

  function Glyphs(ds: seq<int>): (s: Bytes)
    requires InBase(ds, 58)
    ensures |s| == |ds|
    ensures forall i :: 0 <= i < |ds| ==> s[i] == Alphabet()[ds[i]]
  {
    seq(|ds|, i requires 0 <= i < |ds| => Alphabet()[ds[i]])
  }

  predicate OverAlphabet(s: Bytes) {
    forall i :: 0 <= i < |s| ==> s[i] in Alphabet()
  }

  function Abs(x: int): nat { if x < 0 then -x else x }

  lemma ByteValueNonNegative(b: Bytes)
    ensures Value(b, 256) >= 0
  {
    ValueNonNegative(b, 256);
  }

  function Ones(k: nat): Bytes {
    seq(k, _ => 49)
  }

  /** What Base58Encode returns: one '1' per leading zero byte, then the shortest base-58 numeral. */
  function Encode(b: Bytes): (s: Bytes) {
    ByteValueNonNegative(b);
    Ones(Leading(b, 0)) + Glyphs(Digits(Value(b, 256), 58))
  }

  /** What Base58Decode returns. A character outside the alphabet counts as -1, and
      `big.Int.Bytes` drops the sign of the accumulated number. */
  function Decode(s: Bytes): (b: Bytes) {
    var ds := Digits(Abs(Value(Indices(s), 58)), 256);
    Zeros(Leading(s, 49)) + ds
  }

  lemma IndexOfGlyph(d: int)
    requires 0 <= d < 58
    ensures IndexByte(Alphabet(), Alphabet()[d]) == d
  {
    assert Alphabet()[d] in Alphabet();
    var r := IndexByte(Alphabet(), Alphabet()[d]);
    assert Glyph(r) == Glyph(d);
  }

  lemma IndicesOfGlyphs(ds: seq<int>)
    requires InBase(ds, 58)
    ensures Indices(Glyphs(ds)) == ds
  {
    forall i | 0 <= i < |ds| ensures Indices(Glyphs(ds))[i] == ds[i] {
      IndexOfGlyph(ds[i]);
    }
  }

  lemma GlyphsOfIndices(s: Bytes)
    requires OverAlphabet(s)
    ensures InBase(Indices(s), 58) && Glyphs(Indices(s)) == s
  {
  }

  /** Only index 0 is written '1'. */
  lemma OneIsZeroDigit(c: byte)
    ensures c == 49 <==> IndexByte(Alphabet(), c) == 0
  {
    IndexOfGlyph(0);
  }

  lemma {:induction false} LeadingOnesAreZeros(s: Bytes)
    ensures Leading(s, 49) == Leading(Indices(s), 0)
  {
    if s != [] {
      OneIsZeroDigit(s[0]);
      LeadingOnesAreZeros(s[1..]);
      assert Indices(s)[1..] == Indices(s[1..]);
    }
  }

  lemma IndicesOfEncoding(b: Bytes)
    ensures Value(b, 256) >= 0
    ensures Indices(Encode(b)) == Zeros(Leading(b, 0)) + Digits(Value(b, 256), 58)
  {
    ByteValueNonNegative(b);
    var ds, ones := Digits(Value(b, 256), 58), Ones(Leading(b, 0));
    IndicesOfGlyphs(ds);
    IndicesOfConcat(ones, Glyphs(ds));
    assert Indices(ones) == Zeros(|ones|) by {
      OneIsZeroDigit(49);
    }
  }

  lemma IndicesOfConcat(s: Bytes, t: Bytes)
    ensures Indices(s + t) == Indices(s) + Indices(t)
  {
  }

  /** Decoding an encoding gives back every byte string, leading zeros and all-zero strings included. */
  lemma DecodeEncode(b: Bytes)
    ensures Decode(Encode(b)) == b
  {
    IndicesOfEncoding(b);
    var k, ds := Leading(b, 0), Digits(Value(b, 256), 58);
    ValueOfLeadingZeros(k, ds, 58);
    ValueOfDigits(Value(b, 256), 58);
    LeadingOnesAreZeros(Encode(b));
    LeadingOfRun(k, ds, 0);
    SplitLeadingZeros(b, 256);
  }

  lemma EncodeIsOverAlphabet(b: Bytes)
    ensures OverAlphabet(Encode(b))
  {
    assert Alphabet()[0] == 49;
  }

  /** Encoding a decoding gives back exactly the strings over the alphabet. */
  lemma EncodeDecode(s: Bytes)
    ensures Encode(Decode(s)) == s <==> OverAlphabet(s)
  {
    EncodeIsOverAlphabet(Decode(s));
    if OverAlphabet(s) {
      GlyphsOfIndices(s);
      var ix := Indices(s);
      SplitLeadingZeros(ix, 58);
      LeadingOnesAreZeros(s);
      var k, n := Leading(s, 49), Value(ix, 58);
      var ds := Digits(n, 256);
      assert Decode(s) == Zeros(k) + ds;
      ValueOfLeadingZeros(k, ds, 256);
      ValueOfDigits(n, 256);
      LeadingOfRun(k, ds, 0);
      assert ix == Zeros(k) + Digits(n, 58);
      assert Indices(Encode(Decode(s))) == ix by { IndicesOfEncoding(Decode(s)); }
      GlyphsOfIndices(Encode(Decode(s)));
    }
  }

  function Reversed<T>(s: seq<T>): (r: seq<T>)
    ensures |r| == |s|
    ensures forall i :: 0 <= i < |s| ==> r[i] == s[|s| - 1 - i]
  {
    seq(|s|, i requires 0 <= i < |s| => s[|s| - 1 - i])
  }

  /** utils.go ReverseBytes: two indices moving towards each other, swapping in place. */
  method ReverseBytes(data: array<byte>)
    modifies data
    ensures data[..] == Reversed(old(data[..]))
  {
    var i, j := 0, data.Length - 1;
    while i < j
      invariant 0 <= i && i + j == data.Length - 1 && i <= j + 1
      invariant forall k :: 0 <= k < i ==> data[k] == old(data[data.Length - 1 - k])
      invariant forall k :: j < k < data.Length ==> data[k] == old(data[data.Length - 1 - k])
      invariant forall k :: i <= k <= j ==> data[k] == old(data[k])
    {
      data[i], data[j] := data[j], data[i];
      i, j := i + 1, j - 1;
    }
  }

  lemma DigitStep(x: nat, result: Bytes)
    requires x > 0
    ensures Glyphs(Digits(x, 58)) + Reversed(result)
         == Glyphs(Digits(x / 58, 58)) + Reversed(result + [Alphabet()[x % 58]])
  {
    DigitsUnfold(x, 58);
    GlyphsAppend(Digits(x / 58, 58), x % 58);
    ReversedAppend(result, Alphabet()[x % 58]);
  }

  lemma GlyphsAppend(ds: seq<int>, d: int)
    requires InBase(ds, 58) && 0 <= d < 58
    ensures Glyphs(ds + [d]) == Glyphs(ds) + [Alphabet()[d]]
  {
  }

  lemma ReversedAppend(s: Bytes, c: byte)
    ensures Reversed(s + [c]) == [c] + Reversed(s)
  {
  }

  lemma ReversedRun(s: Bytes, k: nat)
    ensures Reversed(s + Ones(k)) == Ones(k) + Reversed(s)
  {
  }

  lemma OnesAppend(s: Bytes, k: nat)
    ensures s + Ones(k) + [Alphabet()[0]] == s + Ones(k + 1)
  {
  }

  /** The bytes of `s` in a fresh array, reversed there. */
  method ReversedCopy(s: Bytes) returns (r: Bytes)
    ensures r == Reversed(s)
  {
    var buffer := new byte[|s|](k requires 0 <= k < |s| => s[k]);
    assert buffer[..] == s;
    ReverseBytes(buffer);
    r := buffer[..];
  }

  /** The DivMod loop of Base58Encode: digits come out least significant first. */
  method DigitsBackwards(n: nat) returns (result: Bytes)
    ensures Reversed(result) == Glyphs(Digits(n, 58))
  {
    var x := n;
    result := [];
    while x != 0
      invariant x >= 0
      invariant Glyphs(Digits(x, 58)) + Reversed(result) == Glyphs(Digits(n, 58))
      decreases x
    {
      DigitStep(x, result);
      x, result := x / 58, result + [Alphabet()[x % 58]];
    }
  }

  /** The leading-zero loop of Base58Encode. */
  method AppendOnes(low: Bytes, input: Bytes) returns (result: Bytes)
    ensures result == low + Ones(Leading(input, 0))
  {
    result := low;
    var i := 0;
    while i < |input| && input[i] == 0
      invariant i <= Leading(input, 0)
      invariant result == low + Ones(i)
    {
      OnesAppend(low, i);
      result := result + [Alphabet()[0]];
      i := i + 1;
    }
  }

  /** base58.go Base58Encode: the digits, a '1' for each leading zero byte, all reversed. */
  method Base58Encode(input: Bytes) returns (s: Bytes)
    ensures s == Encode(input)
  {
    ByteValueNonNegative(input);
    var digits := DigitsBackwards(Value(input, 256));
    var result := AppendOnes(digits, input);
    ReversedRun(digits, Leading(input, 0));
    s := ReversedCopy(result);
  }

  /** base58.go Base58Decode. */
  method Base58Decode(input: Bytes) returns (b: Bytes)
    ensures b == Decode(input)
  {
    var result := 0;
    var zeroes := 0;
    while zeroes < |input| && input[zeroes] == 49
      invariant zeroes <= Leading(input, 49)
    {
      zeroes := zeroes + 1;
    }
    var i := 0;
    while i < |input|
      invariant 0 <= i <= |input|
      invariant result == Value(Indices(input[..i]), 58)
    {
      assert Indices(input[..i + 1])[..i] == Indices(input[..i]);
      var charIndex := IndexByte(Alphabet(), input[i]);
      result := result * 58 + charIndex;
      i := i + 1;
    }
    assert input[..i] == input;
    var decoded: Bytes := Digits(Abs(result), 256);
    if zeroes > 0 {
      decoded := Zeros(zeroes) + decoded;
    }
    b := decoded;
  }
}
