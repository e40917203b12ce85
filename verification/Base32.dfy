/**
 * Base32 as section 6 of RFC 4648 defines it, on bit strings.
 */
module Base32Spec {
  import opened Numbers

  // ---------------------------------------------------------------- bit strings

  /** The number a bit string stands for, first bit highest. */
  function Num(bits: seq<bool>): nat {
    if |bits| == 0 then 0
    else 2 * Num(bits[..|bits| - 1]) + (if bits[|bits| - 1] then 1 else 0)
  }

  /** The `n` low bits of a number, highest first. */
  function ToBits(v: nat, n: nat): (bits: seq<bool>)
    ensures |bits| == n
  {
    if n == 0 then [] else ToBits(v / 2, n - 1) + [v % 2 == 1]
  }

  function Zeros(n: nat): (bits: seq<bool>)
    ensures |bits| == n && forall i :: 0 <= i < n ==> !bits[i]
  {
    if n == 0 then [] else [false] + Zeros(n - 1)
  }

  lemma {:induction false} NumBound(bits: seq<bool>)
    ensures Num(bits) < Pow2(|bits|)
  {
    if |bits| > 0 {
      NumBound(bits[..|bits| - 1]);
    }
  }

  lemma NumLast(a: seq<bool>, b: seq<bool>)
    requires |b| > 0
    ensures Num(a + b) == 2 * Num(a + b[..|b| - 1]) + (if b[|b| - 1] then 1 else 0)
  {
    assert (a + b)[..|a + b| - 1] == a + b[..|b| - 1];
  }

  lemma {:induction false} NumConcat(a: seq<bool>, b: seq<bool>)
    ensures Num(a + b) == Num(a) * Pow2(|b|) + Num(b)
    decreases |b|
  {
    if |b| == 0 {
      assert a + b == a;
    } else {
      NumConcat(a, b[..|b| - 1]);
      NumLast(a, b);
      Doubled(Num(a), Pow2(|b| - 1));
    }
  }

  lemma Doubled(n: nat, p: nat)
    ensures 2 * (n * p) == n * (2 * p)
  {
  }

  lemma {:induction false} ToBitsNum(bits: seq<bool>)
    ensures ToBits(Num(bits), |bits|) == bits
  {
    if |bits| > 0 {
      ToBitsNum(bits[..|bits| - 1]);
    }
  }

  lemma {:induction false} NumToBits(v: nat, n: nat)
    requires v < Pow2(n)
    ensures Num(ToBits(v, n)) == v
  {
    if n > 0 {
      NumToBits(v / 2, n - 1);
      assert ToBits(v, n)[..n - 1] == ToBits(v / 2, n - 1);
    }
  }

  lemma {:induction false} NumZeros(n: nat)
    ensures Num(Zeros(n)) == 0
  {
    if n > 0 {
      NumZeros(n - 1);
      NumConcat([false], Zeros(n - 1));
      assert Num([false]) == 0;
    }
  }

  // ---------------------------------------------------------------- the definition

  /** The alphabet: letters for 0 to 25, the digits 2 to 7 for 26 to 31. */
  function Symbol(v: nat): char
    requires v < 32
  {
    if v < 26 then 'A' + v as char else '2' + (v - 26) as char
  }

  /** `BASE32_ALPHABET.indexOf(c)` */
  function IndexOf(c: char): (v: int)
    ensures -1 <= v < 32 && (v >= 0 ==> Symbol(v) == c)
    ensures v == -1 ==> forall i :: 0 <= i < 32 ==> Symbol(i) != c
  {
    if 'A' <= c <= 'Z' then (c - 'A') as int
    else if '2' <= c <= '7' then 26 + (c - '2') as int
    else -1
  }

  /** The bits of the input, eight for each byte. */
  function ByteBits(bytes: seq<Byte>): seq<bool> {
    if |bytes| == 0 then [] else ToBits(bytes[0], 8) + ByteBits(bytes[1..])
  }

  /** One symbol for every five bits; zero bits are added to a last group of fewer than five. */
  function Symbols(bits: seq<bool>): string {
    if |bits| == 0 then ""
    else if |bits| < 5 then
      NumBound(bits + Zeros(5 - |bits|));
      [Symbol(Num(bits + Zeros(5 - |bits|)))]
    else
      NumBound(bits[..5]);
      [Symbol(Num(bits[..5]))] + Symbols(bits[5..])
  }

  function Encode(bytes: seq<Byte>): string {
    Symbols(ByteBits(bytes))
  }

  predicate Valid(s: string) {
    forall i :: 0 <= i < |s| ==> IndexOf(s[i]) != -1
  }

  /** The bits of the symbols, five for each. */
  function SymbolBits(s: string): (bits: seq<bool>)
    requires Valid(s)
    ensures |bits| == 5 * |s|
  {
    if |s| == 0 then [] else ToBits(IndexOf(s[0]), 5) + SymbolBits(s[1..])
  }

  /** One byte for every eight bits; a last group of fewer than eight is dropped. */
  function Bytes(bits: seq<bool>): seq<Byte> {
    if |bits| < 8 then []
    else
      NumBound(bits[..8]);
      [Num(bits[..8])] + Bytes(bits[8..])
  }

  datatype Decoded = Decoded(bytes: seq<Byte>) | Invalid(c: char)

  function StripPadding(s: string): string {
    if |s| > 0 && s[|s| - 1] == '=' then StripPadding(s[..|s| - 1]) else s
  }

  /** What `toUpperCase` makes of each character; it may be several characters outside ASCII. */
  type CaseMap = char -> string

  /** The ASCII part of the mapping is known. */
  ghost predicate UpperCase(upper: CaseMap) {
    forall c :: c < '\U{80}' ==> upper(c) == AsciiUpper(c)
  }

  function AsciiUpper(c: char): string {
    if 'a' <= c <= 'z' then [c - 'a' + 'A'] else [c]
  }

  function MapAll(upper: CaseMap, s: string): string {
    if |s| == 0 then "" else upper(s[0]) + MapAll(upper, s[1..])
  }

  function Clean(upper: CaseMap, s: string): string {
    MapAll(upper, StripPadding(s))
  }

  /** The first character outside the alphabet. */
  function FirstInvalid(s: string): (c: char)
    requires !Valid(s)
  {
    if IndexOf(s[0]) == -1 then s[0] else FirstInvalid(s[1..])
  }

  function Decode(upper: CaseMap, s: string): Decoded {
    var clean := Clean(upper, s);
    if Valid(clean) then Decoded(Bytes(SymbolBits(clean))) else Invalid(FirstInvalid(clean))
  }

  // ---------------------------------------------------------------- round trips

  /** The zero bits added to complete the last group of five. */
  function Padding(n: nat): (padding: nat)
    ensures padding < 5 && (n + padding) % 5 == 0
  {
    if n == 0 then 0 else if n < 5 then 5 - n else Padding(n - 5)
  }

  lemma ByteBitsLength(bytes: seq<Byte>)
    ensures |ByteBits(bytes)| == 8 * |bytes|
  {
  }

  lemma {:induction false} ValidConcat(a: string, b: string)
    ensures Valid(a + b) <==> Valid(a) && Valid(b)
    ensures Valid(a + b) ==> SymbolBits(a + b) == SymbolBits(a) + SymbolBits(b)
  {
    if |a| == 0 {
      assert a + b == b;
    } else {
      assert (a + b)[1..] == a[1..] + b;
      ValidConcat(a[1..], b);
      assert forall i :: 0 <= i < |b| ==> b[i] == (a + b)[|a| + i];
      assert forall i :: 0 <= i < |a| ==> a[i] == (a + b)[i];
    }
  }

  lemma SymbolRead(bits: seq<bool>)
    requires |bits| == 5
    ensures Num(bits) < 32 && Valid([Symbol(Num(bits))]) && SymbolBits([Symbol(Num(bits))]) == bits
  {
    NumBound(bits);
    assert Pow2(5) == 32;
    ToBitsNum(bits);
    assert SymbolBits([Symbol(Num(bits))]) == ToBits(Num(bits), 5) + SymbolBits([]);
  }

  /** One more symbol in front. */
  lemma SymbolFirst(first: seq<bool>, rest: string, bits: seq<bool>)
    requires |first| == 5 && Valid(rest) && SymbolBits(rest) == bits
    ensures Num(first) < 32 && Valid([Symbol(Num(first))] + rest) &&
            SymbolBits([Symbol(Num(first))] + rest) == first + bits
  {
    SymbolRead(first);
    ValidConcat([Symbol(Num(first))], rest);
  }

  /** The bits of the symbols printed for a bit string are that string and its padding. */
  lemma {:induction false} SymbolsRead(bits: seq<bool>)
    ensures Valid(Symbols(bits)) && SymbolBits(Symbols(bits)) == bits + Zeros(Padding(|bits|))
    decreases |bits|
  {
    if |bits| == 0 {
    } else if |bits| < 5 {
      SymbolRead(bits + Zeros(5 - |bits|));
    } else {
      SymbolsRead(bits[5..]);
      SymbolFirst(bits[..5], Symbols(bits[5..]), bits[5..] + Zeros(Padding(|bits|)));
      FiveAndRest(bits, Zeros(Padding(|bits|)));
    }
  }

  lemma FiveAndRest(bits: seq<bool>, more: seq<bool>)
    requires |bits| >= 5
    ensures bits[..5] + (bits[5..] + more) == bits + more
  {
  }

  /** Fewer than eight bits behind the bytes are dropped. */
  lemma {:induction false} BytesRead(bytes: seq<Byte>, more: seq<bool>)
    requires |more| < 8
    ensures Bytes(ByteBits(bytes) + more) == bytes
  {
    if |bytes| == 0 {
      assert ByteBits(bytes) + more == more;
    } else {
      var first, bits := ToBits(bytes[0], 8), ByteBits(bytes) + more;
      assert bits[..8] == first && bits[8..] == ByteBits(bytes[1..]) + more;
      assert Pow2(8) == 256;
      NumToBits(bytes[0], 8);
      BytesRead(bytes[1..], more);
    }
  }

  lemma {:induction false} SymbolsLength(bits: seq<bool>)
    ensures |Symbols(bits)| == (|bits| + 4) / 5
    decreases |bits|
  {
    if |bits| >= 5 {
      SymbolsLength(bits[5..]);
    }
  }

  /** Five symbols for four bytes, rounded up. */
  lemma EncodedLength(bytes: seq<Byte>)
    ensures |Encode(bytes)| == (8 * |bytes| + 4) / 5
  {
    ByteBitsLength(bytes);
    SymbolsLength(ByteBits(bytes));
  }

  lemma {:induction false} ValidStaysUpper(upper: CaseMap, s: string)
    requires UpperCase(upper) && Valid(s)
    ensures MapAll(upper, s) == s
  {
    if |s| > 0 {
      assert upper(s[0]) == AsciiUpper(s[0]) == [s[0]];
      ValidStaysUpper(upper, s[1..]);
      assert s == [s[0]] + s[1..];
    }
  }

  lemma ValidIsClean(upper: CaseMap, s: string)
    requires UpperCase(upper) && Valid(s)
    ensures Clean(upper, s) == s
  {
    assert |s| > 0 ==> IndexOf(s[|s| - 1]) != -1 && IndexOf('=') == -1;
    ValidStaysUpper(upper, s);
  }

  /** Decoding undoes encoding on every byte sequence. */
  lemma RoundTrip(upper: CaseMap, bytes: seq<Byte>)
    requires UpperCase(upper)
    ensures Decode(upper, Encode(bytes)) == Decoded(bytes)
  {
    SymbolsRead(ByteBits(bytes));
    ValidIsClean(upper, Encode(bytes));
    BytesRead(bytes, Zeros(Padding(|ByteBits(bytes)|)));
  }

  // ---------------------------------------------------------------- what decoding ignores

  function Equals(n: nat): string {
    if n == 0 then "" else Equals(n - 1) + "="
  }

  /** The same text up to the case of ASCII letters. */
  ghost predicate SameLetters(upper: CaseMap, s: string, t: string) {
    |s| == |t| && forall i :: 0 <= i < |s| ==> s[i] < '\U{80}' && t[i] < '\U{80}' && upper(s[i]) == upper(t[i])
  }

  lemma {:induction false} StripEquals(s: string, n: nat)
    ensures StripPadding(s + Equals(n)) == StripPadding(s)
  {
    if n == 0 {
      assert s + Equals(n) == s;
    } else {
      assert s + Equals(n) == (s + Equals(n - 1)) + "=";
      StripEquals(s, n - 1);
    }
  }

  lemma {:induction false} SameStripped(upper: CaseMap, s: string, t: string)
    requires UpperCase(upper) && SameLetters(upper, s, t)
    ensures SameLetters(upper, StripPadding(s), StripPadding(t))
  {
    if |s| > 0 {
      var n := |s| - 1;
      assert upper(s[n]) == AsciiUpper(s[n]) && upper(t[n]) == AsciiUpper(t[n]);
      assert s[n] == '=' <==> AsciiUpper(s[n]) == "=";
      assert t[n] == '=' <==> AsciiUpper(t[n]) == "=";
      SameStripped(upper, s[..n], t[..n]);
    }
  }

  lemma {:induction false} SameMapped(upper: CaseMap, s: string, t: string)
    requires SameLetters(upper, s, t)
    ensures MapAll(upper, s) == MapAll(upper, t)
  {
    if |s| > 0 {
      SameMapped(upper, s[1..], t[1..]);
    }
  }

  /** Neither the case of letters nor padding at the end changes the decoding. */
  lemma CaseAndPaddingIgnored(upper: CaseMap, s: string, t: string, n: nat)
    requires UpperCase(upper) && SameLetters(upper, s, t)
    ensures Decode(upper, t + Equals(n)) == Decode(upper, s)
  {
    StripEquals(t, n);
    SameStripped(upper, s, t);
    SameMapped(upper, StripPadding(s), StripPadding(t));
  }

  // ---------------------------------------------------------------- canonical texts

  /** The length of the bits that decoding keeps. */
  function KeptLength(n: nat): (k: nat)
    ensures k <= n < k + 8
  {
    n / 8 * 8
  }

  /** The bits that decoding drops. */
  function Dropped(s: string): seq<bool>
    requires Valid(s)
  {
    SymbolBits(s)[KeptLength(5 * |s|)..]
  }

  lemma {:induction false} BytesBits(bits: seq<bool>)
    ensures ByteBits(Bytes(bits)) == bits[..KeptLength(|bits|)]
    decreases |bits|
  {
    if |bits| >= 8 {
      BytesBits(bits[8..]);
      ToBitsNum(bits[..8]);
      assert KeptLength(|bits|) == 8 + KeptLength(|bits[8..]|);
      assert bits[..KeptLength(|bits|)] == bits[..8] + bits[8..][..KeptLength(|bits[8..]|)];
    }
  }

  /** Symbols are determined by their bits. */
  lemma {:induction false} SymbolBitsInjective(s: string, t: string)
    requires Valid(s) && Valid(t) && SymbolBits(s) == SymbolBits(t)
    ensures s == t
  {
    if |s| > 0 {
      assert |t| > 0;
      assert SymbolBits(s)[..5] == ToBits(IndexOf(s[0]), 5) && SymbolBits(t)[..5] == ToBits(IndexOf(t[0]), 5);
      assert Pow2(5) == 32;
      NumToBits(IndexOf(s[0]), 5);
      NumToBits(IndexOf(t[0]), 5);
      assert SymbolBits(s)[5..] == SymbolBits(s[1..]) && SymbolBits(t)[5..] == SymbolBits(t[1..]);
      SymbolBitsInjective(s[1..], t[1..]);
      assert s == [s[0]] + s[1..] && t == [t[0]] + t[1..];
    }
  }

  lemma SamePrefix(kept: seq<bool>, dropped: seq<bool>)
    ensures kept + dropped == kept + Zeros(Padding(|kept|)) <==> dropped == Zeros(Padding(|kept|))
  {
    assert (kept + dropped)[|kept|..] == dropped;
    assert (kept + Zeros(Padding(|kept|)))[|kept|..] == Zeros(Padding(|kept|));
  }

  lemma PaddingLength(kept: nat, dropped: nat, n: nat)
    requires kept + dropped == 5 * n
    ensures Padding(kept) == dropped <==> dropped < 5
  {
    assert (kept + Padding(kept)) % 5 == 0;
  }

  lemma CanonicalParts(s: string, kept: seq<bool>, dropped: seq<bool>)
    requires Valid(s) && SymbolBits(s) == kept + dropped
    ensures Symbols(kept) == s <==> dropped == Zeros(Padding(|kept|))
  {
    SymbolsRead(kept);
    SamePrefix(kept, dropped);
    if dropped == Zeros(Padding(|kept|)) {
      SymbolBitsInjective(Symbols(kept), s);
    }
  }

  lemma ZerosLength(dropped: seq<bool>, n: nat)
    ensures dropped == Zeros(n) <==> |dropped| == n && dropped == Zeros(|dropped|)
  {
  }

  lemma ShortZeros(kept: seq<bool>, dropped: seq<bool>, n: nat)
    requires |kept| + |dropped| == 5 * n
    ensures dropped == Zeros(Padding(|kept|)) <==> |dropped| < 5 && dropped == Zeros(|dropped|)
  {
    PaddingLength(|kept|, |dropped|, n);
    ZerosLength(dropped, Padding(|kept|));
  }

  lemma CanonicalBits(s: string, kept: seq<bool>, dropped: seq<bool>)
    requires Valid(s) && SymbolBits(s) == kept + dropped
    ensures Symbols(kept) == s <==> |dropped| < 5 && dropped == Zeros(|dropped|)
  {
    CanonicalParts(s, kept, dropped);
    assert |kept| + |dropped| == |SymbolBits(s)|;
    ShortZeros(kept, dropped, |s|);
  }

  lemma KeptEncoded(s: string) returns (kept: seq<bool>)
    requires Valid(s)
    ensures SymbolBits(s) == kept + Dropped(s) && Encode(Bytes(SymbolBits(s))) == Symbols(kept)
  {
    var bits := SymbolBits(s);
    kept := bits[..KeptLength(|bits|)];
    BytesBits(bits);
  }

  /** Encoding undoes decoding exactly when the dropped bits are fewer than five and all zero. */
  lemma CanonicalText(s: string)
    requires Valid(s)
    ensures Encode(Bytes(SymbolBits(s))) == s <==> |Dropped(s)| < 5 && Dropped(s) == Zeros(|Dropped(s)|)
  {
    var kept := KeptEncoded(s);
    CanonicalBits(s, kept, Dropped(s));
  }
}
