/**
 * Base32 in groups of five bytes and eight symbols, in arithmetic (section 6 of RFC 4648): an independent account of
 * the definition on bit strings.
 */
module Base32Groups {
  import opened Numbers
  import opened Base32Spec
  import Words
  import Base32

  const ALPHABET := "ABCDEFGHIJKLMNOP" + "QRSTUVWXYZ234567"

  /** The symbol of a number is its place in the alphabet, and the other way round. */
  lemma AlphabetExactly(v: nat, c: char)
    requires v < 32
    ensures |ALPHABET| == 32 && Symbol(v) == ALPHABET[v] && IndexOf(ALPHABET[v]) == v
    ensures IndexOf(c) == -1 <==> c !in ALPHABET
  {
    LettersInOrder(v);
    if c in ALPHABET {
      var i :| 0 <= i < |ALPHABET| && ALPHABET[i] == c;
      LettersInOrder(i);
    }
    if IndexOf(c) >= 0 {
      LettersInOrder(IndexOf(c));
    }
  }

  lemma LettersInOrder(v: nat)
    requires v < 32
    ensures |ALPHABET| == 32 && Symbol(v) == ALPHABET[v]
  {
    if v < 16 {
      assert ALPHABET[v] == "ABCDEFGHIJKLMNOP"[v];
    } else {
      assert ALPHABET[v] == "QRSTUVWXYZ234567"[v - 16];
    }
  }

  /** The eight symbols of five bytes. */
  function Group(b0: Byte, b1: Byte, b2: Byte, b3: Byte, b4: Byte): string {
    [Symbol(b0 / 8), Symbol(b0 % 8 * 4 + b1 / 64), Symbol(b1 % 64 / 2), Symbol(b1 % 2 * 16 + b2 / 16)]
    + [Symbol(b2 % 16 * 2 + b3 / 128), Symbol(b3 % 128 / 4), Symbol(b3 % 4 * 8 + b4 / 32), Symbol(b4 % 32)]
  }

  // ---------------------------------------------------------------- cutting numbers

  lemma Cut(bits: seq<bool>, k: nat)
    requires k <= |bits|
    ensures Num(bits[..k]) == Num(bits) / Pow2(|bits| - k) && Num(bits[k..]) == Num(bits) % Pow2(|bits| - k)
  {
    assert bits == bits[..k] + bits[k..];
    NumConcat(bits[..k], bits[k..]);
    NumBound(bits[k..]);
    Words.Split(Num(bits), Pow2(|bits| - k), Num(bits[..k]), Num(bits[k..]));
  }

  /** The bits of a byte, cut in two. */
  lemma CutByte(b: Byte, k: nat)
    requires k <= 8
    ensures Num(ToBits(b, 8)[..k]) == b / Pow2(8 - k) && Num(ToBits(b, 8)[k..]) == b % Pow2(8 - k)
  {
    assert Pow2(8) == 256;
    NumToBits(b, 8);
    Cut(ToBits(b, 8), k);
  }

  lemma Powers()
    ensures Pow2(1) == 2 && Pow2(2) == 4 && Pow2(3) == 8 && Pow2(4) == 16 && Pow2(5) == 32 && Pow2(6) == 64 &&
            Pow2(7) == 128
  {
  }

  lemma SymbolsFive(first: seq<bool>, rest: seq<bool>)
    requires |first| == 5
    ensures Num(first) < 32 && Symbols(first + rest) == [Symbol(Num(first))] + Symbols(rest)
  {
    NumBound(first);
    Powers();
    assert (first + rest)[..5] == first && (first + rest)[5..] == rest;
  }

  /** Five bits across two bytes. */
  lemma Across(a: Byte, b: Byte, k: nat)
    requires 3 < k < 8
    ensures Num(ToBits(a, 8)[k..] + ToBits(b, 8)[..k - 3]) == a % Pow2(8 - k) * Pow2(k - 3) + b / Pow2(11 - k)
  {
    CutByte(a, k);
    CutByte(b, k - 3);
    NumConcat(ToBits(a, 8)[k..], ToBits(b, 8)[..k - 3]);
  }

  /** Five bits within a byte. */
  lemma Within(b: Byte, k: nat)
    requires k <= 3
    ensures Num(ToBits(b, 8)[k..][..5]) == b % Pow2(8 - k) / Pow2(3 - k)
  {
    CutByte(b, k);
    Cut(ToBits(b, 8)[k..], 5);
  }

  // ---------------------------------------------------------------- five bytes

  /** The numbers of the first four groups of five bits. */
  lemma FirstFour(b0: Byte, b1: Byte, b2: Byte)
    ensures Num(ToBits(b0, 8)[..5]) == b0 / 8
    ensures Num(ToBits(b0, 8)[5..] + ToBits(b1, 8)[..2]) == b0 % 8 * 4 + b1 / 64
    ensures Num(ToBits(b1, 8)[2..][..5]) == b1 % 64 / 2
    ensures Num(ToBits(b1, 8)[7..] + ToBits(b2, 8)[..4]) == b1 % 2 * 16 + b2 / 16
  {
    Powers();
    CutByte(b0, 5);
    Across(b0, b1, 5);
    Within(b1, 2);
    Across(b1, b2, 7);
  }

  /** Those of the others. */
  lemma LastFour(b2: Byte, b3: Byte, b4: Byte)
    ensures Num(ToBits(b2, 8)[4..] + ToBits(b3, 8)[..1]) == b2 % 16 * 2 + b3 / 128
    ensures Num(ToBits(b3, 8)[1..][..5]) == b3 % 128 / 4
    ensures Num(ToBits(b3, 8)[6..] + ToBits(b4, 8)[..3]) == b3 % 4 * 8 + b4 / 32
    ensures Num(ToBits(b4, 8)[3..]) == b4 % 32
  {
    Powers();
    Across(b2, b3, 4);
    Within(b3, 1);
    Across(b3, b4, 6);
    CutByte(b4, 3);
  }

  /** Forty bits in eights and in fives. */
  lemma InFives(t0: seq<bool>, t1: seq<bool>, t2: seq<bool>, t3: seq<bool>, t4: seq<bool>, rest: seq<bool>)
    requires |t0| == |t1| == |t2| == |t3| == |t4| == 8
    ensures t0 + (t1 + (t2 + (t3 + (t4 + rest)))) ==
            t0[..5] + ((t0[5..] + t1[..2]) + (t1[2..][..5] + ((t1[7..] + t2[..4]) +
            ((t2[4..] + t3[..1]) + (t3[1..][..5] + ((t3[6..] + t4[..3]) + (t4[3..] + rest)))))))
  {
    Recut(t0, 5, t1 + (t2 + (t3 + (t4 + rest))));
    Recut(t1, 2, t2 + (t3 + (t4 + rest)));
    Recut(t1[2..], 5, t2 + (t3 + (t4 + rest)));
    Recut(t2, 4, t3 + (t4 + rest));
    Recut(t3, 1, t4 + rest);
    Recut(t3[1..], 5, t4 + rest);
    Recut(t4, 3, rest);
    Joined(t0[5..], t1[..2], t1[2..] + (t2 + (t3 + (t4 + rest))));
    Joined(t1[7..], t2[..4], t2[4..] + (t3 + (t4 + rest)));
    Joined(t2[4..], t3[..1], t3[1..] + (t4 + rest));
    Joined(t3[6..], t4[..3], t4[3..] + rest);
    assert t1[2..][5..] == t1[7..] && t3[1..][5..] == t3[6..];
  }

  lemma Recut(t: seq<bool>, k: nat, rest: seq<bool>)
    requires k <= |t|
    ensures t + rest == t[..k] + (t[k..] + rest)
  {
  }

  lemma Joined(a: seq<bool>, b: seq<bool>, rest: seq<bool>)
    ensures a + (b + rest) == (a + b) + rest
  {
  }

  lemma BitsOfFive(b0: Byte, b1: Byte, b2: Byte, b3: Byte, b4: Byte, more: seq<Byte>)
    ensures ByteBits([b0, b1, b2, b3, b4] + more) ==
            ToBits(b0, 8) + (ToBits(b1, 8) + (ToBits(b2, 8) + (ToBits(b3, 8) + (ToBits(b4, 8) + ByteBits(more)))))
  {
    OneByOne(b0, b1, b2, b3, b4, more);
    FirstByte(b0, [b1] + ([b2] + ([b3] + ([b4] + more))));
    FirstByte(b1, [b2] + ([b3] + ([b4] + more)));
    FirstByte(b2, [b3] + ([b4] + more));
    FirstByte(b3, [b4] + more);
    FirstByte(b4, more);
  }

  lemma OneByOne(b0: Byte, b1: Byte, b2: Byte, b3: Byte, b4: Byte, more: seq<Byte>)
    ensures [b0, b1, b2, b3, b4] + more == [b0] + ([b1] + ([b2] + ([b3] + ([b4] + more))))
  {
  }

  lemma FirstByte(b: Byte, more: seq<Byte>)
    ensures ByteBits([b] + more) == ToBits(b, 8) + ByteBits(more)
  {
    assert ([b] + more)[1..] == more;
  }

  lemma FourSymbols(a: seq<bool>, b: seq<bool>, c: seq<bool>, d: seq<bool>, rest: seq<bool>)
    requires |a| == |b| == |c| == |d| == 5
    ensures Num(a) < 32 && Num(b) < 32 && Num(c) < 32 && Num(d) < 32
    ensures Symbols(a + (b + (c + (d + rest)))) ==
            [Symbol(Num(a)), Symbol(Num(b)), Symbol(Num(c)), Symbol(Num(d))] + Symbols(rest)
  {
    SymbolsFive(a, b + (c + (d + rest)));
    SymbolsFive(b, c + (d + rest));
    SymbolsFive(c, d + rest);
    SymbolsFive(d, rest);
  }

  /** Five bytes are encoded as eight symbols, each five bits of them, and the rest after them. */
  lemma FiveBytes(b0: Byte, b1: Byte, b2: Byte, b3: Byte, b4: Byte, more: seq<Byte>)
    ensures Encode([b0, b1, b2, b3, b4] + more) == Group(b0, b1, b2, b3, b4) + Encode(more)
  {
    var t0, t1, t2, t3, t4 := ToBits(b0, 8), ToBits(b1, 8), ToBits(b2, 8), ToBits(b3, 8), ToBits(b4, 8);
    BitsOfFive(b0, b1, b2, b3, b4, more);
    InFives(t0, t1, t2, t3, t4, ByteBits(more));
    var last := t4[3..] + ByteBits(more);
    FourSymbols(t0[..5], t0[5..] + t1[..2], t1[2..][..5], t1[7..] + t2[..4],
                (t2[4..] + t3[..1]) + (t3[1..][..5] + ((t3[6..] + t4[..3]) + last)));
    FourSymbols(t2[4..] + t3[..1], t3[1..][..5], t3[6..] + t4[..3], t4[3..], ByteBits(more));
    FirstFour(b0, b1, b2);
    LastFour(b2, b3, b4);
  }

  // ---------------------------------------------------------------- fewer than five bytes

  /** Zero bits behind the input only add symbols. */
  lemma {:induction false} SymbolsPadded(bits: seq<bool>, n: nat)
    ensures Symbols(bits) <= Symbols(bits + Zeros(n))
    decreases |bits|
  {
    if |bits| >= 5 {
      SymbolsFive(bits[..5], bits[5..]);
      SymbolsFive(bits[..5], bits[5..] + Zeros(n));
      assert bits == bits[..5] + bits[5..] && bits + Zeros(n) == bits[..5] + (bits[5..] + Zeros(n));
      SymbolsPadded(bits[5..], n);
    } else if |bits| > 0 {
      var padded := bits + Zeros(n);
      var first := bits + Zeros(5 - |bits|);
      if |padded| < 5 {
        assert padded + Zeros(5 - |padded|) == first;
      } else {
        assert padded == first + padded[5..];
        SymbolsFive(first, padded[5..]);
      }
    }
  }

  function ZeroBytes(n: nat): (bytes: seq<Byte>) {
    if n == 0 then [] else [0] + ZeroBytes(n - 1)
  }

  lemma {:induction false} ZeroBits(n: nat)
    ensures ByteBits(ZeroBytes(n)) == Zeros(8 * n)
  {
    if n > 0 {
      FirstByte(0, ZeroBytes(n - 1));
      ZeroBits(n - 1);
      NumZeros(8);
      ToBitsNum(Zeros(8));
      assert Zeros(8) + Zeros(8 * n - 8) == Zeros(8 * n);
    }
  }

  lemma {:induction false} BitsConcat(a: seq<Byte>, b: seq<Byte>)
    ensures ByteBits(a + b) == ByteBits(a) + ByteBits(b)
  {
    if |a| == 0 {
      assert a + b == b;
    } else {
      assert (a + b)[1..] == a[1..] + b;
      BitsConcat(a[1..], b);
      Joined(ToBits(a[0], 8), ByteBits(a[1..]), ByteBits(b));
    }
  }

  /** A last group of fewer bytes is encoded as the first symbols of the group completed with zero bytes. */
  lemma LastBytes(bytes: seq<Byte>, n: nat)
    requires |bytes| + n == 5
    ensures Encode(bytes) <= Encode(bytes + ZeroBytes(n)) && |Encode(bytes)| == (8 * |bytes| + 4) / 5
  {
    ZeroBits(n);
    BitsConcat(bytes, ZeroBytes(n));
    SymbolsPadded(ByteBits(bytes), 8 * n);
    EncodedLength(bytes);
  }

  /** The test vectors of section 10 of RFC 4648 for "f", and with an "r" for "foobar", without their padding. */
  lemma VectorOne(b: Byte)
    ensures b == 102 ==> Encode([b]) == "MY"
    ensures b == 114 ==> Encode([b]) == "OI"
  {
    OneByte(b);
  }

  lemma VectorSix(f: Byte, o: Byte, b: Byte, a: Byte, r: Byte)
    requires f == 102 && o == 111 && b == 98 && a == 97 && r == 114
    ensures Encode([f, o, o, b, a, r]) == "MZXW6YTB" + "OI"
  {
    VectorOne(r);
    FiveBytes(f, o, o, b, a, [r]);
    assert [f, o, o, b, a] + [r] == [f, o, o, b, a, r];
    FoobaSymbols();
  }

  lemma FoobaSymbols()
    ensures Group(102, 111, 111, 98, 97) == "MZXW6YTB"
  {
  }

  lemma OneByte(b: Byte)
    ensures Encode([b]) == [Symbol(b / 8), Symbol(b % 8 * 4)]
  {
    FiveBytes(b, 0, 0, 0, 0, []);
    LastBytes([b], 4);
    FourZeros();
    assert [b, 0, 0, 0, 0] + [] == [b] + ZeroBytes(4);
  }

  lemma FourZeros()
    ensures ZeroBytes(4) == [0, 0, 0, 0]
  {
    assert ZeroBytes(2) == [0, 0];
  }

  // ---------------------------------------------------------------- reading

  /** Letters are taken alike in both cases, and no other characters. */
  lemma SameLetter(upper: CaseMap, a: char, b: char)
    requires UpperCase(upper) && a < '\U{80}' && b < '\U{80}'
    ensures upper(a) == upper(b) <==>
            || a == b
            || ('A' <= a <= 'Z' && b as int == a as int + 32) || ('A' <= b <= 'Z' && a as int == b as int + 32)
  {
    assert AsciiUpper(a) == AsciiUpper(b) <==> AsciiUpper(a)[0] == AsciiUpper(b)[0];
  }

  lemma {:induction false} OnlyEquals(n: nat)
    ensures |Equals(n)| == n && forall i :: 0 <= i < n ==> Equals(n)[i] == '='
  {
    if n > 0 {
      OnlyEquals(n - 1);
    }
  }

  /** Neither a letter nor a digit from 2 to 7. */
  predicate Bad(c: char) {
    !('A' <= c <= 'Z') && !('a' <= c <= 'z') && !('2' <= c <= '7')
  }

  predicate Ascii(s: string) {
    forall i :: 0 <= i < |s| ==> s[i] < '\U{80}'
  }

  lemma {:induction false} Mapped(upper: CaseMap, s: string)
    requires UpperCase(upper) && Ascii(s)
    ensures |MapAll(upper, s)| == |s|
    ensures forall i :: 0 <= i < |s| ==> [MapAll(upper, s)[i]] == AsciiUpper(s[i])
  {
    if |s| > 0 {
      Mapped(upper, s[1..]);
      assert upper(s[0]) == AsciiUpper(s[0]);
    }
  }

  lemma BadExactly(c: char)
    ensures |AsciiUpper(c)| == 1 && (IndexOf(AsciiUpper(c)[0]) == -1 <==> Bad(c)) && (Bad(c) ==> AsciiUpper(c) == [c])
  {
  }

  /** A text of ASCII characters that does not end in padding is decoded unless a character is bad; then the first that
      is bad is named. Padding may follow. */
  lemma RefusedExactly(upper: CaseMap, s: string, n: nat)
    requires UpperCase(upper) && Ascii(s) && (s != "" ==> s[|s| - 1] != '=')
    ensures Decode(upper, s + Equals(n)).Decoded? <==> forall i :: 0 <= i < |s| ==> !Bad(s[i])
    ensures forall i :: 0 <= i < |s| && Bad(s[i]) && (forall j :: 0 <= j < i ==> !Bad(s[j])) ==>
                          Decode(upper, s + Equals(n)) == Invalid(s[i])
  {
    StripEquals(s, n);
    Mapped(upper, s);
    var clean := MapAll(upper, s);
    forall i | 0 <= i < |s|
      ensures IndexOf(clean[i]) == -1 <==> Bad(s[i])
      ensures Bad(s[i]) ==> clean[i] == s[i]
    {
      BadExactly(s[i]);
      assert [clean[i]] == AsciiUpper(s[i]);
    }
    forall i | 0 <= i < |s| && Bad(s[i]) && (forall j :: 0 <= j < i ==> !Bad(s[j]))
      ensures Decode(upper, s + Equals(n)) == Invalid(s[i])
    {
      Base32.InvalidAt(clean, i);
    }
  }
}
