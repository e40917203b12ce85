/**
 * The two loops of the codec (packages/2fa-totp/src/totp.ts). The accumulator `value` is a 32-bit word that is never
 * masked; `pending` is the bit string that has been read and not yet written.
 */
module Base32 {
  import opened Numbers
  import opened Base32Spec
  import opened Words

  /** The low bits of the accumulator are the pending bits. */
  ghost predicate Holds(value: Word, pending: seq<bool>) {
    value % Pow2(|pending|) == Num(pending)
  }

  lemma Spread(m: nat, q: nat, r: nat, p: nat)
    ensures (m * q + r) * p == (p * m) * q + r * p
  {
    assert (m * q) * p == (p * m) * q;
  }

  lemma Below(r: nat, m: nat, b: nat, p: nat)
    requires r < m && b < p
    ensures r * p + b < p * m
  {
    Product(r, m - 1 - r, p);
  }

  lemma Product(r: nat, e: nat, p: nat)
    ensures (r + 1 + e) * p >= r * p + p
  {
    assert e * p >= 0;
  }

  lemma Shifted(v: nat, p: nat, m: nat, b: nat, d: nat)
    requires m > 0 && b < p && d > 0 && d == p * m
    ensures (v * p + b) % d == (v % m) * p + b
  {
    Spread(m, v / m, v % m, p);
    Below(v % m, m, b, p);
    Split(v * p + b, d, v / m, (v % m) * p + b);
  }

  /** `v << k` leaves room for `k` bits. */
  lemma RoomBelow(v: Word, k: nat)
    requires k <= 32
    ensures ShiftLeft(v, k) % Pow2(k) == 0
  {
    LowBits(v * Pow2(k), k);
    Split(v * Pow2(k), Pow2(k), v, 0);
  }

  lemma WordFits(a: nat, b: nat, p: nat, q: nat)
    requires p > 0 && a < p * q && a % p == 0 && b < p
    ensures a + b < p * q
  {
    FewerMultiples(p, a / p, q);
    Product(a / p, q - 1 - a / p, p);
  }

  lemma FewerMultiples(p: nat, t: nat, q: nat)
    requires p > 0 && p * t < p * q
    ensures t < q
  {
    assert p * (q - t) == p * q - p * t;
  }

  /** `(v << k) | b` is a word, and its low bits are the pending bits followed by those of `b`. */
  lemma Shift(v: Word, pending: seq<bool>, b: nat, k: nat)
    requires Holds(v, pending) && b < Pow2(k) && |pending| + k <= 32
    ensures Or(ShiftLeft(v, k), b) < WORD && Holds(Or(ShiftLeft(v, k), b), pending + ToBits(b, k))
  {
    var n := |pending|;
    RoomBelow(v, k);
    OrLow(ShiftLeft(v, k), b, k);
    Pow2Word();
    Pow2Sum(k, 32 - k);
    WordFits(ShiftLeft(v, k), b, Pow2(k), Pow2(32 - k));
    ShiftedBits(v, n, b, k);
    NumToBits(b, k);
    NumConcat(pending, ToBits(b, k));
  }

  lemma ShiftedBits(v: Word, n: nat, b: nat, k: nat)
    requires b < Pow2(k) && n + k <= 32
    ensures (ShiftLeft(v, k) + b) % Pow2(n + k) == (v % Pow2(n)) * Pow2(k) + b
  {
    var x := v * Pow2(k);
    Pow2Sum(k, n);
    Shifted(v, Pow2(k), Pow2(n), b, Pow2(n + k));
    assert x == WORD * (x / WORD) + x % WORD;
    SameLow(x, ShiftLeft(v, k), b, n + k);
  }

  /** Words that agree modulo the word size have the same low bits. */
  lemma SameLow(x: nat, y: nat, b: nat, n: nat)
    requires n <= 32 && y == x % WORD
    ensures (y + b) % Pow2(n) == (x + b) % Pow2(n)
  {
    LowBits(x + b, n);
    LowBits(y + b, n);
    var t := x / WORD;
    assert x == WORD * t + y;
    assert (x + b) % WORD == (y + b) % WORD by {
      var q, r := (y + b) / WORD, (y + b) % WORD;
      assert y + b == WORD * q + r;
      Split(x + b, WORD, t + q, r);
    }
  }

  lemma TakenBits(v: nat, m: nat, p: nat, t: nat, first: nat, rest: nat)
    requires first < p && rest < m && v == (p * m) * t + (first * m + rest)
    ensures v / m % p == first && v % m == rest
  {
    assert (p * m) * t + first * m == m * (p * t + first);
    Split(v, m, p * t + first, rest);
    Split(p * t + first, p, t, first);
  }

  lemma TakenNumbers(v: nat, d: nat, m: nat, p: nat, first: nat, rest: nat)
    requires first < p && rest < m && d > 0 && d == p * m && v % d == first * m + rest
    ensures v / m % p == first && v % m == rest
  {
    TakenBits(v, m, p, v / d, first, rest);
  }

  /** `(v >>> (n - k)) & (2^k - 1)` is the number of the first `k` of `n` pending bits; the others stay pending. */
  lemma Take(v: Word, pending: seq<bool>, k: nat)
    requires Holds(v, pending) && k <= |pending|
    ensures And(ShiftRight(v, |pending| - k), Pow2(k) - 1) == Num(pending[..k])
    ensures Holds(v, pending[k..])
  {
    var first, rest := pending[..k], pending[k..];
    assert pending == first + rest;
    NumConcat(first, rest);
    NumBound(first);
    NumBound(rest);
    Pow2Sum(k, |rest|);
    TakenNumbers(v, Pow2(|pending|), Pow2(|rest|), Pow2(k), Num(first), Num(rest));
    AndLow(ShiftRight(v, |rest|), k);
  }

  /** `(v << (5 - n)) & 31` is the number of the `n` pending bits and the zeros that complete them. */
  lemma Flush(v: Word, pending: seq<bool>)
    requires Holds(v, pending) && |pending| < 5
    ensures And(ShiftLeft(v, 5 - |pending|), Pow2(5) - 1) == Num(pending + Zeros(5 - |pending|))
  {
    var k := 5 - |pending|;
    ShiftedBits(v, |pending|, 0, k);
    AndLow(ShiftLeft(v, k), 5);
    NumConcat(pending, Zeros(k));
    NumZeros(k);
  }

  lemma NextByte(pending: seq<bool>, buffer: seq<Byte>, i: nat)
    requires i < |buffer|
    ensures pending + ByteBits(buffer[i..]) == (pending + ToBits(buffer[i], 8)) + ByteBits(buffer[i + 1..])
  {
    assert buffer[i..][1..] == buffer[i + 1..];
  }

  lemma NextSymbol(pending: seq<bool>, more: seq<bool>)
    requires |pending| >= 5
    ensures Num(pending[..5]) < 32
    ensures Symbols(pending + more) == [Symbol(Num(pending[..5]))] + Symbols(pending[5..] + more)
  {
    NumBound(pending[..5]);
    assert Pow2(5) == 32;
    assert (pending + more)[..5] == pending[..5] && (pending + more)[5..] == pending[5..] + more;
  }

  lemma LastSymbol(pending: seq<bool>)
    requires 0 < |pending| < 5
    ensures Num(pending + Zeros(5 - |pending|)) < 32
    ensures Symbols(pending) == [Symbol(Num(pending + Zeros(5 - |pending|)))]
  {
    NumBound(pending + Zeros(5 - |pending|));
    assert Pow2(5) == 32;
  }

  lemma GroupSizes()
    ensures Pow2(5) == 32 && Pow2(8) == 256
  {
  }

  /** What is written, what is pending and what is not read yet make the whole encoding. */
  ghost predicate Encoding(output: string, value: Word, pending: seq<bool>, more: seq<bool>, whole: string) {
    Holds(value, pending) && output + Symbols(pending + more) == whole
  }

  lemma ReadByte(output: string, value: Word, pending: seq<bool>, buffer: seq<Byte>, i: nat, whole: string)
    requires i < |buffer| && |pending| < 5 && Encoding(output, value, pending, ByteBits(buffer[i..]), whole)
    ensures Or(ShiftLeft(value, 8), buffer[i]) < WORD
    ensures Encoding(output, Or(ShiftLeft(value, 8), buffer[i]), pending + ToBits(buffer[i], 8),
                     ByteBits(buffer[i + 1..]), whole)
  {
    NextByte(pending, buffer, i);
    GroupSizes();
    Shift(value, pending, buffer[i], 8);
  }

  lemma WriteSymbol(output: string, value: Word, pending: seq<bool>, more: seq<bool>, whole: string)
    requires |pending| >= 5 && Encoding(output, value, pending, more, whole)
    ensures And(ShiftRight(value, |pending| - 5), 31) < 32
    ensures Encoding(output + [Symbol(And(ShiftRight(value, |pending| - 5), 31))], value, pending[5..], more, whole)
  {
    GroupSizes();
    Take(value, pending, 5);
    NextSymbol(pending, more);
    var c := [Symbol(Num(pending[..5]))];
    assert output + (c + Symbols(pending[5..] + more)) == (output + c) + Symbols(pending[5..] + more);
  }

  lemma WriteLast(output: string, value: Word, pending: seq<bool>, whole: string)
    requires 0 < |pending| < 5 && Encoding(output, value, pending, [], whole)
    ensures And(ShiftLeft(value, 5 - |pending|), 31) < 32
    ensures output + [Symbol(And(ShiftLeft(value, 5 - |pending|), 31))] == whole
  {
    GroupSizes();
    assert pending + [] == pending;
    Flush(value, pending);
    LastSymbol(pending);
  }

  /** `base32Encode` */
  method Base32Encode(buffer: seq<Byte>) returns (output: string)
    ensures output == Encode(buffer)
  {
    var bits: nat, value: Word := 0, 0;
    output := "";
    ghost var pending: seq<bool> := [];
    assert buffer[0..] == buffer && [] + ByteBits(buffer) == ByteBits(buffer);
    for i := 0 to |buffer|
      invariant |pending| == bits < 5
      invariant Encoding(output, value, pending, ByteBits(buffer[i..]), Encode(buffer))
    {
      ReadByte(output, value, pending, buffer, i, Encode(buffer));
      value := Or(ShiftLeft(value, 8), buffer[i]);
      bits := bits + 8;
      pending := pending + ToBits(buffer[i], 8);
      while bits >= 5
        invariant |pending| == bits
        invariant Encoding(output, value, pending, ByteBits(buffer[i + 1..]), Encode(buffer))
      {
        WriteSymbol(output, value, pending, ByteBits(buffer[i + 1..]), Encode(buffer));
        output := output + [Symbol(And(ShiftRight(value, bits - 5), 31))];
        bits := bits - 5;
        pending := pending[5..];
      }
    }
    if bits > 0 {
      WriteLast(output, value, pending, Encode(buffer));
      output := output + [Symbol(And(ShiftLeft(value, 5 - bits), 31))];
    }
  }

  // ---------------------------------------------------------------- decoding

  lemma {:induction false} InvalidAt(s: string, i: nat)
    requires i < |s| && IndexOf(s[i]) == -1 && forall j :: 0 <= j < i ==> IndexOf(s[j]) != -1
    ensures !Valid(s) && FirstInvalid(s) == s[i]
  {
    if i > 0 {
      InvalidAt(s[1..], i - 1);
    }
  }

  lemma {:induction false} ByteBitsAppend(bytes: seq<Byte>, b: Byte)
    ensures ByteBits(bytes + [b]) == ByteBits(bytes) + ToBits(b, 8)
  {
    if |bytes| == 0 {
      assert bytes + [b] == [b];
    } else {
      assert (bytes + [b])[1..] == bytes[1..] + [b];
      ByteBitsAppend(bytes[1..], b);
    }
  }

  /** The bits read are those of the bytes written and the pending ones. */
  ghost predicate Decoding(read: string, bytes: seq<Byte>, value: Word, pending: seq<bool>) {
    Valid(read) && Holds(value, pending) && SymbolBits(read) == ByteBits(bytes) + pending
  }

  lemma ReadSymbol(s: string, i: nat, bytes: seq<Byte>, value: Word, pending: seq<bool>)
    requires i < |s| && IndexOf(s[i]) != -1 && |pending| < 8 && Decoding(s[..i], bytes, value, pending)
    ensures Or(ShiftLeft(value, 5), IndexOf(s[i])) < WORD
    ensures Decoding(s[..i + 1], bytes, Or(ShiftLeft(value, 5), IndexOf(s[i])), pending + ToBits(IndexOf(s[i]), 5))
  {
    GroupSizes();
    Shift(value, pending, IndexOf(s[i]), 5);
    assert s[..i + 1] == s[..i] + [s[i]];
    ValidConcat(s[..i], [s[i]]);
    assert SymbolBits([s[i]]) == ToBits(IndexOf(s[i]), 5) + SymbolBits("");
  }

  /** Eight pending bits are the bits of the next byte. */
  lemma NextOctet(bytes: seq<Byte>, pending: seq<bool>)
    requires |pending| >= 8
    ensures Num(pending[..8]) < 256
    ensures ByteBits(bytes) + pending == ByteBits(bytes + [Num(pending[..8])]) + pending[8..]
  {
    GroupSizes();
    NumBound(pending[..8]);
    ToBitsNum(pending[..8]);
    ByteBitsAppend(bytes, Num(pending[..8]));
    EightMore(ByteBits(bytes), pending);
  }

  lemma EightMore(bits: seq<bool>, pending: seq<bool>)
    requires |pending| >= 8
    ensures bits + pending == (bits + pending[..8]) + pending[8..]
  {
  }

  lemma WriteByte(read: string, bytes: seq<Byte>, value: Word, pending: seq<bool>)
    requires |pending| >= 8 && Decoding(read, bytes, value, pending)
    ensures And(ShiftRight(value, |pending| - 8), 255) < 256
    ensures Decoding(read, bytes + [And(ShiftRight(value, |pending| - 8), 255)], value, pending[8..])
  {
    GroupSizes();
    Take(value, pending, 8);
    NextOctet(bytes, pending);
  }

  /** `base32Decode`; the exception names the first character that is not in the alphabet. */
  method Base32Decode(upper: CaseMap, input: string) returns (result: Decoded)
    ensures result == Decode(upper, input)
  {
    var cleanInput := Clean(upper, input);
    var bytes: seq<Byte> := [];
    var bits: nat, value: Word := 0, 0;
    ghost var pending: seq<bool> := [];
    for i := 0 to |cleanInput|
      invariant |pending| == bits < 8
      invariant Decoding(cleanInput[..i], bytes, value, pending)
    {
      var idx := IndexOf(cleanInput[i]);
      if idx == -1 {
        assert forall j :: 0 <= j < i ==> cleanInput[..i][j] == cleanInput[j];
        InvalidAt(cleanInput, i);
        return Invalid(cleanInput[i]);
      }
      ReadSymbol(cleanInput, i, bytes, value, pending);
      value := Or(ShiftLeft(value, 5), idx);
      bits := bits + 5;
      pending := pending + ToBits(idx, 5);
      if bits >= 8 {
        WriteByte(cleanInput[..i + 1], bytes, value, pending);
        bytes := bytes + [And(ShiftRight(value, bits - 8), 255)];
        bits := bits - 8;
        pending := pending[8..];
      }
    }
    assert cleanInput[..|cleanInput|] == cleanInput;
    BytesRead(bytes, pending);
    return Decoded(bytes);
  }
}
