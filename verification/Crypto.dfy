/**
 * Encryption of short texts (packages/crypto/src/index.ts): padding, digest and the way the padding is taken off again.
 * The cipher, the digest, base64 and the reading of UTF-8 are parameters.
 */
module Crypto {
  import opened Wrappers
  import opened Numbers
  import opened Text

  const NUL := 0 as char

  /** One character in UTF-8. */
  function EncodeChar(c: char): (bytes: seq<Byte>)
    ensures |bytes| > 0
    ensures 0 in bytes <==> c == NUL
    ensures c == NUL ==> bytes == [0]
  {
    var n := c as int;
    if n < 0x80 then [n]
    else if n < 0x800 then [0xC0 + n / 0x40, 0x80 + n % 0x40]
    else if n < 0x1_0000 then [0xE0 + n / 0x1000, 0x80 + n / 0x40 % 0x40, 0x80 + n % 0x40]
    else [0xF0 + n / 0x4_0000, 0x80 + n / 0x1000 % 0x40, 0x80 + n / 0x40 % 0x40, 0x80 + n % 0x40]
  }

  function ToBytes(s: string): seq<Byte> {
    if |s| == 0 then [] else EncodeChar(s[0]) + ToBytes(s[1..])
  }

  /**
   * The primitives. `cbcDecrypt` is nothing when the library throws, `fromBytes` is `Buffer.toString`.
   */
  datatype Primitives = Primitives(
    digest: seq<Byte> -> seq<Byte>,
    cbcEncrypt: (seq<Byte>, seq<Byte>) -> seq<Byte>,
    cbcDecrypt: (seq<Byte>, seq<Byte>) -> Option<seq<Byte>>,
    toBase64: seq<Byte> -> string,
    fromBase64: string -> seq<Byte>,
    fromBytes: seq<Byte> -> string)

  /** What is assumed of the primitives. */
  ghost predicate Lawful(p: Primitives) {
    && (forall b :: |p.digest(b)| == 32)
    && (forall iv, b :: |iv| == 16 && |b| % 16 == 0 ==> p.cbcDecrypt(iv, p.cbcEncrypt(iv, b)) == Some(b))
    && (forall b :: p.fromBase64(p.toBase64(b)) == b && '%' !in p.toBase64(b) && (b != [] ==> p.toBase64(b) != ""))
    && (forall s :: p.fromBytes(ToBytes(s)) == s)
  }

  function Nuls(n: nat): (bytes: seq<Byte>)
    ensures |bytes| == n && forall i :: 0 <= i < n ==> bytes[i] == 0
  {
    seq(n, _ => 0)
  }

  /** The length of the padding. */
  function PadLength(s: string): (n: nat)
    ensures 1 <= n <= 16 && (|ToBytes(s)| + n) % 16 == 0
    ensures n == 1 <==> |ToBytes(s)| % 16 == 15
  {
    16 - |ToBytes(s)| % 16
  }

  /** The text in bytes, completed to a multiple of sixteen by one to sixteen zero bytes. */
  function Padded(s: string): (bytes: seq<Byte>)
    ensures |bytes| % 16 == 0
  {
    ToBytes(s) + Nuls(PadLength(s))
  }

  /** `encrypt`, with the random initialisation vector as a parameter. */
  function Encrypt(p: Primitives, s: string, iv: seq<Byte>): string {
    var buf := Padded(s);
    p.toBase64(iv + p.cbcEncrypt(iv, p.digest(buf) + buf))
  }

  function IndexOfNul(bytes: seq<Byte>): (z: int)
    ensures -1 <= z < |bytes|
    ensures z >= 0 ==> bytes[z] == 0 && 0 !in bytes[..z]
    ensures z == -1 ==> 0 !in bytes
  {
    if |bytes| == 0 then -1
    else if bytes[0] == 0 then 0
    else if IndexOfNul(bytes[1..]) == -1 then -1
    else 1 + IndexOfNul(bytes[1..])
  }

  /** The end of `decrypt`: the text up to the first zero byte that is not the very first, less its last character. */
  function Strip(p: Primitives, buf: seq<Byte>): string {
    var z := IndexOfNul(buf);
    var res := p.fromBytes(if z > 0 then buf[..z + 1] else buf);
    if |res| == 0 then "" else res[..|res| - 1]
  }

  function Unquote(s: string): string {
    ReplaceAll(ReplaceAll(ReplaceAll(ReplaceAll(s, "%2B", "+"), "%2F", "/"), "%3D", "="), "%0A", "\n")
  }

  function First(b: seq<Byte>, n: nat): seq<Byte> {
    if n <= |b| then b[..n] else b
  }

  function Rest(b: seq<Byte>, n: nat): seq<Byte> {
    if n <= |b| then b[n..] else []
  }

  /** `decrypt`; nothing when it throws */
  function Decrypt(p: Primitives, s: string): Option<string> {
    var buf := p.fromBase64(Unquote(s));
    match p.cbcDecrypt(First(buf, 16), Rest(buf, 16))
    case None => None
    case Some(plain) =>
      if First(plain, 32) != p.digest(Rest(plain, 32)) then None else Some(Strip(p, Rest(plain, 32)))
  }

  // ---------------------------------------------------------------- the round trip

  lemma {:induction false} ToBytesConcat(a: string, b: string)
    ensures ToBytes(a + b) == ToBytes(a) + ToBytes(b)
  {
    if |a| == 0 {
      assert a + b == b;
    } else {
      assert (a + b)[1..] == a[1..] + b;
      ToBytesConcat(a[1..], b);
    }
  }

  function NulText(n: nat): (s: string)
    ensures |s| == n && forall i :: 0 <= i < n ==> s[i] == NUL
  {
    seq(n, _ => NUL)
  }

  lemma {:induction false} NulBytes(n: nat)
    ensures ToBytes(NulText(n)) == Nuls(n)
  {
    if n > 0 {
      NulBytes(n - 1);
      assert NulText(n)[1..] == NulText(n - 1);
      assert [0] + Nuls(n - 1) == Nuls(n);
    }
  }

  lemma NulsAppended(s: string, n: nat)
    ensures ToBytes(s) + Nuls(n) == ToBytes(s + NulText(n))
  {
    NulBytes(n);
    ToBytesConcat(s, NulText(n));
  }

  /** The padded text read back. */
  lemma PaddedText(p: Primitives, s: string)
    requires Lawful(p)
    ensures p.fromBytes(Padded(s)) == s + NulText(PadLength(s))
  {
    NulsAppended(s, PadLength(s));
  }

  lemma {:induction false} NulFree(s: string)
    ensures 0 in ToBytes(s) <==> NUL in s
    ensures |s| > 0 ==> |ToBytes(s)| > 0 && (ToBytes(s)[0] == 0 <==> s[0] == NUL)
  {
    if |s| > 0 {
      NulFree(s[1..]);
      assert s == [s[0]] + s[1..];
      assert EncodeChar(s[0])[0] == 0 ==> 0 in EncodeChar(s[0]);
    }
  }

  lemma Unquoted(s: string)
    requires '%' !in s
    ensures Unquote(s) == s
  {
    ReplaceAbsent(s, "%2B", "+");
    ReplaceAbsent(s, "%2F", "/");
    ReplaceAbsent(s, "%3D", "=");
    ReplaceAbsent(s, "%0A", "\n");
  }

  lemma PartsOf(a: seq<Byte>, b: seq<Byte>)
    ensures First(a + b, |a|) == a && Rest(a + b, |a|) == b
  {
  }

  lemma SealedOpened(p: Primitives, iv: seq<Byte>, plain: seq<Byte>)
    requires Lawful(p) && |iv| == 16 && |plain| % 16 == 0
    ensures var buf := p.fromBase64(Unquote(p.toBase64(iv + p.cbcEncrypt(iv, plain))));
            p.cbcDecrypt(First(buf, 16), Rest(buf, 16)) == Some(plain)
  {
    Unquoted(p.toBase64(iv + p.cbcEncrypt(iv, plain)));
    PartsOf(iv, p.cbcEncrypt(iv, plain));
  }

  /** Decrypting gives the padded text without its padding, whatever the vector. */
  lemma DecryptPadded(p: Primitives, s: string, iv: seq<Byte>)
    requires Lawful(p) && |iv| == 16
    ensures Decrypt(p, Encrypt(p, s, iv)) == Some(Strip(p, Padded(s)))
  {
    var hash := p.digest(Padded(s));
    assert |hash + Padded(s)| == 32 + |Padded(s)|;
    SealedOpened(p, iv, hash + Padded(s));
    PartsOf(hash, Padded(s));
  }

  /** Where the first zero byte of the padded text stands. */
  lemma {:induction false} FirstNul(bytes: seq<Byte>, more: seq<Byte>)
    requires |more| > 0 && more[0] == 0
    ensures IndexOfNul(bytes + more) == if 0 in bytes then IndexOfNul(bytes) else |bytes|
  {
    if |bytes| == 0 {
      assert bytes + more == more;
    } else {
      assert (bytes + more)[1..] == bytes[1..] + more;
      FirstNul(bytes[1..], more);
      assert 0 in bytes <==> bytes[0] == 0 || 0 in bytes[1..];
    }
  }

  lemma OneNul()
    ensures ToBytes([NUL]) == [0]
  {
    assert ToBytes([NUL]) == EncodeChar(NUL) + ToBytes("");
  }

  lemma ReadWithNul(p: Primitives, t: string)
    requires Lawful(p)
    ensures p.fromBytes(ToBytes(t) + [0]) == t + [NUL]
  {
    OneNul();
    ToBytesConcat(t, [NUL]);
    assert p.fromBytes(ToBytes(t + [NUL])) == t + [NUL];
  }

  lemma StripBefore(p: Primitives, buf: seq<Byte>, z: nat, t: string)
    requires z > 0 && IndexOfNul(buf) == z && p.fromBytes(buf[..z + 1]) == t + [NUL]
    ensures Strip(p, buf) == t
  {
    assert (t + [NUL])[..|t|] == t;
  }

  /** What is cut after the first zero byte is read as the text before it and a zero character. */
  lemma StripAt(p: Primitives, t: string, more: seq<Byte>)
    requires Lawful(p) && t != "" && NUL !in t
    ensures Strip(p, ToBytes(t) + ([0] + more)) == t
  {
    NulFree(t);
    FirstNul(ToBytes(t), [0] + more);
    CutBehind(ToBytes(t), 0, more);
    ReadWithNul(p, t);
    StripBefore(p, ToBytes(t) + ([0] + more), |ToBytes(t)|, t);
  }

  lemma CutBehind(a: seq<Byte>, b: Byte, more: seq<Byte>)
    ensures (a + ([b] + more))[..|a| + 1] == a + [b]
  {
  }

  lemma StripNulFree(p: Primitives, s: string)
    requires Lawful(p) && s != "" && NUL !in s
    ensures Strip(p, Padded(s)) == s
  {
    var n := PadLength(s);
    assert Nuls(n) == [0] + Nuls(n - 1);
    StripAt(p, s, Nuls(n - 1));
  }

  lemma ButLast(s: string, n: nat)
    requires n > 0
    ensures (s + NulText(n))[..|s + NulText(n)| - 1] == s + NulText(n - 1)
  {
  }

  /** A text that begins with a zero character keeps all its padding but one. */
  lemma StripNulFirst(p: Primitives, s: string)
    requires Lawful(p) && (s == "" || s[0] == NUL)
    ensures Strip(p, Padded(s)) == s + NulText(PadLength(s) - 1)
  {
    NulFree(s);
    PaddedText(p, s);
    assert Padded(s)[0] == 0;
    assert IndexOfNul(Padded(s)) == 0;
    ButLast(s, PadLength(s));
  }

  lemma {:induction false} TextBefore(s: string) returns (t: string, u: string)
    requires s != "" && NUL in s && s[0] != NUL
    ensures s == t + ([NUL] + u) && t != "" && NUL !in t
  {
    if s[1] == NUL {
      t, u := [s[0]], s[2..];
    } else {
      assert NUL in s[1..];
      t, u := TextBefore(s[1..]);
      t := [s[0]] + t;
    }
  }

  lemma CutBytes(t: string, u: string, pad: seq<Byte>)
    ensures ToBytes(t + ([NUL] + u)) + pad == ToBytes(t) + ([0] + (ToBytes(u) + pad))
  {
    ToBytesConcat(t, [NUL] + u);
    ToBytesConcat([NUL], u);
    OneNul();
    Regroup(ToBytes(t), [0], ToBytes(u), pad);
  }

  lemma Regroup(a: seq<Byte>, b: seq<Byte>, c: seq<Byte>, d: seq<Byte>)
    ensures (a + (b + c)) + d == a + (b + (c + d))
  {
  }

  /** A text with a zero character further on is cut there. */
  lemma StripCut(p: Primitives, s: string)
    requires Lawful(p) && s != "" && NUL in s && s[0] != NUL
    ensures |Strip(p, Padded(s))| < |s|
  {
    var t, u := TextBefore(s);
    CutBytes(t, u, Nuls(PadLength(s)));
    StripAt(p, t, ToBytes(u) + Nuls(PadLength(s)));
  }

  /** The texts that come back. */
  predicate Survives(s: string) {
    s != "" && (NUL !in s || (s[0] == NUL && |ToBytes(s)| % 16 == 15))
  }

  lemma StripExactly(p: Primitives, s: string)
    requires Lawful(p)
    ensures Strip(p, Padded(s)) == s <==> Survives(s)
  {
    if s == "" || s[0] == NUL {
      StripNulFirst(p, s);
      assert |s + NulText(PadLength(s) - 1)| == |s| + PadLength(s) - 1;
      assert s + NulText(0) == s;
    } else if NUL in s {
      StripCut(p, s);
    } else {
      StripNulFree(p, s);
    }
  }

  /** Decrypting undoes encrypting exactly on these texts. */
  lemma RoundTrip(p: Primitives, s: string, iv: seq<Byte>)
    requires Lawful(p) && |iv| == 16
    ensures Decrypt(p, Encrypt(p, s, iv)) == Some(s) <==> Survives(s)
  {
    DecryptPadded(p, s, iv);
    StripExactly(p, s);
  }

  /** A zero character inside cuts the text, and an empty text comes back as fifteen of them. */
  lemma NotRestored(p: Primitives, iv: seq<Byte>)
    requires Lawful(p) && |iv| == 16
    ensures Decrypt(p, Encrypt(p, "a" + [NUL] + "b", iv)) == Some("a")
    ensures Decrypt(p, Encrypt(p, "", iv)) == Some(NulText(15))
  {
    var s := "a" + [NUL] + "b";
    assert s == "a" + ([NUL] + "b");
    DecryptPadded(p, s, iv);
    CutBytes("a", "b", Nuls(PadLength(s)));
    StripAt(p, "a", ToBytes("b") + Nuls(PadLength(s)));
    DecryptPadded(p, "", iv);
    StripNulFirst(p, "");
    assert "" + NulText(15) == NulText(15);
  }

  // ---------------------------------------------------------------- what is sealed and what is opened

  /** The vector, then the digest and the padded text encrypted; the padding is one to sixteen zero bytes. */
  lemma SealedLayout(p: Primitives, s: string, iv: seq<Byte>)
    requires Lawful(p)
    ensures var padded := Padded(s);
            && p.fromBase64(Encrypt(p, s, iv)) == iv + p.cbcEncrypt(iv, p.digest(padded) + padded)
            && ToBytes(s) <= padded && |padded| % 16 == 0 && |ToBytes(s)| < |padded| <= |ToBytes(s)| + 16
            && forall i :: |ToBytes(s)| <= i < |padded| ==> padded[i] == 0
  {
  }

  /** Any text is refused exactly when it does not decrypt or what it decrypts to does not begin with the digest of the
      rest. */
  lemma OpenedExactly(p: Primitives, s: string)
    requires |p.fromBase64(Unquote(s))| >= 16
    ensures var sealed := p.fromBase64(Unquote(s));
            var plain := p.cbcDecrypt(sealed[..16], sealed[16..]);
            Decrypt(p, s).None? <==>
              || plain.None?
              || (if |plain.value| >= 32 then plain.value[..32] != p.digest(plain.value[32..])
                  else plain.value != p.digest([]))
  {
  }

  /** The four characters in a query string, or only the later ones. */
  function Quoted(c: char, stage: nat): string {
    if c == '+' && stage < 1 then "%2B"
    else if c == '/' && stage < 2 then "%2F"
    else if c == '=' && stage < 3 then "%3D"
    else if c == '\n' && stage < 4 then "%0A"
    else [c]
  }

  function Quote(s: string, stage: nat): string {
    if |s| == 0 then "" else Quoted(s[0], stage) + Quote(s[1..], stage)
  }

  /** The pattern and the character of each of the four replacements. */
  predicate Replacement(stage: nat, pattern: string, c: char) {
    || (stage == 0 && pattern == "%2B" && c == '+') || (stage == 1 && pattern == "%2F" && c == '/')
    || (stage == 2 && pattern == "%3D" && c == '=') || (stage == 3 && pattern == "%0A" && c == '\n')
  }

  lemma QuotedChar(d: char, rest: string, stage: nat, pattern: string, c: char)
    requires Replacement(stage, pattern, c) && d != '%'
    ensures ReplaceAll(Quoted(d, stage) + rest, pattern, [c]) == Quoted(d, stage + 1) + ReplaceAll(rest, pattern, [c])
  {
    var token := Quoted(d, stage);
    if d == c {
      ReplaceHere(pattern, rest, [c]);
    } else {
      assert |token| == 3 ==> (token + rest)[1] == token[1] && (token + rest)[2] == token[2];
      assert |token| == 1 ==> (token + rest)[0] == d;
      ReplaceToken(token, rest, pattern, [c]);
    }
  }

  lemma {:induction false} QuoteStage(s: string, stage: nat, pattern: string, c: char)
    requires Replacement(stage, pattern, c) && '%' !in s
    ensures ReplaceAll(Quote(s, stage), pattern, [c]) == Quote(s, stage + 1)
  {
    if |s| > 0 {
      QuoteStage(s[1..], stage, pattern, c);
      QuotedChar(s[0], Quote(s[1..], stage), stage, pattern, c);
    }
  }

  lemma {:induction false} NothingQuoted(s: string)
    ensures Quote(s, 4) == s
  {
    if |s| > 0 {
      NothingQuoted(s[1..]);
      assert [s[0]] + s[1..] == s;
    }
  }

  lemma FirstQuotes(s: string)
    requires '%' !in s
    ensures ReplaceAll(ReplaceAll(Quote(s, 0), "%2B", "+"), "%2F", "/") == Quote(s, 2)
  {
    QuoteStage(s, 0, "%2B", '+');
    QuoteStage(s, 1, "%2F", '/');
  }

  lemma LastQuotes(s: string)
    requires '%' !in s
    ensures ReplaceAll(ReplaceAll(Quote(s, 2), "%3D", "="), "%0A", "\n") == s
  {
    QuoteStage(s, 2, "%3D", '=');
    QuoteStage(s, 3, "%0A", '\n');
    NothingQuoted(s);
  }

  /** A sealed text may be quoted for a query string. */
  lemma UnquoteQuote(p: Primitives, s: string)
    requires '%' !in s
    ensures Unquote(Quote(s, 0)) == s && Decrypt(p, Quote(s, 0)) == Decrypt(p, s)
  {
    FirstQuotes(s);
    LastQuotes(s);
    Unquoted(s);
  }

  // ---------------------------------------------------------------- primitives that meet the assumptions

  /** The length of the character that begins with the byte. */
  function LengthFrom(b: Byte): nat {
    if b < 0x80 then 1 else if b < 0xE0 then 2 else if b < 0xF0 then 3 else 4
  }

  lemma EncodedLength(c: char)
    ensures |EncodeChar(c)| == LengthFrom(EncodeChar(c)[0])
  {
  }

  /** The number of the character from its bytes. */
  function NumberFrom(b: seq<int>): int
    requires |b| > 0
  {
    if |b| == 1 then b[0]
    else if |b| == 2 then (b[0] - 0xC0) * 0x40 + (b[1] - 0x80)
    else if |b| == 3 then (b[0] - 0xE0) * 0x1000 + (b[1] - 0x80) * 0x40 + (b[2] - 0x80)
    else (b[0] - 0xF0) * 0x4_0000 + (b[1] - 0x80) * 0x1000 + (b[2] - 0x80) * 0x40 + (if |b| > 3 then b[3] - 0x80 else 0)
  }

  /** A number in digits of six bits. */
  lemma SixBits(n: nat)
    ensures n == n / 0x40 * 0x40 + n % 0x40
    ensures n / 0x40 == n / 0x1000 * 0x40 + n / 0x40 % 0x40
    ensures n / 0x1000 == n / 0x4_0000 * 0x40 + n / 0x1000 % 0x40
  {
    assert n / 0x40 / 0x40 == n / 0x1000;
    assert n / 0x1000 / 0x40 == n / 0x4_0000;
  }

  lemma EncodedNumber(c: char)
    ensures NumberFrom(EncodeChar(c)) == c as int
  {
    var n := c as int;
    SixBits(n);
    if 0x800 <= n < 0x1_0000 {
      ThreeBytes(n / 0x1000, n / 0x40 % 0x40, n % 0x40);
    } else if 0x1_0000 <= n {
      FourBytes(n / 0x4_0000, n / 0x1000 % 0x40, n / 0x40 % 0x40, n % 0x40);
    }
  }

  lemma ThreeBytes(x: int, y: int, z: int)
    ensures NumberFrom([0xE0 + x, 0x80 + y, 0x80 + z]) == x * 0x1000 + y * 0x40 + z
  {
  }

  lemma FourBytes(w: int, x: int, y: int, z: int)
    ensures NumberFrom([0xF0 + w, 0x80 + x, 0x80 + y, 0x80 + z]) == w * 0x4_0000 + x * 0x1000 + y * 0x40 + z
  {
  }

  lemma SameFirst(c: char, d: char, a: seq<Byte>, b: seq<Byte>)
    requires EncodeChar(c) + a == EncodeChar(d) + b
    ensures c == d && a == b
  {
    var whole := EncodeChar(c) + a;
    EncodedLength(c);
    EncodedLength(d);
    assert EncodeChar(c)[0] == whole[0] == EncodeChar(d)[0];
    var n := |EncodeChar(c)|;
    assert EncodeChar(c) == whole[..n] == EncodeChar(d);
    assert a == whole[n..] == b;
    EncodedNumber(c);
    EncodedNumber(d);
  }

  /** Texts are determined by their bytes. */
  lemma {:induction false} ToBytesInjective(s: string, t: string)
    requires ToBytes(s) == ToBytes(t)
    ensures s == t
  {
    if |s| > 0 && |t| > 0 {
      SameFirst(s[0], t[0], ToBytes(s[1..]), ToBytes(t[1..]));
      ToBytesInjective(s[1..], t[1..]);
      assert s == [s[0]] + s[1..] && t == [t[0]] + t[1..];
    }
  }

  ghost function AnyText(b: seq<Byte>): string {
    if exists s :: ToBytes(s) == b then (var s :| ToBytes(s) == b; s) else ""
  }

  /** A stand-in for base64: one character for each byte, away from the percent sign. */
  function Shifted(b: seq<Byte>): (s: string)
    ensures |s| == |b| && forall i :: 0 <= i < |b| ==> s[i] as int == 256 + b[i] as int
  {
    seq(|b|, i requires 0 <= i < |b| => (256 + b[i] as int) as char)
  }

  function Unshifted(s: string): (b: seq<Byte>)
    ensures |b| == |s|
  {
    seq(|s|, i requires 0 <= i < |s| => if 256 <= s[i] as int < 512 then s[i] as int - 256 else 0)
  }

  /** What is assumed of the primitives can be met. */
  lemma LawfulExists()
    ensures exists p :: Lawful(p)
  {
    var p := Primitives(_ => Nuls(32), (iv, b) => b, (iv, b) => Some(b), Shifted, Unshifted, AnyText);
    forall b
      ensures p.fromBase64(p.toBase64(b)) == b && '%' !in p.toBase64(b) && (b != [] ==> p.toBase64(b) != "")
    {
      assert forall i :: 0 <= i < |b| ==> Shifted(b)[i] as int == 256 + b[i];
    }
    forall s
      ensures p.fromBytes(ToBytes(s)) == s
    {
      ToBytesInjective(AnyText(ToBytes(s)), s);
    }
    assert Lawful(p);
  }
}
