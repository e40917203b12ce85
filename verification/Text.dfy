/** The string operations of the source that several components use. */
module Text {
  /** A number printed in decimal, as a template literal prints it. */
  function Decimal(n: nat): (s: string)
    ensures |s| > 0
  {
    if n < 10 then [Digit(n)] else Decimal(n / 10) + [Digit(n % 10)]
  }

  function Digit(d: nat): char
    requires d < 10
  {
    (d as char) + '0'
  }

  /** White space, as `trim` removes it. */
  predicate IsSpace(c: char) {
    || '\t' <= c <= '\r' || c == ' ' || c == '\U{00A0}' || c == '\U{1680}' || '\U{2000}' <= c <= '\U{200A}'
    || c == '\U{2028}' || c == '\U{2029}' || c == '\U{202F}' || c == '\U{205F}' || c == '\U{3000}' || c == '\U{FEFF}'
  }

  /** `s.split(c)` for a one-character separator: never empty, and `[""]` for the empty string. */
  function Split(s: string, c: char): (parts: seq<string>)
    ensures |parts| > 0
    ensures forall i :: 0 <= i < |parts| ==> c !in parts[i]
  {
    if |s| == 0 then [""]
    else if s[0] == c then [""] + Split(s[1..], c)
    else
      var rest := Split(s[1..], c);
      [[s[0]] + rest[0]] + rest[1..]
  }

  /** `parts.join(c)` */
  function Join(parts: seq<string>, c: char): string {
    if |parts| == 0 then ""
    else if |parts| == 1 then parts[0]
    else parts[0] + [c] + Join(parts[1..], c)
  }

  /** Splitting undoes joining when no part holds the separator. */
  lemma {:induction false} SplitJoin(parts: seq<string>, c: char)
    requires |parts| > 0 && forall i :: 0 <= i < |parts| ==> c !in parts[i]
    ensures Split(Join(parts, c), c) == parts
  {
    if |parts| == 1 {
      SplitNone(parts[0], c);
    } else {
      SplitJoin(parts[1..], c);
      SplitFirst(parts[0], Join(parts[1..], c), c);
      assert parts[0] + [c] + Join(parts[1..], c) == parts[0] + ([c] + Join(parts[1..], c));
    }
  }

  lemma {:induction false} SplitNone(part: string, c: char)
    requires c !in part
    ensures Split(part, c) == [part]
  {
    if |part| > 0 {
      SplitNone(part[1..], c);
      assert [part[0]] + part[1..] == part;
    }
  }

  lemma {:induction false} SplitFirst(part: string, rest: string, c: char)
    requires c !in part
    ensures Split(part + ([c] + rest), c) == [part] + Split(rest, c)
  {
    if |part| == 0 {
      assert part + ([c] + rest) == [c] + rest;
    } else {
      SplitFirst(part[1..], rest, c);
      assert (part + ([c] + rest))[1..] == part[1..] + ([c] + rest);
      assert [part[0]] + part[1..] == part;
    }
  }

  /** `s.replace(/pattern/g, replacement)` for a literal pattern. */
  function ReplaceAll(s: string, pattern: string, replacement: string): string
    requires |pattern| > 0
    decreases |s|
  {
    if |s| == 0 then ""
    else if pattern <= s then replacement + ReplaceAll(s[|pattern|..], pattern, replacement)
    else [s[0]] + ReplaceAll(s[1..], pattern, replacement)
  }

  lemma {:induction false} ReplaceAbsent(s: string, pattern: string, replacement: string)
    requires |pattern| > 0 && pattern[0] !in s
    ensures ReplaceAll(s, pattern, replacement) == s
    decreases |s|
  {
    if |s| > 0 {
      ReplaceAbsent(s[1..], pattern, replacement);
      assert [s[0]] + s[1..] == s;
    }
  }

  /** A stretch in which the pattern cannot begin is copied. */
  lemma {:induction false} ReplaceSkip(part: string, rest: string, pattern: string, replacement: string)
    requires |pattern| > 0 && pattern[0] !in part
    ensures ReplaceAll(part + rest, pattern, replacement) == part + ReplaceAll(rest, pattern, replacement)
    decreases |part|
  {
    if |part| == 0 {
      assert part + rest == rest;
    } else {
      ReplaceSkip(part[1..], rest, pattern, replacement);
      assert (part + rest)[1..] == part[1..] + rest;
      assert [part[0]] + part[1..] == part;
    }
  }

  lemma ReplaceHere(pattern: string, rest: string, replacement: string)
    requires |pattern| > 0
    ensures ReplaceAll(pattern + rest, pattern, replacement) == replacement + ReplaceAll(rest, pattern, replacement)
  {
    assert (pattern + rest)[|pattern|..] == rest;
  }

  lemma ReplaceStep(s: string, pattern: string, replacement: string)
    requires |s| > 0 && |pattern| > 0 && !(pattern <= s)
    ensures ReplaceAll(s, pattern, replacement) == [s[0]] + ReplaceAll(s[1..], pattern, replacement)
  {
  }

  lemma HeadFirst(s: string, more: string)
    requires |s| > 0
    ensures s + more == [s[0]] + (s[1..] + more)
  {
  }

  /** A stretch where the pattern does not match and after whose first character it cannot begin is copied. */
  lemma ReplaceToken(token: string, rest: string, pattern: string, replacement: string)
    requires |token| > 0 && |pattern| > 0 && !(pattern <= token + rest) && pattern[0] !in token[1..]
    ensures ReplaceAll(token + rest, pattern, replacement) == token + ReplaceAll(rest, pattern, replacement)
  {
    var after := ReplaceAll(rest, pattern, replacement);
    ReplaceStep(token + rest, pattern, replacement);
    assert (token + rest)[1..] == token[1..] + rest;
    ReplaceSkip(token[1..], rest, pattern, replacement);
    HeadFirst(token, after);
  }
}
