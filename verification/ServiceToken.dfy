/**
 * Service tokens: minted by the sandbox function `token` (packages/safelib/src/index.ts), read by the service-token
 * handler (packages/handler/src/handlerServiceToken.ts).
 */
module ServiceToken {
  import opened Wrappers
  import opened Numbers
  import opened Text
  import opened Crypto

  /** `token(...args)` at a time in milliseconds */
  function Token(p: Primitives, nowMs: nat, args: seq<string>, iv: seq<Byte>): string {
    Encrypt(p, Decimal(nowMs / 1000) + ":" + Join(args, ':'), iv)
  }

  // ---------------------------------------------------------------- parseInt

  predicate IsDigit(c: char) {
    '0' <= c <= '9'
  }

  function HexValue(c: char): int {
    if IsDigit(c) then (c - '0') as int
    else if 'a' <= c <= 'f' then 10 + (c - 'a') as int
    else if 'A' <= c <= 'F' then 10 + (c - 'A') as int
    else -1
  }

  /** The longest prefix of digits in a base, read after what came before. */
  function Digits(s: string, base: nat, before: nat): nat {
    if |s| == 0 || HexValue(s[0]) < 0 || HexValue(s[0]) >= base then before
    else Digits(s[1..], base, before * base + HexValue(s[0]))
  }

  function SkipSpaces(s: string): string {
    if |s| > 0 && IsSpace(s[0]) then SkipSpaces(s[1..]) else s
  }

  function Unsigned(s: string): Option<nat> {
    if |s| >= 2 && s[0] == '0' && s[1] in "xX" then
      if |s| >= 3 && HexValue(s[2]) >= 0 then Some(Digits(s[2..], 16, 0)) else None
    else if |s| > 0 && IsDigit(s[0]) then Some(Digits(s, 10, 0))
    else None
  }

  /** `parseInt(s)` without a base; nothing for `NaN` */
  function ParseInt(s: string): Option<int> {
    var t := SkipSpaces(s);
    if |t| > 0 && t[0] in "+-" then
      var n := Unsigned(t[1..]);
      if n.None? then None else Some(if t[0] == '-' then -(n.value as int) else n.value)
    else
      var n := Unsigned(t);
      if n.None? then None else Some(n.value)
  }

  lemma {:induction false} DecimalDigits(n: nat)
    ensures forall i :: 0 <= i < |Decimal(n)| ==> IsDigit(Decimal(n)[i])
  {
    if n >= 10 {
      DecimalDigits(n / 10);
    }
  }

  lemma {:induction false} DigitsAppend(s: string, d: char, before: nat)
    requires IsDigit(d) && forall i :: 0 <= i < |s| ==> IsDigit(s[i])
    ensures Digits(s + [d], 10, before) == Digits(s, 10, before) * 10 + HexValue(d)
    decreases |s|
  {
    if |s| == 0 {
      assert s + [d] == [d];
    } else {
      assert (s + [d])[1..] == s[1..] + [d];
      DigitsAppend(s[1..], d, before * 10 + HexValue(s[0]));
    }
  }

  lemma {:induction false} DecimalRead(n: nat)
    ensures Digits(Decimal(n), 10, 0) == n
  {
    if n >= 10 {
      DecimalRead(n / 10);
      DecimalDigits(n / 10);
      DigitsAppend(Decimal(n / 10), Digit(n % 10), 0);
    }
  }

  /** Reading a printed number. */
  lemma ParsePrinted(n: nat)
    ensures ParseInt(Decimal(n)) == Some(n)
  {
    DecimalDigits(n);
    DecimalRead(n);
    assert IsDigit(Decimal(n)[0]) && !IsSpace(Decimal(n)[0]);
    assert |Decimal(n)| >= 2 ==> IsDigit(Decimal(n)[1]);
  }

  lemma {:induction false} DigitsStop(s: string, rest: string, before: nat)
    requires forall i :: 0 <= i < |s| ==> IsDigit(s[i])
    requires rest != "" ==> !IsDigit(rest[0])
    ensures Digits(s + rest, 10, before) == Digits(s, 10, before)
    decreases |s|
  {
    if |s| == 0 {
      assert s + rest == rest;
    } else {
      assert (s + rest)[1..] == s[1..] + rest;
      DigitsStop(s[1..], rest, before * 10 + HexValue(s[0]));
    }
  }

  lemma {:induction false} SpacesSkipped(spaces: string, s: string)
    requires forall i :: 0 <= i < |spaces| ==> IsSpace(spaces[i])
    requires s != "" ==> !IsSpace(s[0])
    ensures SkipSpaces(spaces + s) == s
  {
    if |spaces| == 0 {
      assert spaces + s == s;
    } else {
      assert (spaces + s)[1..] == spaces[1..] + s;
      SpacesSkipped(spaces[1..], s);
    }
  }

  lemma UnsignedRead(n: nat, rest: string)
    requires rest != "" ==> !IsDigit(rest[0]) && rest[0] !in "xX"
    ensures Unsigned(Decimal(n) + rest) == Some(n)
  {
    DecimalDigits(n);
    DecimalRead(n);
    DigitsStop(Decimal(n), rest, 0);
    var s := Decimal(n) + rest;
    assert s[0] == Decimal(n)[0];
    assert |Decimal(n)| >= 2 ==> s[1] == Decimal(n)[1];
    assert |Decimal(n)| == 1 && rest != "" ==> s[1] == rest[0];
  }

  /** White space before a number and anything behind it are ignored; it may have a sign. */
  lemma ParseText(spaces: string, n: nat, rest: string)
    requires forall i :: 0 <= i < |spaces| ==> IsSpace(spaces[i])
    requires rest != "" ==> !IsDigit(rest[0]) && rest[0] !in "xX"
    ensures ParseInt(spaces + (Decimal(n) + rest)) == ParseInt(spaces + ("+" + (Decimal(n) + rest))) == Some(n)
    ensures ParseInt(spaces + ("-" + (Decimal(n) + rest))) == Some(-(n as int))
    ensures (rest != "" ==> !IsSpace(rest[0]) && rest[0] !in "+-") ==> ParseInt(spaces + rest) == None
  {
    var s := Decimal(n) + rest;
    UnsignedRead(n, rest);
    DecimalDigits(n);
    assert s[0] == Decimal(n)[0] && IsDigit(s[0]);
    SpacesSkipped(spaces, s);
    SpacesSkipped(spaces, "+" + s);
    SpacesSkipped(spaces, "-" + s);
    assert ("+" + s)[1..] == s && ("-" + s)[1..] == s;
    if rest != "" ==> !IsSpace(rest[0]) {
      SpacesSkipped(spaces, rest);
    }
  }

  // ---------------------------------------------------------------- fetchId

  /** `indexOf` in an array; the length when it is absent */
  function IndexIn(parts: seq<string>, part: string): (i: nat)
    ensures i <= |parts| && (i < |parts| ==> parts[i] == part)
    ensures forall j :: 0 <= j < i ==> parts[j] != part
  {
    if |parts| == 0 || parts[0] == part then 0 else 1 + IndexIn(parts[1..], part)
  }

  /** Outside [now - 30 s, now]; `NaN` is not. */
  predicate OutOfTime(time: Option<int>, nowMs: nat) {
    time.Some? && (1000 * time.value < nowMs - 30000 || 1000 * time.value > nowMs)
  }

  /** `fetchId`: without a token the id of the cookie. */
  function FetchId(p: Primitives, token: string, cookieId: string, vhost: string, nowMs: nat): string {
    if token == "" then cookieId
    else match Decrypt(p, token)
      case None => ""
      case Some(text) =>
        var parts := Split(text, ':');
        if |parts| <= 2 || parts[2] == "" then ""
        else if OutOfTime(ParseInt(parts[0]), nowMs) then ""
        else if IndexIn(parts, vhost) < 2 || IndexIn(parts, vhost) == |parts| then ""
        else parts[1]
  }

  predicate Part(s: string) {
    ':' !in s && NUL !in s
  }

  /** The parts of the text in a token. */
  function Parts(t: nat, session: string, vhosts: seq<string>): seq<string> {
    [Decimal(t), session] + vhosts
  }

  lemma DecimalIsPart(t: nat)
    ensures Part(Decimal(t)) && Decimal(t) != ""
  {
    DecimalDigits(t);
  }

  lemma {:induction false} JoinFree(parts: seq<string>)
    requires forall i :: 0 <= i < |parts| ==> NUL !in parts[i]
    ensures NUL !in Join(parts, ':')
  {
    if |parts| > 1 {
      JoinFree(parts[1..]);
    }
  }

  lemma PartsAreParts(t: nat, session: string, vhosts: seq<string>)
    requires Part(session) && forall i :: 0 <= i < |vhosts| ==> Part(vhosts[i])
    ensures forall i :: 0 <= i < |Parts(t, session, vhosts)| ==> Part(Parts(t, session, vhosts)[i])
  {
    DecimalIsPart(t);
  }

  lemma JoinedText(t: nat, session: string, vhosts: seq<string>)
    ensures Decimal(t) + ":" + Join([session] + vhosts, ':') == Join(Parts(t, session, vhosts), ':')
  {
    assert Parts(t, session, vhosts)[1..] == [session] + vhosts;
  }

  /** The text in the token is read back, part by part. */
  lemma TokenOpened(p: Primitives, t: nat, session: string, vhosts: seq<string>, iv: seq<Byte>)
    requires Lawful(p) && |iv| == 16 && Part(session) && forall i :: 0 <= i < |vhosts| ==> Part(vhosts[i])
    ensures var text := Join(Parts(t, session, vhosts), ':');
            Decrypt(p, Encrypt(p, text, iv)) == Some(text) && Split(text, ':') == Parts(t, session, vhosts)
  {
    var parts := Parts(t, session, vhosts);
    PartsAreParts(t, session, vhosts);
    DecimalIsPart(t);
    JoinFree(parts);
    assert Join(parts, ':') == parts[0] + [':'] + Join(parts[1..], ':');
    RoundTrip(p, Join(parts, ':'), iv);
    SplitJoin(parts, ':');
  }

  /** Among the virtual hosts, and neither the session nor the time. */
  predicate Listed(t: nat, session: string, vhosts: seq<string>, vhost: string) {
    vhost in vhosts && vhost != session && vhost != Decimal(t)
  }

  lemma ListedIndex(t: nat, session: string, vhosts: seq<string>, vhost: string)
    ensures var i := IndexIn(Parts(t, session, vhosts), vhost);
            2 <= i < |Parts(t, session, vhosts)| <==> Listed(t, session, vhosts, vhost)
  {
    var parts := Parts(t, session, vhosts);
    assert forall i :: 0 <= i < |vhosts| ==> parts[i + 2] == vhosts[i];
    assert parts[0] == Decimal(t) && parts[1] == session;
  }

  lemma NotEmpty(p: Primitives, text: string, iv: seq<Byte>)
    requires Lawful(p) && |iv| == 16
    ensures Encrypt(p, text, iv) != ""
  {
    var sealed := iv + p.cbcEncrypt(iv, p.digest(Padded(text)) + Padded(text));
    assert sealed[0] == iv[0];
  }

  /**
   * A token minted for a session and virtual hosts gives the session exactly on these hosts and for thirty seconds, and
   * nothing otherwise.
   */
  lemma TokenExactly(p: Primitives, mintedMs: nat, session: string, vhosts: seq<string>, iv: seq<Byte>,
                     cookieId: string, vhost: string, nowMs: nat)
    requires Lawful(p) && |iv| == 16 && Part(session) && forall i :: 0 <= i < |vhosts| ==> Part(vhosts[i])
    ensures var t := mintedMs / 1000;
            FetchId(p, Token(p, mintedMs, [session] + vhosts, iv), cookieId, vhost, nowMs) ==
            if && |vhosts| > 0 && vhosts[0] != ""
               && 1000 * t <= nowMs <= 1000 * t + 30000
               && Listed(t, session, vhosts, vhost)
            then session else ""
  {
    var t := mintedMs / 1000;
    NotEmpty(p, Decimal(t) + ":" + Join([session] + vhosts, ':'), iv);
    JoinedText(t, session, vhosts);
    TokenOpened(p, t, session, vhosts, iv);
    ParsePrinted(t);
    ListedIndex(t, session, vhosts, vhost);
    assert |vhosts| > 0 ==> Parts(t, session, vhosts)[2] == vhosts[0];
  }

  /** The same for a token quoted for a query string. */
  lemma QuotedToken(p: Primitives, mintedMs: nat, args: seq<string>, iv: seq<Byte>, cookieId: string, vhost: string,
                    nowMs: nat)
    requires Lawful(p) && |iv| == 16
    ensures var token := Token(p, mintedMs, args, iv);
            FetchId(p, Quote(token, 0), cookieId, vhost, nowMs) == FetchId(p, token, cookieId, vhost, nowMs)
  {
    var text := Decimal(mintedMs / 1000) + ":" + Join(args, ':');
    NotEmpty(p, text, iv);
    UnquoteQuote(p, Encrypt(p, text, iv));
  }
}
