/**
 * The regular expressions of the CAS response parser (packages/lib-cas/src/xml-parser.ts) as scanning functions, and
 * what they find in a document made of text and tags.
 */
module CasPatterns {
  import opened Wrappers

  // ---------------------------------------------------------------- matching

  function Lower(c: char): char {
    if 'A' <= c <= 'Z' then c - 'A' + 'a' else c
  }

  /** Equal under the `i` flag. */
  predicate EqualFold(a: string, b: string) {
    |a| == |b| && forall i :: 0 <= i < |a| ==> Lower(a[i]) == Lower(b[i])
  }

  predicate StartsFold(s: string, literal: string) {
    |literal| <= |s| && EqualFold(s[..|literal|], literal)
  }

  /** The length of `[^stop]*` at the start of the string. */
  function Span(s: string, stop: char): (n: nat)
    ensures n <= |s| && stop !in s[..n]
    ensures n < |s| ==> s[n] == stop
  {
    if |s| == 0 || s[0] == stop then 0 else 1 + Span(s[1..], stop)
  }

  /** A capture and the input after the match. */
  datatype Match = Match(content: string, rest: string)

  datatype KeyedMatch = KeyedMatch(key: string, content: string, rest: string)

  /** `([^<]*)</name>` at the start of the string */
  function ClosedBody(s: string, name: string): (m: Option<Match>)
    ensures m.Some? ==> |m.value.rest| < |s|
  {
    var n := Span(s, '<');
    if StartsFold(s[n..], "</" + name + ">") then Some(Match(s[..n], s[n..][|name| + 3..])) else None
  }

  /** `<name>([^<]*)</name>` at the start of the string */
  function ElementHere(s: string, name: string): (m: Option<Match>)
    ensures m.Some? ==> |m.value.rest| < |s|
  {
    if StartsFold(s, "<" + name + ">") then ClosedBody(s[|name| + 2..], name) else None
  }

  function FindElement(s: string, name: string): (m: Option<Match>)
    ensures m.Some? ==> |m.value.rest| < |s|
  {
    if |s| == 0 then None
    else if ElementHere(s, name).Some? then ElementHere(s, name)
    else FindElement(s[1..], name)
  }

  /** The captures of a global search. */
  function AllElements(s: string, name: string): seq<string>
    decreases |s|
  {
    match FindElement(s, name)
    case None => []
    case Some(m) => [m.content] + AllElements(m.rest, name)
  }

  /** `([\s\S]*?)<name>` at the start of the string */
  function UntilTag(s: string, name: string): Option<string> {
    if |s| == 0 then None
    else if StartsFold(s, "<" + name + ">") then Some("")
    else match UntilTag(s[1..], name)
      case None => None
      case Some(text) => Some([s[0]] + text)
  }

  /** `<name>([\s\S]*?)</name>` */
  function FindBlock(s: string, name: string): Option<string> {
    if |s| == 0 then None
    else if StartsFold(s, "<" + name + ">") && UntilTag(s[|name| + 2..], "/" + name).Some? then
      UntilTag(s[|name| + 2..], "/" + name)
    else FindBlock(s[1..], name)
  }

  /** `<cas:([^>]+)>([^<]*)</cas:\1>` at the start of the string */
  function AttributeHere(s: string): (m: Option<KeyedMatch>)
    ensures m.Some? ==> |m.value.rest| < |s|
  {
    if !StartsFold(s, "<cas:") then None
    else
      var k := Span(s[5..], '>');
      if k == 0 || k == |s[5..]| then None
      else
        var key := s[5..][..k];
        match ClosedBody(s[5..][k + 1..], "cas:" + key)
        case None => None
        case Some(m) => Some(KeyedMatch(key, m.content, m.rest))
  }

  function FindAttribute(s: string): (m: Option<KeyedMatch>)
    ensures m.Some? ==> |m.value.rest| < |s|
  {
    if |s| == 0 then None
    else if AttributeHere(s).Some? then AttributeHere(s)
    else FindAttribute(s[1..])
  }

  function AllAttributes(s: string): seq<(string, string)>
    decreases |s|
  {
    match FindAttribute(s)
    case None => []
    case Some(m) => [(m.key, m.content)] + AllAttributes(m.rest)
  }

  const FAILURE_OPEN := "<cas:authenticationFailure"

  /** `code="([^"]*)"[^>]*>([^<]*)<` at the start of the string */
  function CodeHere(s: string): Option<(string, string)> {
    if !StartsFold(s, "code=\"") then None
    else
      var value := s[6..];
      var q := Span(value, '"');
      if q == |value| then None
      else
        var g := Span(value[q + 1..], '>');
        if g == |value[q + 1..]| then None
        else
          var message := value[q + 1..][g + 1..];
          var l := Span(message, '<');
          if l == |message| then None else Some((value[..q], message[..l]))
  }

  /** `[^>]*` takes as much as it can, here at most `j` characters. */
  function CodeAfter(s: string, j: nat): Option<(string, string)>
    requires j <= |s|
  {
    if CodeHere(s[j..]).Some? then CodeHere(s[j..])
    else if j == 0 then None
    else CodeAfter(s, j - 1)
  }

  /** `<cas:authenticationFailure[^>]*code="([^"]*)"[^>]*>([^<]*)<` */
  function FindFailure(s: string): Option<(string, string)> {
    if |s| == 0 then None
    else
      var here := if StartsFold(s, FAILURE_OPEN)
                  then CodeAfter(s[|FAILURE_OPEN|..], Span(s[|FAILURE_OPEN|..], '>')) else None;
      if here.Some? then here else FindFailure(s[1..])
  }

  // ---------------------------------------------------------------- documents of text and tags

  /** A tag with the text before it. */
  datatype Chunk = Chunk(text: string, tag: string)

  predicate Plain(s: string) {
    '<' !in s && '>' !in s
  }

  /** No text holds a `<` and no tag holds a `<` or a `>`. */
  predicate Tidy(cs: seq<Chunk>) {
    forall i :: 0 <= i < |cs| ==> '<' !in cs[i].text && Plain(cs[i].tag)
  }

  function Render(cs: seq<Chunk>): string {
    if |cs| == 0 then "" else cs[0].text + ("<" + cs[0].tag + ">") + Render(cs[1..])
  }

  lemma {:induction false} RenderConcat(a: seq<Chunk>, b: seq<Chunk>)
    ensures Render(a + b) == Render(a) + Render(b)
  {
    if |a| == 0 {
      assert a + b == b;
    } else {
      assert (a + b)[1..] == a[1..] + b;
      RenderConcat(a[1..], b);
    }
  }

  /** Chunks and the text after the last of them. */
  function Doc(cs: seq<Chunk>, tail: string): string {
    Render(cs) + tail
  }

  /** The input from the first tag on. */
  function FromTag(cs: seq<Chunk>, tail: string): string
    requires |cs| > 0
  {
    "<" + cs[0].tag + ">" + Doc(cs[1..], tail)
  }

  lemma DocSplits(cs: seq<Chunk>, tail: string)
    requires |cs| > 0
    ensures Doc(cs, tail) == cs[0].text + FromTag(cs, tail)
  {
  }

  lemma {:induction false} SpanText(text: string, rest: string, stop: char)
    requires stop !in text && (rest == "" || rest[0] == stop)
    ensures Span(text + rest, stop) == |text|
  {
    if |text| > 0 {
      assert (text + rest)[1..] == text[1..] + rest;
      SpanText(text[1..], rest, stop);
    } else {
      assert text + rest == rest;
    }
  }

  /** A literal that ends a tag matches at a tag exactly when it is that tag. */
  lemma TagMatches(tag: string, rest: string, name: string)
    requires Plain(tag) && Plain(name)
    ensures StartsFold("<" + tag + ">" + rest, "<" + name + ">") <==> EqualFold(tag, name)
  {
    var s := "<" + tag + ">" + rest;
    var literal := "<" + name + ">";
    assert s[|tag| + 1] == '>' && literal[|name| + 1] == '>';
    assert |tag| < |name| ==> literal[|tag| + 1] == name[|tag|] != '>';
    assert |name| < |tag| ==> s[|name| + 1] == tag[|name|] != '>';
    if StartsFold(s, literal) {
      assert forall i :: 0 <= i < |literal| ==> s[..|literal|][i] == s[i];
      assert |tag| == |name|;
      forall i | 0 <= i < |tag|
        ensures Lower(tag[i]) == Lower(name[i])
      {
        assert s[i + 1] == tag[i] && literal[i + 1] == name[i];
      }
    }
    if EqualFold(tag, name) {
      forall i | 0 <= i < |literal|
        ensures Lower(s[..|literal|][i]) == Lower(literal[i])
      {
        if 0 < i <= |tag| {
          assert s[i] == tag[i - 1] && literal[i] == name[i - 1];
        }
      }
    }
  }

  // ---------------------------------------------------------------- elements

  /** A literal that begins with `<` matches nowhere else. */
  lemma NoTagHere(s: string, literal: string)
    requires |s| > 0 && s[0] != '<' && |literal| > 0 && literal[0] == '<'
    ensures !StartsFold(s, literal)
  {
    if |literal| <= |s| {
      assert s[..|literal|][0] == s[0];
    }
  }

  lemma {:induction false} SkipToElement(part: string, rest: string, name: string)
    requires '<' !in part
    ensures FindElement(part + rest, name) == FindElement(rest, name)
  {
    if |part| == 0 {
      assert part + rest == rest;
    } else {
      NoTagHere(part + rest, "<" + name + ">");
      assert (part + rest)[1..] == part[1..] + rest;
      SkipToElement(part[1..], rest, name);
    }
  }

  /** What follows an opening tag closes the element when the next tag is its closing tag. */
  lemma ClosedBodyInDoc(cs: seq<Chunk>, tail: string, name: string)
    requires Tidy(cs) && '<' !in tail && Plain(name)
    ensures ClosedBody(Doc(cs, tail), name) ==
            if |cs| > 0 && EqualFold(cs[0].tag, "/" + name) then Some(Match(cs[0].text, Doc(cs[1..], tail))) else None
  {
    if |cs| == 0 {
      SpanText(tail, "", '<');
      assert Doc(cs, tail) == tail + "" == tail;
    } else {
      DocSplits(cs, tail);
      SpanText(cs[0].text, FromTag(cs, tail), '<');
      TagMatches(cs[0].tag, Doc(cs[1..], tail), "/" + name);
      assert "<" + ("/" + name) + ">" == "</" + name + ">";
      assert Doc(cs, tail)[|cs[0].text|..] == FromTag(cs, tail);
      assert FromTag(cs, tail)[|cs[0].tag| + 2..] == Doc(cs[1..], tail);
    }
  }

  predicate ClosedAt(cs: seq<Chunk>, k: nat, name: string) {
    k + 1 < |cs| && EqualFold(cs[k].tag, name) && EqualFold(cs[k + 1].tag, "/" + name)
  }

  lemma ElementAtTag(cs: seq<Chunk>, tail: string, name: string)
    requires |cs| > 0 && Tidy(cs) && '<' !in tail && Plain(name)
    ensures ElementHere(FromTag(cs, tail), name) ==
            if ClosedAt(cs, 0, name) then Some(Match(cs[1].text, Doc(cs[2..], tail))) else None
  {
    TagMatches(cs[0].tag, Doc(cs[1..], tail), name);
    assert FromTag(cs, tail)[|cs[0].tag| + 2..] == Doc(cs[1..], tail);
    ClosedBodyInDoc(cs[1..], tail, name);
    assert |cs| > 1 ==> cs[1..][1..] == cs[2..];
  }

  lemma ElementNotHere(s: string, name: string)
    requires |s| > 0 && ElementHere(s, name) == None
    ensures FindElement(s, name) == FindElement(s[1..], name)
  {
  }

  lemma ElementFound(cs: seq<Chunk>, tail: string, name: string)
    requires Tidy(cs) && '<' !in tail && Plain(name) && ClosedAt(cs, 0, name)
    ensures FindElement(Doc(cs, tail), name) == Some(Match(cs[1].text, Doc(cs[2..], tail)))
  {
    DocSplits(cs, tail);
    SkipToElement(cs[0].text, FromTag(cs, tail), name);
    ElementAtTag(cs, tail, name);
  }

  lemma ElementPast(text: string, tag: string, rest: string, name: string)
    requires '<' !in text && '<' !in tag && ElementHere("<" + tag + ">" + rest, name) == None
    ensures FindElement(text + ("<" + tag + ">" + rest), name) == FindElement(rest, name)
  {
    var here := "<" + tag + ">" + rest;
    SkipToElement(text, here, name);
    ElementNotHere(here, name);
    TagBody(tag, rest);
    SkipToElement(tag + ">", rest, name);
  }

  lemma TagBody(tag: string, rest: string)
    ensures ("<" + tag + ">" + rest)[1..] == (tag + ">") + rest
  {
  }

  lemma ElementPastTag(cs: seq<Chunk>, tail: string, name: string)
    requires |cs| > 0 && Tidy(cs) && '<' !in tail && Plain(name) && !ClosedAt(cs, 0, name)
    ensures FindElement(Doc(cs, tail), name) == FindElement(Doc(cs[1..], tail), name)
  {
    DocSplits(cs, tail);
    ElementAtTag(cs, tail, name);
    ElementPast(cs[0].text, cs[0].tag, Doc(cs[1..], tail), name);
  }

  // ---------------------------------------------------------------- blocks

  lemma UntilNotHere(s: string, name: string, text: string)
    requires |s| > 0 && !StartsFold(s, "<" + name + ">") && UntilTag(s[1..], name) == Some(text)
    ensures UntilTag(s, name) == Some([s[0]] + text)
  {
  }

  lemma {:induction false} SkipUntil(part: string, rest: string, name: string, text: string)
    requires '<' !in part && UntilTag(rest, name) == Some(text)
    ensures UntilTag(part + rest, name) == Some(part + text)
  {
    if |part| == 0 {
      assert part + rest == rest && part + text == text;
    } else {
      NoTagHere(part + rest, "<" + name + ">");
      assert (part + rest)[1..] == part[1..] + rest;
      SkipUntil(part[1..], rest, name, text);
      UntilNotHere(part + rest, name, part[1..] + text);
      assert [part[0]] + (part[1..] + text) == part + text;
    }
  }

  /** The first chunk whose tag is the name. */
  function FirstTag(cs: seq<Chunk>, name: string): (k: Option<nat>)
    ensures k.Some? ==> k.value < |cs| && EqualFold(cs[k.value].tag, name)
    ensures forall i :: 0 <= i < (if k.Some? then k.value else |cs|) ==> !EqualFold(cs[i].tag, name)
  {
    if |cs| == 0 then None
    else if EqualFold(cs[0].tag, name) then Some(0)
    else match FirstTag(cs[1..], name)
      case None => None
      case Some(k) => Some(k + 1)
  }

  lemma UntilPast(part: string, tag: string, rest: string, name: string, text: string)
    requires '<' !in part && '<' !in tag && !StartsFold("<" + tag + ">" + rest, "<" + name + ">")
    requires UntilTag(rest, name) == Some(text)
    ensures UntilTag(part + ("<" + tag + ">" + rest), name) == Some(part + ("<" + tag + ">" + text))
  {
    SkipUntil(tag + ">", rest, name, text);
    TagBody(tag, rest);
    UntilNotHere("<" + tag + ">" + rest, name, (tag + ">") + text);
    TagBody(tag, text);
    assert ['<'] + (tag + ">" + text) == "<" + tag + ">" + text;
    SkipUntil(part, "<" + tag + ">" + rest, name, "<" + tag + ">" + text);
  }

  lemma UntilAtTag(cs: seq<Chunk>, name: string)
    requires |cs| > 0 && Tidy(cs) && Plain(name) && EqualFold(cs[0].tag, name)
    ensures UntilTag(Render(cs), name) == Some(cs[0].text)
  {
    Assoc(cs[0].text, "<" + cs[0].tag + ">", Render(cs[1..]));
    TagMatches(cs[0].tag, Render(cs[1..]), name);
    UntilHere("<" + cs[0].tag + ">" + Render(cs[1..]), name);
    SkipUntil(cs[0].text, "<" + cs[0].tag + ">" + Render(cs[1..]), name, "");
    assert cs[0].text + "" == cs[0].text;
  }

  lemma UntilHere(s: string, name: string)
    requires StartsFold(s, "<" + name + ">")
    ensures UntilTag(s, name) == Some("")
  {
  }

  lemma UntilPastTag(cs: seq<Chunk>, name: string, text: string)
    requires |cs| > 0 && Tidy(cs) && Plain(name) && !EqualFold(cs[0].tag, name)
    requires UntilTag(Render(cs[1..]), name) == Some(text)
    ensures UntilTag(Render(cs), name) == Some(cs[0].text + ("<" + cs[0].tag + ">" + text))
  {
    Assoc(cs[0].text, "<" + cs[0].tag + ">", Render(cs[1..]));
    TagMatches(cs[0].tag, Render(cs[1..]), name);
    UntilPast(cs[0].text, cs[0].tag, Render(cs[1..]), name, text);
  }

  lemma ContentNext(cs: seq<Chunk>, j: nat)
    requires j + 1 < |cs|
    ensures BlockContent(cs, j + 1) == cs[0].text + ("<" + cs[0].tag + ">" + BlockContent(cs[1..], j))
  {
    assert cs[..j + 1][1..] == cs[1..][..j] && cs[..j + 1][0] == cs[0];
    Assoc("<" + cs[0].tag + ">", Render(cs[1..][..j]), cs[1..][j].text);
    Assoc(cs[0].text + ("<" + cs[0].tag + ">"), Render(cs[1..][..j]), cs[1..][j].text);
    Assoc(cs[0].text, "<" + cs[0].tag + ">", BlockContent(cs[1..], j));
  }

  /** A block ends at the first closing tag of its name. */
  lemma {:induction false} UntilInDoc(cs: seq<Chunk>, name: string, j: nat)
    requires Tidy(cs) && Plain(name) && FirstTag(cs, name) == Some(j)
    ensures UntilTag(Render(cs), name) == Some(BlockContent(cs, j))
    decreases |cs|
  {
    if j == 0 {
      UntilAtTag(cs, name);
      assert cs[..0] == [] && Render(cs[..0]) + cs[0].text == cs[0].text;
    } else {
      UntilInDoc(cs[1..], name, j - 1);
      UntilPastTag(cs, name, BlockContent(cs[1..], j - 1));
      ContentNext(cs, j - 1);
    }
  }

  lemma {:induction false} SkipToBlock(part: string, rest: string, name: string)
    requires '<' !in part
    ensures FindBlock(part + rest, name) == FindBlock(rest, name)
  {
    if |part| == 0 {
      assert part + rest == rest;
    } else {
      NoTagHere(part + rest, "<" + name + ">");
      assert (part + rest)[1..] == part[1..] + rest;
      SkipToBlock(part[1..], rest, name);
    }
  }

  lemma BlockHere(s: string, name: string, text: string)
    requires StartsFold(s, "<" + name + ">") && UntilTag(s[|name| + 2..], "/" + name) == Some(text)
    ensures FindBlock(s, name) == Some(text)
  {
  }

  lemma BlockNotHere(s: string, name: string)
    requires |s| > 0 && !StartsFold(s, "<" + name + ">")
    ensures FindBlock(s, name) == FindBlock(s[1..], name)
  {
  }

  lemma BlockPast(text: string, tag: string, rest: string, name: string)
    requires '<' !in text && '<' !in tag && !StartsFold("<" + tag + ">" + rest, "<" + name + ">")
    ensures FindBlock(text + ("<" + tag + ">" + rest), name) == FindBlock(rest, name)
  {
    var here := "<" + tag + ">" + rest;
    SkipToBlock(text, here, name);
    BlockNotHere(here, name);
    TagBody(tag, rest);
    SkipToBlock(tag + ">", rest, name);
  }

  /** A tag that does not match is left behind. */
  lemma BlockPastTag(cs: seq<Chunk>, name: string)
    requires |cs| > 0 && Tidy(cs) && Plain(name) && !EqualFold(cs[0].tag, name)
    ensures FindBlock(Render(cs), name) == FindBlock(Render(cs[1..]), name)
  {
    Assoc(cs[0].text, "<" + cs[0].tag + ">", Render(cs[1..]));
    TagMatches(cs[0].tag, Render(cs[1..]), name);
    BlockPast(cs[0].text, cs[0].tag, Render(cs[1..]), name);
  }

  /** The content of a block whose opening tag precedes the chunks. */
  function BlockContent(cs: seq<Chunk>, j: nat): string
    requires j < |cs|
  {
    Doc(cs[..j], cs[j].text)
  }

  lemma Assoc(a: string, b: string, c: string)
    ensures (a + b) + c == a + (b + c)
  {
  }

  /** A block that opens at the first tag. */
  lemma BlockAtTag(cs: seq<Chunk>, j: nat, name: string)
    requires |cs| > 0 && Tidy(cs) && Plain(name)
    requires EqualFold(cs[0].tag, name) && FirstTag(cs[1..], "/" + name) == Some(j)
    ensures FindBlock(Render(cs), name) == Some(BlockContent(cs[1..], j))
  {
    var rest := Render(cs[1..]);
    var here := "<" + cs[0].tag + ">" + rest;
    Assoc(cs[0].text, "<" + cs[0].tag + ">", rest);
    assert Render(cs) == cs[0].text + here;
    SkipToBlock(cs[0].text, here, name);
    TagMatches(cs[0].tag, rest, name);
    assert here[|name| + 2..] == rest;
    UntilInDoc(cs[1..], "/" + name, j);
    BlockHere(here, name, BlockContent(cs[1..], j));
  }

  // ---------------------------------------------------------------- lists of elements

  /** One element per entry: the opening tag after the indentation, the closing tag after the content. */
  function Elements(indent: string, entries: seq<(string, string)>): (cs: seq<Chunk>)
    ensures |cs| == 2 * |entries|
  {
    if |entries| == 0 then []
    else
      [Chunk(indent, "cas:" + entries[0].0), Chunk(entries[0].1, "/cas:" + entries[0].0)]
      + Elements(indent, entries[1..])
  }

  predicate TidyEntries(entries: seq<(string, string)>) {
    forall i :: 0 <= i < |entries| ==> Plain(entries[i].0) && '<' !in entries[i].1
  }

  lemma {:induction false} ElementsTidy(indent: string, entries: seq<(string, string)>)
    requires '<' !in indent && TidyEntries(entries)
    ensures Tidy(Elements(indent, entries))
  {
    if |entries| > 0 {
      ElementsTidy(indent, entries[1..]);
    }
  }

  lemma {:induction false} ElementsConcat(indent: string, a: seq<(string, string)>, b: seq<(string, string)>)
    ensures Elements(indent, a + b) == Elements(indent, a) + Elements(indent, b)
  {
    if |a| == 0 {
      assert a + b == b;
    } else {
      assert (a + b)[1..] == a[1..] + b;
      ElementsConcat(indent, a[1..], b);
    }
  }

  lemma {:induction false} SkipToAttribute(part: string, rest: string)
    requires '<' !in part
    ensures FindAttribute(part + rest) == FindAttribute(rest)
  {
    if |part| == 0 {
      assert part + rest == rest;
    } else {
      NoTagHere(part + rest, "<cas:");
      assert (part + rest)[1..] == part[1..] + rest;
      SkipToAttribute(part[1..], rest);
    }
  }

  lemma KeyOfTag(key: string, rest: string)
    requires '>' !in key
    ensures var s := "<cas:" + key + ">" + rest;
            && StartsFold(s, "<cas:")
            && Span(s[5..], '>') == |key| < |s[5..]| && s[5..][..|key|] == key && s[5..][|key| + 1..] == rest
  {
    var s := "<cas:" + key + ">" + rest;
    assert s[..5] == "<cas:" && s[5..] == key + (">" + rest);
    SpanText(key, ">" + rest, '>');
  }

  lemma AttributeAtTag(cs: seq<Chunk>, tail: string, key: string)
    requires |cs| > 1 && Tidy(cs) && '<' !in tail && |key| > 0 && Plain(key)
    requires cs[0].tag == "cas:" + key && cs[1].tag == "/cas:" + key
    ensures AttributeHere(FromTag(cs, tail)) == Some(KeyedMatch(key, cs[1].text, Doc(cs[2..], tail)))
  {
    KeyOfTag(key, Doc(cs[1..], tail));
    assert "<" + ("cas:" + key) + ">" == "<cas:" + key + ">";
    assert "/" + ("cas:" + key) == "/cas:" + key;
    ClosedBodyInDoc(cs[1..], tail, "cas:" + key);
    assert cs[1..][1..] == cs[2..];
  }

  lemma AttributeFirst(cs: seq<Chunk>, tail: string, key: string)
    requires |cs| > 1 && Tidy(cs) && '<' !in tail && |key| > 0 && Plain(key)
    requires cs[0].tag == "cas:" + key && cs[1].tag == "/cas:" + key
    ensures FindAttribute(Doc(cs, tail)) == Some(KeyedMatch(key, cs[1].text, Doc(cs[2..], tail)))
  {
    DocSplits(cs, tail);
    SkipToAttribute(cs[0].text, FromTag(cs, tail));
    AttributeAtTag(cs, tail, key);
  }

  lemma AttributeNotHere(s: string)
    requires |s| > 0 && AttributeHere(s) == None
    ensures FindAttribute(s) == FindAttribute(s[1..])
  {
  }

  lemma AttributePast(text: string, tag: string, rest: string)
    requires '<' !in text && '<' !in tag && AttributeHere("<" + tag + ">" + rest) == None
    ensures FindAttribute(text + ("<" + tag + ">" + rest)) == FindAttribute(rest)
  {
    var here := "<" + tag + ">" + rest;
    SkipToAttribute(text, here);
    AttributeNotHere(here);
    TagBody(tag, rest);
    SkipToAttribute(tag + ">", rest);
  }

  /** A tag that opens no attribute is left behind. */
  lemma AttributePastTag(cs: seq<Chunk>, tail: string)
    requires |cs| > 0 && Tidy(cs) && AttributeHere(FromTag(cs, tail)) == None
    ensures FindAttribute(Doc(cs, tail)) == FindAttribute(Doc(cs[1..], tail))
  {
    DocSplits(cs, tail);
    AttributePast(cs[0].text, cs[0].tag, Doc(cs[1..], tail));
  }

  lemma ClosingTagIsNoAttribute(cs: seq<Chunk>, tail: string)
    requires |cs| > 0 && |cs[0].tag| > 0 && cs[0].tag[0] == '/'
    ensures AttributeHere(FromTag(cs, tail)) == None
  {
    var s := FromTag(cs, tail);
    if |s| >= 5 {
      assert s[..5][1] == '/';
    }
  }

  /** An element without a name is no attribute. */
  lemma NamelessIsNoAttribute(cs: seq<Chunk>, tail: string)
    requires |cs| > 0 && cs[0].tag == "cas:"
    ensures AttributeHere(FromTag(cs, tail)) == None
  {
    KeyOfTag("", Doc(cs[1..], tail));
    assert "<" + "cas:" + ">" == "<cas:" + "" + ">";
  }

  lemma NamelessPast(cs: seq<Chunk>, tail: string)
    requires |cs| > 1 && Tidy(cs) && cs[0].tag == "cas:" && |cs[1].tag| > 0 && cs[1].tag[0] == '/'
    ensures FindAttribute(Doc(cs, tail)) == FindAttribute(Doc(cs[2..], tail))
  {
    NamelessIsNoAttribute(cs, tail);
    AttributePastTag(cs, tail);
    ClosingTagIsNoAttribute(cs[1..], tail);
    AttributePastTag(cs[1..], tail);
    assert cs[1..][1..] == cs[2..];
  }

  /** An attribute that is not closed by the next tag is no attribute. */
  lemma UnclosedIsNoAttribute(cs: seq<Chunk>, tail: string, key: string)
    requires |cs| == 1 && Tidy(cs) && '<' !in tail && Plain(key) && cs[0].tag == "cas:" + key
    ensures AttributeHere(FromTag(cs, tail)) == None
  {
    KeyOfTag(key, Doc(cs[1..], tail));
    assert "<" + ("cas:" + key) + ">" == "<cas:" + key + ">";
    ClosedBodyInDoc(cs[1..], tail, "cas:" + key);
  }

  /** The entries the attribute search can find. */
  function Keyed(entries: seq<(string, string)>): seq<(string, string)> {
    if |entries| == 0 then []
    else (if entries[0].0 == "" then [] else [entries[0]]) + Keyed(entries[1..])
  }

  /** At most one attribute that is not closed. */
  predicate Unclosed(end: seq<Chunk>, indent: string, key: string) {
    end == [] || (end == [Chunk(indent, "cas:" + key)] && Plain(key))
  }

  lemma NoAttributeAtEnd(indent: string, end: seq<Chunk>, key: string, tail: string)
    requires '<' !in indent && '<' !in tail && Unclosed(end, indent, key)
    ensures AllAttributes(Doc(end, tail)) == []
  {
    if |end| > 0 {
      UnclosedIsNoAttribute(end, tail, key);
      AttributePastTag(end, tail);
    }
    SkipToAttribute(tail, "");
    assert tail == tail + "" && Doc([], tail) == tail;
  }

  /** The elements of the first entry and of the others. */
  lemma FirstEntry(indent: string, entries: seq<(string, string)>, end: seq<Chunk>)
    requires |entries| > 0
    ensures var cs := Elements(indent, entries) + end;
            && |cs| > 1 && cs[0].tag == "cas:" + entries[0].0 && cs[1] == Chunk(entries[0].1, "/cas:" + entries[0].0)
            && cs[2..] == Elements(indent, entries[1..]) + end
  {
    var open, close := Chunk(indent, "cas:" + entries[0].0), Chunk(entries[0].1, "/cas:" + entries[0].0);
    TwoFirst(open, close, Elements(indent, entries[1..]), end);
  }

  lemma TwoFirst(open: Chunk, close: Chunk, rest: seq<Chunk>, end: seq<Chunk>)
    ensures var cs := [open, close] + rest + end;
            |cs| > 1 && cs[0] == open && cs[1] == close && cs[2..] == rest + end
  {
  }

  lemma ElementsTidyWith(indent: string, entries: seq<(string, string)>, end: seq<Chunk>, key: string)
    requires '<' !in indent && TidyEntries(entries) && Unclosed(end, indent, key)
    ensures Tidy(Elements(indent, entries) + end)
  {
    ElementsTidy(indent, entries);
  }

  lemma FirstRead(cs: seq<Chunk>, tail: string, key: string)
    requires |cs| > 1 && Tidy(cs) && '<' !in tail && Plain(key)
    requires cs[0].tag == "cas:" + key && cs[1].tag == "/cas:" + key
    ensures AllAttributes(Doc(cs, tail)) == (if key == "" then [] else [(key, cs[1].text)]) +
            AllAttributes(Doc(cs[2..], tail))
  {
    if key == "" {
      NamelessPast(cs, tail);
    } else {
      AttributeFirst(cs, tail, key);
    }
  }

  /** The attribute search finds the entries that have a key, in order, and stops at an unclosed tag. */
  lemma {:induction false} AttributesInDoc(indent: string, entries: seq<(string, string)>, end: seq<Chunk>,
                                           key: string, tail: string)
    requires '<' !in indent && '<' !in tail && TidyEntries(entries) && Unclosed(end, indent, key)
    ensures AllAttributes(Doc(Elements(indent, entries) + end, tail)) == Keyed(entries)
    decreases |entries|
  {
    if |entries| == 0 {
      assert Elements(indent, entries) + end == end;
      NoAttributeAtEnd(indent, end, key, tail);
    } else {
      FirstEntry(indent, entries, end);
      ElementsTidyWith(indent, entries, end, key);
      AttributesInDoc(indent, entries[1..], end, key, tail);
      FirstRead(Elements(indent, entries) + end, tail, entries[0].0);
    }
  }

  /** Elements of one name. */
  function Named(name: string, contents: seq<string>): (entries: seq<(string, string)>)
    ensures |entries| == |contents| && forall i :: 0 <= i < |contents| ==> entries[i] == (name, contents[i])
  {
    seq(|contents|, i requires 0 <= i < |contents| => (name, contents[i]))
  }

  /** The element search finds the contents, in order. */
  lemma {:induction false} ContentsInDoc(indent: string, name: string, contents: seq<string>, tail: string)
    requires '<' !in indent && '<' !in tail && TidyEntries(Named(name, contents)) && Plain(name)
    ensures AllElements(Doc(Elements(indent, Named(name, contents)), tail), "cas:" + name) == contents
    decreases |contents|
  {
    var cs := Elements(indent, Named(name, contents));
    ElementsTidy(indent, Named(name, contents));
    if |contents| == 0 {
      SkipToElement(tail, "", "cas:" + name);
      assert Doc(cs, tail) == tail + "";
    } else {
      assert "/" + ("cas:" + name) == "/cas:" + name;
      ElementFound(cs, tail, "cas:" + name);
      NamedRest(name, contents);
      assert cs[2..] == Elements(indent, Named(name, contents[1..]));
      ContentsInDoc(indent, name, contents[1..], tail);
    }
  }

  lemma NamedRest(name: string, contents: seq<string>)
    requires |contents| > 0
    ensures Named(name, contents)[1..] == Named(name, contents[1..])
    ensures TidyEntries(Named(name, contents)) ==> TidyEntries(Named(name, contents[1..]))
  {
  }

  // ---------------------------------------------------------------- failures

  lemma {:induction false} SkipToFailure(part: string, rest: string)
    requires '<' !in part
    ensures FindFailure(part + rest) == FindFailure(rest)
  {
    if |part| == 0 {
      assert part + rest == rest;
    } else {
      NoTagHere(part + rest, FAILURE_OPEN);
      assert (part + rest)[1..] == part[1..] + rest;
      SkipToFailure(part[1..], rest);
    }
  }

  lemma NoCodeHere(s: string, j: nat, end: nat)
    requires j <= end < |s| && s[end] == '>' && '"' !in s[..end]
    ensures !StartsFold(s[j..], "code=\"")
  {
    if j + 6 <= |s| {
      if end < j + 6 {
        assert s[j..][..6][end - j] == '>';
      } else {
        assert s[j..][..6][5] == s[j + 5] && s[j + 5] in s[..end];
      }
    }
  }

  /** Without a quotation mark before the end of the tag there is no `code` in it. */
  lemma {:induction false} NoCodeInTag(s: string, j: nat)
    requires j <= Span(s, '>') < |s| && '"' !in s[..Span(s, '>')]
    ensures CodeAfter(s, j) == None
  {
    NoCodeHere(s, j, Span(s, '>'));
    if j > 0 {
      NoCodeInTag(s, j - 1);
    }
  }

  /** The tag does not open an `authenticationFailure` with a `code`. */
  predicate Harmless(tag: string) {
    '"' !in tag || !StartsFold("<" + tag, FAILURE_OPEN)
  }

  lemma ShortTagIsNoFailure(tag: string, rest: string)
    requires |tag| + 1 < |FAILURE_OPEN|
    ensures !StartsFold("<" + tag + ">" + rest, FAILURE_OPEN)
  {
    var s := "<" + tag + ">" + rest;
    if |FAILURE_OPEN| <= |s| {
      assert s[..|FAILURE_OPEN|][|tag| + 1] == '>';
    }
  }

  lemma LongTagIsNoFailure(tag: string, rest: string)
    requires |tag| + 1 >= |FAILURE_OPEN| && '>' !in tag && '"' !in tag
    ensures var after := ("<" + tag + ">" + rest)[|FAILURE_OPEN|..];
            CodeAfter(after, Span(after, '>')) == None
  {
    var left := tag[|FAILURE_OPEN| - 1..];
    var after := ("<" + tag + ">" + rest)[|FAILURE_OPEN|..];
    assert after == left + (">" + rest);
    SpanText(left, ">" + rest, '>');
    assert after[..|left|] == left;
    NoCodeInTag(after, |left|);
  }

  lemma FailureNotAtTag(tag: string, rest: string)
    requires Plain(tag) && Harmless(tag)
    ensures FindFailure("<" + tag + ">" + rest) == FindFailure(tag + ">" + rest)
  {
    var s := "<" + tag + ">" + rest;
    assert s[1..] == tag + ">" + rest;
    if |tag| + 1 < |FAILURE_OPEN| {
      ShortTagIsNoFailure(tag, rest);
    } else {
      assert ("<" + tag)[..|FAILURE_OPEN|] == s[..|FAILURE_OPEN|];
      if '"' !in tag {
        LongTagIsNoFailure(tag, rest);
      }
    }
  }

  lemma {:induction false} NoFailureInDoc(cs: seq<Chunk>)
    requires Tidy(cs) && forall i :: 0 <= i < |cs| ==> Harmless(cs[i].tag)
    ensures FindFailure(Render(cs)) == None
    decreases |cs|
  {
    if |cs| > 0 {
      var rest := Render(cs[1..]);
      var here := "<" + cs[0].tag + ">" + rest;
      Assoc(cs[0].text, "<" + cs[0].tag + ">", rest);
      SkipToFailure(cs[0].text, here);
      FailureNotAtTag(cs[0].tag, rest);
      SkipToFailure(cs[0].tag + ">", rest);
      NoFailureInDoc(cs[1..]);
    }
  }
}
