/**
 * The serviceValidate success response, printed (packages/lib-cas/src/xml-builder.ts) and parsed
 * (packages/lib-cas/src/xml-parser.ts); section 2.5 and appendix A of the CAS Protocol 3.0 specification.
 */
module CasResponse {
  import opened Wrappers
  import opened Text
  import opened XmlEscape
  import opened CasPatterns

  const MAX_XML_SIZE: nat := 1048576

  // ---------------------------------------------------------------- trimming

  function TrimStart(s: string): string {
    if |s| > 0 && IsSpace(s[0]) then TrimStart(s[1..]) else s
  }

  function TrimEnd(s: string): string {
    if |s| > 0 && IsSpace(s[|s| - 1]) then TrimEnd(s[..|s| - 1]) else s
  }

  function Trim(s: string): string {
    TrimEnd(TrimStart(s))
  }

  /** No white space at either end. */
  predicate Trimmed(s: string) {
    |s| > 0 ==> !IsSpace(s[0]) && !IsSpace(s[|s| - 1])
  }

  lemma {:induction false} MapConcat(f: char -> string, a: string, b: string)
    ensures MapChars(f, a + b) == MapChars(f, a) + MapChars(f, b)
  {
    if |a| == 0 {
      assert a + b == b;
    } else {
      assert (a + b)[1..] == a[1..] + b;
      MapConcat(f, a[1..], b);
    }
  }

  lemma EntityEnds(c: char)
    ensures |Entity(c)| > 0 && (IsSpace(Entity(c)[0]) <==> IsSpace(c)) &&
            (IsSpace(Entity(c)[|Entity(c)| - 1]) <==> IsSpace(c))
    ensures IsSpace(c) ==> Entity(c) == [c]
  {
  }

  lemma {:induction false} TrimStartEscaped(s: string)
    ensures TrimStart(MapChars(Entity, s)) == MapChars(Entity, TrimStart(s))
  {
    if |s| > 0 {
      EntityEnds(s[0]);
      if IsSpace(s[0]) {
        assert MapChars(Entity, s)[1..] == MapChars(Entity, s[1..]);
        TrimStartEscaped(s[1..]);
      }
    }
  }

  lemma {:induction false} TrimEndEscaped(s: string)
    ensures TrimEnd(MapChars(Entity, s)) == MapChars(Entity, TrimEnd(s))
  {
    if |s| > 0 {
      var last := s[|s| - 1];
      var front := s[..|s| - 1];
      assert s == front + [last];
      MapConcat(Entity, front, [last]);
      assert MapChars(Entity, [last]) == Entity(last);
      EntityEnds(last);
      if IsSpace(last) {
        assert MapChars(Entity, s)[..|MapChars(Entity, s)| - 1] == MapChars(Entity, front);
        TrimEndEscaped(front);
      }
    }
  }

  /** Trimming and unescaping what was escaped gives the trimmed text. */
  lemma ReadBack(s: string)
    ensures UnescapeXml(Trim(EscapeXml(s))) == Trim(s)
  {
    EscapeIsSimultaneous(s);
    TrimStartEscaped(s);
    TrimEndEscaped(TrimStart(s));
    EscapeIsSimultaneous(Trim(s));
    UnescapeEscape(Trim(s));
  }

  lemma TrimKeeps(s: string)
    ensures Trim(s) == s <==> Trimmed(s)
  {
    TrimStartShorter(s);
    TrimEndShorter(TrimStart(s));
  }

  lemma {:induction false} TrimStartShorter(s: string)
    ensures |TrimStart(s)| <= |s| && (TrimStart(s) != s ==> |TrimStart(s)| < |s|)
    ensures (TrimStart(s) == s <==> !(|s| > 0 && IsSpace(s[0])))
  {
    if |s| > 0 && IsSpace(s[0]) {
      TrimStartShorter(s[1..]);
    }
  }

  lemma {:induction false} TrimEndShorter(s: string)
    ensures |TrimEnd(s)| <= |s|
    ensures (TrimEnd(s) == s <==> !(|s| > 0 && IsSpace(s[|s| - 1])))
  {
    if |s| > 0 && IsSpace(s[|s| - 1]) {
      TrimEndShorter(s[..|s| - 1]);
    }
  }

  lemma EscapedIsPlain(s: string)
    ensures Plain(EscapeXml(s)) && '"' !in EscapeXml(s)
  {
    EscapeIsSimultaneous(s);
    MappedIsPlain(s);
  }

  lemma {:induction false} MappedIsPlain(s: string)
    ensures Plain(MapChars(Entity, s)) && '"' !in MapChars(Entity, s)
  {
    if |s| > 0 {
      MappedIsPlain(s[1..]);
      assert Plain(Entity(s[0])) && '"' !in Entity(s[0]);
    }
  }

  // ---------------------------------------------------------------- the printed response

  datatype Attribute = Attribute(key: string, values: seq<string>)

  function KeyValues(key: string, values: seq<string>): (entries: seq<(string, string)>)
    ensures |entries| == |values|
  {
    seq(|values|, i requires 0 <= i < |values| => (EscapeXml(key), EscapeXml(values[i])))
  }

  /** One escaped entry per value, in order. */
  function Entries(attributes: seq<Attribute>): seq<(string, string)> {
    if |attributes| == 0 then []
    else KeyValues(attributes[0].key, attributes[0].values) + Entries(attributes[1..])
  }

  function EscapeAll(values: seq<string>): (escaped: seq<string>)
    ensures |escaped| == |values|
  {
    seq(|values|, i requires 0 <= i < |values| => EscapeXml(values[i]))
  }

  function Head(user: string): seq<Chunk> {
    [Chunk("", XMLNS),
     Chunk("\n  ", "cas:authenticationSuccess"),
     Chunk("\n    ", "cas:user"),
     Chunk(EscapeXml(user), "/cas:user")]
  }

  const LIST_INDENT := "\n      "

  function Block(open: string, close: string, entries: seq<(string, string)>): seq<Chunk> {
    [Chunk("\n    ", open)] + Elements(LIST_INDENT, entries) + [Chunk("\n    ", close)]
  }

  function AttributesPart(attributes: seq<Attribute>): seq<Chunk> {
    if |attributes| == 0 then [] else Block("cas:attributes", "/cas:attributes", Entries(attributes))
  }

  function PgtPart(pgtIou: Option<string>): seq<Chunk> {
    if pgtIou.None? || pgtIou.value == "" then []
    else [Chunk("\n    ", "cas:proxyGrantingTicket"), Chunk(EscapeXml(pgtIou.value), "/cas:proxyGrantingTicket")]
  }

  function ProxiesPart(proxies: seq<string>): seq<Chunk> {
    if |proxies| == 0 then [] else Block("cas:proxies", "/cas:proxies", Named("proxy", EscapeAll(proxies)))
  }

  const TAIL := [Chunk("\n  ", "/cas:authenticationSuccess"), Chunk("\n", "/cas:serviceResponse")]

  /** The response as text and tags. */
  function Response(user: string, attributes: seq<Attribute>, pgtIou: Option<string>, proxies: seq<string>)
    : seq<Chunk>
  {
    Head(user) + (AttributesPart(attributes) + (PgtPart(pgtIou) + (ProxiesPart(proxies) + TAIL)))
  }

  // ---------------------------------------------------------------- the parser

  datatype ParseResult =
    | Success(user: string, attributes: Option<map<string, seq<string>>>, pgtIou: Option<string>,
              proxies: Option<seq<string>>)
    | Failed(code: string, message: string)
    | Thrown

  /** The names every JavaScript object inherits: a record that collects attributes already answers to them. */
  const INHERITED := {"constructor", "__defineGetter__", "__defineSetter__", "hasOwnProperty", "__lookupGetter__",
                      "__lookupSetter__", "isPrototypeOf", "propertyIsEnumerable", "toString", "valueOf", "__proto__",
                      "toLocaleString"}

  /** The record collected from the matches; nothing when an inherited name makes `push` throw. */
  function Collect(inherited: set<string>, matches: seq<(string, string)>): Option<map<string, seq<string>>> {
    if |matches| == 0 then Some(map[])
    else
      var before := Collect(inherited, matches[..|matches| - 1]);
      var (key, content) := matches[|matches| - 1];
      if before.None? || key in inherited then None
      else
        var values := if key in before.value then before.value[key] else [];
        Some(before.value[key := values + [UnescapeXml(Trim(content))]])
  }

  function ReadAll(contents: seq<string>): (values: seq<string>)
    ensures |values| == |contents|
  {
    seq(|contents|, i requires 0 <= i < |contents| => UnescapeXml(Trim(contents[i])))
  }

  /** The content of the element found. */
  function Content(found: Option<Match>): Option<string> {
    if found.None? then None else Some(found.value.content)
  }

  function Read(content: string): string {
    UnescapeXml(Trim(content))
  }

  function BlockRecord(block: Option<string>): Option<map<string, seq<string>>> {
    if block.Some? then Collect(INHERITED, AllAttributes(block.value)) else Some(map[])
  }

  function BlockProxies(block: Option<string>): seq<string> {
    if block.None? then [] else AllElements(block.value, "cas:proxy")
  }

  /** What the parser puts together from a user, a record, a ticket and the contents of the proxies. */
  function Assemble(user: string, record: Option<map<string, seq<string>>>, ticket: Option<string>,
                    contents: seq<string>): ParseResult {
    if record.None? then Thrown
    else Success(user,
                 if record.value == map[] then None else record,
                 if ticket.None? then None else Some(Read(ticket.value)),
                 if |contents| == 0 then None else Some(ReadAll(contents)))
  }

  function Parse(xml: string): ParseResult {
    if xml == "" then Failed("INVALID_RESPONSE", "Empty response")
    else if |xml| > MAX_XML_SIZE then Failed("INVALID_RESPONSE", "Response too large")
    else if FindFailure(xml).Some? then Failed(FindFailure(xml).value.0, Read(FindFailure(xml).value.1))
    else if FindElement(xml, "cas:user").None? then Failed("INVALID_RESPONSE", "No user found in response")
    else Assemble(Read(FindElement(xml, "cas:user").value.content),
                  BlockRecord(FindBlock(xml, "cas:attributes")),
                  Content(FindElement(xml, "cas:proxyGrantingTicket")),
                  BlockProxies(FindBlock(xml, "cas:proxies")))
  }

  // ---------------------------------------------------------------- the loops of the source

  function Tag(name: string): string {
    "<" + name + ">"
  }

  /** One more tag at the end of the printed text. */
  lemma PrintTag(cs: seq<Chunk>, text: string, tag: string)
    ensures Render(cs + [Chunk(text, tag)]) == Render(cs) + text + Tag(tag)
  {
    RenderConcat(cs, [Chunk(text, tag)]);
    assert Render([Chunk(text, tag)]) == text + Tag(tag);
  }

  lemma PrintFirst(text: string, tag: string)
    ensures Render([Chunk(text, tag)]) == text + Tag(tag)
  {
  }

  lemma PrintElement(cs: seq<Chunk>, indent: string, open: string, content: string, close: string)
    ensures Render(cs + [Chunk(indent, open), Chunk(content, close)]) ==
            Render(cs) + indent + Tag(open) + content + Tag(close)
  {
    PrintTag(cs, indent, open);
    PrintTag(cs + [Chunk(indent, open)], content, close);
    assert cs + [Chunk(indent, open), Chunk(content, close)] == (cs + [Chunk(indent, open)]) + [Chunk(content, close)];
  }

  /** The attribute loops of `buildServiceValidateSuccess`. */
  method PrintAttributes(attributes: seq<Attribute>) returns (xml: string)
    requires |attributes| > 0
    ensures xml == Render(AttributesPart(attributes))
  {
    ghost var open := [Chunk("\n    ", "cas:attributes")];
    PrintFirst("\n    ", "cas:attributes");
    xml := "\n    " + Tag("cas:attributes");
    assert attributes[..0] == [];
    assert open + Elements(LIST_INDENT, Entries([])) == open;
    for i := 0 to |attributes|
      invariant xml == Render(open + Elements(LIST_INDENT, Entries(attributes[..i])))
    {
      var key, values := attributes[i].key, attributes[i].values;
      ghost var start := open + Elements(LIST_INDENT, Entries(attributes[..i]));
      assert start + Elements(LIST_INDENT, KeyValues(key, values[..0])) == start;
      for j := 0 to |values|
        invariant xml == Render(start + Elements(LIST_INDENT, KeyValues(key, values[..j])))
      {
        PrintElement(start + Elements(LIST_INDENT, KeyValues(key, values[..j])), LIST_INDENT,
                     "cas:" + EscapeXml(key), EscapeXml(values[j]), "/cas:" + EscapeXml(key));
        KeyValuesStep(start, key, values, j);
        xml := xml + LIST_INDENT + Tag("cas:" + EscapeXml(key)) + EscapeXml(values[j]) + Tag("/cas:" + EscapeXml(key));
      }
      assert values[..|values|] == values;
      EntriesStep(open, attributes, i);
    }
    assert attributes[..|attributes|] == attributes;
    PrintTag(open + Elements(LIST_INDENT, Entries(attributes)), "\n    ", "/cas:attributes");
    xml := xml + "\n    " + Tag("/cas:attributes");
  }

  /** The proxy loop of `buildServiceValidateSuccess`. */
  method PrintProxies(proxies: seq<string>) returns (xml: string)
    requires |proxies| > 0
    ensures xml == Render(ProxiesPart(proxies))
  {
    ghost var open := [Chunk("\n    ", "cas:proxies")];
    PrintFirst("\n    ", "cas:proxies");
    xml := "\n    " + Tag("cas:proxies");
    assert open + Elements(LIST_INDENT, Named("proxy", EscapeAll(proxies[..0]))) == open;
    for i := 0 to |proxies|
      invariant xml == Render(open + Elements(LIST_INDENT, Named("proxy", EscapeAll(proxies[..i]))))
    {
      PrintElement(open + Elements(LIST_INDENT, Named("proxy", EscapeAll(proxies[..i]))), LIST_INDENT,
                   "cas:" + "proxy", EscapeXml(proxies[i]), "/cas:" + "proxy");
      NamedStep(open, "proxy", proxies, i);
      xml := xml + LIST_INDENT + Tag("cas:" + "proxy") + EscapeXml(proxies[i]) + Tag("/cas:" + "proxy");
    }
    assert proxies[..|proxies|] == proxies;
    PrintTag(open + Elements(LIST_INDENT, Named("proxy", EscapeAll(proxies))), "\n    ", "/cas:proxies");
    xml := xml + "\n    " + Tag("/cas:proxies");
  }

  const CAS_NS := "http://www.yale.edu/tp/cas"
  const XMLNS := "cas:serviceResponse " + "xmlns:cas=\"" + CAS_NS + "\""

  /** `buildServiceValidateSuccess` */
  method BuildServiceValidateSuccess(user: string, attributes: seq<Attribute>, pgtIou: Option<string>,
                                     proxies: seq<string>)
    returns (xml: string)
    ensures xml == Render(Response(user, attributes, pgtIou, proxies))
  {
    xml := Tag(XMLNS) + "\n  " + Tag("cas:authenticationSuccess")
           + "\n    " + Tag("cas:user") + EscapeXml(user) + Tag("/cas:user");
    PrintHead(user);
    ghost var head := Render(Head(user));
    if |attributes| > 0 {
      var printed := PrintAttributes(attributes);
      xml := xml + printed;
    }
    ghost var start := xml;
    assert start == head + Render(AttributesPart(attributes));
    if pgtIou.Some? && pgtIou.value != "" {
      PrintPgt(pgtIou.value);
      xml := xml + ("\n    " + Tag("cas:proxyGrantingTicket") + EscapeXml(pgtIou.value) +
                    Tag("/cas:proxyGrantingTicket"));
    }
    ghost var middle := xml;
    assert middle == start + Render(PgtPart(pgtIou));
    if |proxies| > 0 {
      var printed := PrintProxies(proxies);
      xml := xml + printed;
    }
    assert xml == middle + Render(ProxiesPart(proxies));
    PrintTail();
    xml := xml + ("\n  " + Tag("/cas:authenticationSuccess") + "\n" + Tag("/cas:serviceResponse"));
    PartsInOrder(user, attributes, pgtIou, proxies);
  }

  lemma PrintHead(user: string)
    ensures Render(Head(user)) == Tag(XMLNS) + "\n  " + Tag("cas:authenticationSuccess")
                                  + "\n    " + Tag("cas:user") + EscapeXml(user) + Tag("/cas:user")
  {
    var first, second := Chunk("", XMLNS), Chunk("\n  ", "cas:authenticationSuccess");
    PrintFirst("", XMLNS);
    PrintTag([first], "\n  ", "cas:authenticationSuccess");
    assert [first] + [second] == [first, second];
    PrintElement([first, second], "\n    ", "cas:user", EscapeXml(user), "/cas:user");
    assert Head(user) == [first, second] + [Chunk("\n    ", "cas:user"), Chunk(EscapeXml(user), "/cas:user")];
    assert "" + Tag(XMLNS) == Tag(XMLNS);
  }

  lemma PrintPgt(pgtIou: string)
    requires pgtIou != ""
    ensures Render(PgtPart(Some(pgtIou))) ==
            "\n    " + Tag("cas:proxyGrantingTicket") + EscapeXml(pgtIou) + Tag("/cas:proxyGrantingTicket")
  {
    var open := Chunk("\n    ", "cas:proxyGrantingTicket");
    PrintFirst("\n    ", "cas:proxyGrantingTicket");
    PrintTag([open], EscapeXml(pgtIou), "/cas:proxyGrantingTicket");
    assert PgtPart(Some(pgtIou)) == [open] + [Chunk(EscapeXml(pgtIou), "/cas:proxyGrantingTicket")];
  }

  lemma PrintTail()
    ensures Render(TAIL) == "\n  " + Tag("/cas:authenticationSuccess") + "\n" + Tag("/cas:serviceResponse")
  {
    PrintFirst("\n  ", "/cas:authenticationSuccess");
    PrintTag([Chunk("\n  ", "/cas:authenticationSuccess")], "\n", "/cas:serviceResponse");
    assert TAIL == [Chunk("\n  ", "/cas:authenticationSuccess")] + [Chunk("\n", "/cas:serviceResponse")];
  }

  lemma PartsInOrder(user: string, attributes: seq<Attribute>, pgtIou: Option<string>, proxies: seq<string>)
    ensures Render(Response(user, attributes, pgtIou, proxies)) ==
            Render(Head(user)) + Render(AttributesPart(attributes)) + Render(PgtPart(pgtIou))
            + Render(ProxiesPart(proxies)) + Render(TAIL)
  {
    RenderConcat(Head(user), AttributesPart(attributes) + (PgtPart(pgtIou) + (ProxiesPart(proxies) + TAIL)));
    RenderConcat(AttributesPart(attributes), PgtPart(pgtIou) + (ProxiesPart(proxies) + TAIL));
    RenderConcat(PgtPart(pgtIou), ProxiesPart(proxies) + TAIL);
    RenderConcat(ProxiesPart(proxies), TAIL);
    AssocFive(Render(Head(user)), Render(AttributesPart(attributes)), Render(PgtPart(pgtIou)),
              Render(ProxiesPart(proxies)), Render(TAIL));
  }

  lemma AssocFive(a: string, b: string, c: string, d: string, e: string)
    ensures a + (b + (c + (d + e))) == a + b + c + d + e
  {
    Assoc(c, d, e);
    Assoc(b, c + d, e);
    Assoc(b, c, d);
    Assoc(a, b + (c + d), e);
    Assoc(a, b, c + d);
    Assoc(a + b, c, d);
  }

  lemma EntriesStep(open: seq<Chunk>, attributes: seq<Attribute>, i: nat)
    requires i < |attributes|
    ensures open + Elements(LIST_INDENT, Entries(attributes[..i + 1])) ==
            open + Elements(LIST_INDENT, Entries(attributes[..i]))
            + Elements(LIST_INDENT, KeyValues(attributes[i].key, attributes[i].values))
  {
    assert attributes[..i + 1] == attributes[..i] + [attributes[i]];
    EntriesAppend(attributes[..i], attributes[i]);
    ElementsConcat(LIST_INDENT, Entries(attributes[..i]), KeyValues(attributes[i].key, attributes[i].values));
  }

  lemma {:induction false} EntriesAppend(attributes: seq<Attribute>, last: Attribute)
    ensures Entries(attributes + [last]) == Entries(attributes) + KeyValues(last.key, last.values)
  {
    if |attributes| == 0 {
      assert attributes + [last] == [last];
    } else {
      assert (attributes + [last])[1..] == attributes[1..] + [last];
      EntriesAppend(attributes[1..], last);
    }
  }

  lemma KeyValuesStep(start: seq<Chunk>, key: string, values: seq<string>, j: nat)
    requires j < |values|
    ensures start + Elements(LIST_INDENT, KeyValues(key, values[..j + 1])) ==
            start + Elements(LIST_INDENT, KeyValues(key, values[..j]))
            + [Chunk(LIST_INDENT, "cas:" + EscapeXml(key)), Chunk(EscapeXml(values[j]), "/cas:" + EscapeXml(key))]
  {
    var entry := (EscapeXml(key), EscapeXml(values[j]));
    assert KeyValues(key, values[..j + 1]) == KeyValues(key, values[..j]) + [entry];
    ElementsConcat(LIST_INDENT, KeyValues(key, values[..j]), [entry]);
  }

  lemma NamedStep(open: seq<Chunk>, name: string, values: seq<string>, i: nat)
    requires i < |values|
    ensures open + Elements(LIST_INDENT, Named(name, EscapeAll(values[..i + 1]))) ==
            open + Elements(LIST_INDENT, Named(name, EscapeAll(values[..i])))
            + [Chunk(LIST_INDENT, "cas:" + name), Chunk(EscapeXml(values[i]), "/cas:" + name)]
  {
    var entry := (name, EscapeXml(values[i]));
    assert Named(name, EscapeAll(values[..i + 1])) == Named(name, EscapeAll(values[..i])) + [entry];
    ElementsConcat(LIST_INDENT, Named(name, EscapeAll(values[..i])), [entry]);
  }

  lemma AttributeNext(seen: seq<(string, string)>, s: string, m: KeyedMatch)
    requires FindAttribute(s) == Some(m)
    ensures seen + AllAttributes(s) == (seen + [(m.key, m.content)]) + AllAttributes(m.rest)
  {
  }

  /** One more match is pushed on the record. */
  lemma CollectNext(inherited: set<string>, seen: seq<(string, string)>, key: string, content: string)
    requires Collect(inherited, seen).Some?
    ensures var record := Collect(inherited, seen).value;
            Collect(inherited, seen + [(key, content)]) ==
            if key in inherited then None
            else Some(record[key := (if key in record then record[key] else []) + [UnescapeXml(Trim(content))]])
  {
    assert (seen + [(key, content)])[..|seen|] == seen;
  }

  /** The attribute loop of `parseServiceValidateResponse`; nothing when a `push` throws. */
  method ParseAttributes(inherited: set<string>, block: string) returns (result: Option<map<string, seq<string>>>)
    ensures result == Collect(inherited, AllAttributes(block))
  {
    var attributes: map<string, seq<string>> := map[];
    var attrsXml := block;
    ghost var seen: seq<(string, string)> := [];
    var attrMatch := FindAttribute(attrsXml);
    while attrMatch.Some?
      invariant attrMatch == FindAttribute(attrsXml)
      invariant AllAttributes(block) == seen + AllAttributes(attrsXml)
      invariant Collect(inherited, seen) == Some(attributes)
      decreases |attrsXml|
    {
      var key, content := attrMatch.value.key, attrMatch.value.content;
      AttributeNext(seen, attrsXml, attrMatch.value);
      CollectNext(inherited, seen, key, content);
      seen := seen + [(key, content)];
      if key in inherited {
        CollectThrows(inherited, seen, AllAttributes(attrMatch.value.rest));
        return None;
      }
      var value := UnescapeXml(Trim(content));
      attributes := attributes[key := (if key in attributes then attributes[key] else []) + [value]];
      attrsXml := attrMatch.value.rest;
      attrMatch := FindAttribute(attrsXml);
    }
    assert seen + [] == seen;
    return Some(attributes);
  }

  lemma ReadNext(seen: seq<string>, content: string, more: seq<string>)
    ensures seen + ReadAll([content] + more) == (seen + [UnescapeXml(Trim(content))]) + ReadAll(more)
  {
  }

  lemma ElementNext(s: string, name: string, m: Match)
    requires FindElement(s, name) == Some(m)
    ensures AllElements(s, name) == [m.content] + AllElements(m.rest, name)
  {
  }

  /** The proxy loop of `parseServiceValidateResponse`. */
  method ParseProxies(block: string) returns (proxies: seq<string>)
    ensures proxies == ReadAll(AllElements(block, "cas:proxy"))
  {
    proxies := [];
    var proxiesXml := block;
    var proxyMatch := FindElement(proxiesXml, "cas:proxy");
    while proxyMatch.Some?
      invariant proxyMatch == FindElement(proxiesXml, "cas:proxy")
      invariant ReadAll(AllElements(block, "cas:proxy")) == proxies + ReadAll(AllElements(proxiesXml, "cas:proxy"))
      decreases |proxiesXml|
    {
      ElementNext(proxiesXml, "cas:proxy", proxyMatch.value);
      ReadNext(proxies, proxyMatch.value.content, AllElements(proxyMatch.value.rest, "cas:proxy"));
      proxies := proxies + [UnescapeXml(Trim(proxyMatch.value.content))];
      proxiesXml := proxyMatch.value.rest;
      proxyMatch := FindElement(proxiesXml, "cas:proxy");
    }
  }

  /** `parseServiceValidateResponse` */
  method ParseServiceValidateResponse(xml: string) returns (result: ParseResult)
    ensures result == Parse(xml)
  {
    if xml == "" {
      return Failed("INVALID_RESPONSE", "Empty response");
    }
    if |xml| > MAX_XML_SIZE {
      return Failed("INVALID_RESPONSE", "Response too large");
    }
    var errorMatch := FindFailure(xml);
    if errorMatch.Some? {
      return Failed(errorMatch.value.0, UnescapeXml(Trim(errorMatch.value.1)));
    }
    var userMatch := FindElement(xml, "cas:user");
    if userMatch.None? {
      return Failed("INVALID_RESPONSE", "No user found in response");
    }
    var attributes: Option<map<string, seq<string>>> := Some(map[]);
    var attrsMatch := FindBlock(xml, "cas:attributes");
    if attrsMatch.Some? {
      attributes := ParseAttributes(INHERITED, attrsMatch.value);
    }
    if attributes.None? {
      return Thrown;
    }
    var pgtIouMatch := FindElement(xml, "cas:proxyGrantingTicket");
    var proxies: seq<string> := [];
    var proxiesMatch := FindBlock(xml, "cas:proxies");
    if proxiesMatch.Some? {
      proxies := ParseProxies(proxiesMatch.value);
    }
    return Success(UnescapeXml(Trim(userMatch.value.content)),
                   if attributes.value == map[] then None else Some(attributes.value),
                   if pgtIouMatch.Some? then Some(UnescapeXml(Trim(pgtIouMatch.value.content))) else None,
                   if |proxies| > 0 then Some(proxies) else None);
  }

  lemma {:induction false} CollectThrows(inherited: set<string>, matches: seq<(string, string)>,
                                         more: seq<(string, string)>)
    requires Collect(inherited, matches) == None
    ensures Collect(inherited, matches + more) == None
    decreases |more|
  {
    if |more| == 0 {
      assert matches + more == matches;
    } else {
      assert (matches + more)[..|matches + more| - 1] == matches + more[..|more| - 1];
      CollectThrows(inherited, matches, more[..|more| - 1]);
    }
  }
}
