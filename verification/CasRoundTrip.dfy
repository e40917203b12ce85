/**
 * What the parser reads in a printed serviceValidate success response, for every user, attribute record, proxy-granting
 * ticket IOU and list of proxies (packages/lib-cas/src/xml-builder.ts, packages/lib-cas/src/xml-parser.ts).
 */
module CasRoundTrip {
  import opened Wrappers
  import opened XmlEscape
  import opened CasPatterns
  import opened CasDocuments
  import opened CasResponse

  // ---------------------------------------------------------------- the parts of a response

  /** Nothing the error pattern could match. */
  predicate Quiet(cs: seq<Chunk>) {
    Tidy(cs) && forall i :: 0 <= i < |cs| ==> Harmless(cs[i].tag)
  }

  lemma QuietConcat(a: seq<Chunk>, b: seq<Chunk>)
    requires Quiet(a) && Quiet(b)
    ensures Quiet(a + b)
  {
  }

  predicate Bare(s: string) {
    Plain(s) && '"' !in s
  }

  lemma QuietChunk(text: string, tag: string)
    requires '<' !in text && Bare(tag)
    ensures Quiet([Chunk(text, tag)])
  {
  }

  lemma QuietPair(a: Chunk, b: Chunk)
    requires Quiet([a]) && Quiet([b])
    ensures Quiet([a, b])
  {
    QuietConcat([a], [b]);
    assert [a] + [b] == [a, b];
  }

  lemma AtFive(s: string, literal: string)
    requires StartsFold("<" + s, literal) && |literal| > 5 && |s| > 4
    ensures Lower(s[4]) == Lower(literal[5])
  {
    assert Lower(("<" + s)[..|literal|][5]) == Lower(literal[5]);
  }

  lemma PlainJoined(a: string, b: string, c: string, d: string)
    requires Plain(a) && Plain(b) && Plain(c) && Plain(d)
    ensures Plain(a + b + c + d)
  {
  }

  lemma PlainNamespace()
    ensures Plain(CAS_NS)
  {
  }

  lemma PlainXmlns()
    ensures Plain(XMLNS)
  {
    PlainNamespace();
    PlainJoined("cas:serviceResponse ", "xmlns:cas=\"", CAS_NS, "\"");
  }

  lemma XmlnsStart()
    ensures |XMLNS| > 4 && XMLNS[4] == 's'
  {
    StartOf("cas:serviceResponse ", "xmlns:cas=\"", CAS_NS, "\"");
  }

  lemma StartOf(a: string, b: string, c: string, d: string)
    requires |a| > 4
    ensures (a + b + c + d)[4] == a[4]
  {
  }

  lemma HarmlessXmlns()
    ensures Harmless(XMLNS)
  {
    XmlnsStart();
    if StartsFold("<" + XMLNS, FAILURE_OPEN) {
      AtFive(XMLNS, FAILURE_OPEN);
    }
  }

  lemma QuietXmlns()
    ensures Quiet([Chunk("", XMLNS)])
  {
    PlainXmlns();
    HarmlessXmlns();
  }

  lemma QuietSuccess()
    ensures Quiet([Chunk("\n  ", "cas:authenticationSuccess")])
  {
    QuietChunk("\n  ", "cas:authenticationSuccess");
  }

  lemma QuietUser(user: string)
    ensures Quiet([Chunk("\n    ", "cas:user")]) && Quiet([Chunk(EscapeXml(user), "/cas:user")])
  {
    EscapedIsPlain(user);
    QuietChunk("\n    ", "cas:user");
    QuietChunk(EscapeXml(user), "/cas:user");
  }

  lemma QuietHead(user: string)
    ensures Quiet(Head(user))
  {
    var xmlns, success := Chunk("", XMLNS), Chunk("\n  ", "cas:authenticationSuccess");
    var open, close := Chunk("\n    ", "cas:user"), Chunk(EscapeXml(user), "/cas:user");
    QuietXmlns();
    QuietSuccess();
    QuietUser(user);
    QuietPair(xmlns, success);
    QuietPair(open, close);
    QuietConcat([xmlns, success], [open, close]);
    HeadSplits(user);
  }

  lemma HeadSplits(user: string)
    ensures Head(user) == [Chunk("", XMLNS), Chunk("\n  ", "cas:authenticationSuccess")]
                          + [Chunk("\n    ", "cas:user"), Chunk(EscapeXml(user), "/cas:user")]
  {
  }

  /** Tags of other lengths are other tags. */
  lemma HeadNoTag(user: string, name: string)
    requires |name| !in {|XMLNS|, 25, 8, 9}
    ensures NoTag(Head(user), name)
  {
  }

  predicate BareEntries(entries: seq<(string, string)>) {
    forall i :: 0 <= i < |entries| ==> Bare(entries[i].0) && '<' !in entries[i].1
  }

  lemma {:induction false} QuietElements(indent: string, entries: seq<(string, string)>)
    requires '<' !in indent && BareEntries(entries)
    ensures Quiet(Elements(indent, entries))
  {
    if |entries| > 0 {
      QuietElements(indent, entries[1..]);
      QuietChunk(indent, "cas:" + entries[0].0);
      QuietChunk(entries[0].1, "/cas:" + entries[0].0);
      var open, close := Chunk(indent, "cas:" + entries[0].0), Chunk(entries[0].1, "/cas:" + entries[0].0);
      QuietPair(open, close);
      QuietConcat([open, close], Elements(indent, entries[1..]));
    }
  }

  lemma QuietBlock(open: string, close: string, entries: seq<(string, string)>)
    requires BareEntries(entries) && Bare(open) && Bare(close)
    ensures Quiet(Block(open, close, entries))
  {
    QuietElements(LIST_INDENT, entries);
    QuietChunk("\n    ", open);
    QuietChunk("\n    ", close);
    QuietConcat([Chunk("\n    ", open)], Elements(LIST_INDENT, entries));
    QuietConcat([Chunk("\n    ", open)] + Elements(LIST_INDENT, entries), [Chunk("\n    ", close)]);
  }

  lemma {:induction false} BareAttributes(attributes: seq<Attribute>)
    ensures BareEntries(Entries(attributes))
  {
    if |attributes| > 0 {
      BareAttributes(attributes[1..]);
      BareValues(attributes[0].key, attributes[0].values);
    }
  }

  lemma BareValues(key: string, values: seq<string>)
    ensures BareEntries(KeyValues(key, values))
  {
    EscapedIsPlain(key);
    forall i | 0 <= i < |values|
      ensures Bare(EscapeXml(values[i]))
    {
      EscapedIsPlain(values[i]);
    }
  }

  lemma BareProxies(proxies: seq<string>)
    ensures BareEntries(Named("proxy", EscapeAll(proxies)))
  {
    forall i | 0 <= i < |proxies|
      ensures Bare(EscapeXml(proxies[i]))
    {
      EscapedIsPlain(proxies[i]);
    }
  }

  lemma QuietAttributes(attributes: seq<Attribute>)
    ensures Quiet(AttributesPart(attributes))
  {
    BareAttributes(attributes);
    QuietBlock("cas:attributes", "/cas:attributes", Entries(attributes));
  }

  lemma QuietPgt(pgtIou: Option<string>)
    ensures Quiet(PgtPart(pgtIou))
  {
    if pgtIou.Some? {
      EscapedIsPlain(pgtIou.value);
      QuietTicketOpen();
      QuietTicketClose(EscapeXml(pgtIou.value));
      QuietPair(Chunk("\n    ", "cas:proxyGrantingTicket"), Chunk(EscapeXml(pgtIou.value), "/cas:proxyGrantingTicket"));
    }
  }

  lemma QuietTicketOpen()
    ensures Quiet([Chunk("\n    ", "cas:proxyGrantingTicket")])
  {
    QuietChunk("\n    ", "cas:proxyGrantingTicket");
  }

  lemma QuietTicketClose(content: string)
    requires '<' !in content
    ensures Quiet([Chunk(content, "/cas:proxyGrantingTicket")])
  {
    QuietChunk(content, "/cas:proxyGrantingTicket");
  }

  lemma QuietProxies(proxies: seq<string>)
    ensures Quiet(ProxiesPart(proxies))
  {
    BareProxies(proxies);
    QuietBlock("cas:proxies", "/cas:proxies", Named("proxy", EscapeAll(proxies)));
  }

  lemma QuietSuccessEnd()
    ensures Quiet([Chunk("\n  ", "/cas:authenticationSuccess")])
  {
    QuietChunk("\n  ", "/cas:authenticationSuccess");
  }

  lemma QuietResponseEnd()
    ensures Quiet([Chunk("\n", "/cas:serviceResponse")])
  {
    QuietChunk("\n", "/cas:serviceResponse");
  }

  lemma QuietTail()
    ensures Quiet(TAIL)
  {
    QuietSuccessEnd();
    QuietResponseEnd();
    QuietPair(Chunk("\n  ", "/cas:authenticationSuccess"), Chunk("\n", "/cas:serviceResponse"));
  }

  /** The response from the proxy-granting ticket on. */
  function FromPgt(pgtIou: Option<string>, proxies: seq<string>): seq<Chunk> {
    PgtPart(pgtIou) + (ProxiesPart(proxies) + TAIL)
  }

  lemma QuietFromPgt(pgtIou: Option<string>, proxies: seq<string>)
    ensures Quiet(ProxiesPart(proxies) + TAIL) && Quiet(FromPgt(pgtIou, proxies))
  {
    QuietTail();
    QuietProxies(proxies);
    QuietPgt(pgtIou);
    QuietConcat(ProxiesPart(proxies), TAIL);
    QuietConcat(PgtPart(pgtIou), ProxiesPart(proxies) + TAIL);
  }

  lemma QuietResponse(user: string, attributes: seq<Attribute>, pgtIou: Option<string>, proxies: seq<string>)
    ensures Quiet(AttributesPart(attributes) + FromPgt(pgtIou, proxies))
    ensures Quiet(Response(user, attributes, pgtIou, proxies))
  {
    QuietHead(user);
    QuietAttributes(attributes);
    QuietFromPgt(pgtIou, proxies);
    QuietConcat(AttributesPart(attributes), FromPgt(pgtIou, proxies));
    QuietConcat(Head(user), AttributesPart(attributes) + FromPgt(pgtIou, proxies));
  }

  /** A block and what follows it. */
  lemma BlockListed(open: string, close: string, entries: seq<(string, string)>, rest: seq<Chunk>)
    ensures Block(open, close, entries) + rest ==
            Listed(Chunk("\n    ", open), LIST_INDENT, entries, Chunk("\n    ", close), rest)
  {
    ListedGroups([Chunk("\n    ", open)], Elements(LIST_INDENT, entries), [Chunk("\n    ", close)], rest);
  }

  lemma ListedGroups(a: seq<Chunk>, b: seq<Chunk>, c: seq<Chunk>, d: seq<Chunk>)
    ensures a + b + c + d == a + (b + (c + d))
  {
  }

  // ---------------------------------------------------------------- tags behind the attributes

  /** The prefix of every opening tag. */
  lemma Opening(name: string)
    ensures name == "attributes" ==> "cas:" + name == "cas:attributes" && "/cas:" + name == "/cas:attributes"
    ensures name == "proxies" ==> "cas:" + name == "cas:proxies" && "/cas:" + name == "/cas:proxies"
    ensures name == "proxyGrantingTicket" ==> "cas:" + name == "cas:proxyGrantingTicket"
    ensures name == "proxy" ==> "cas:" + name == "cas:proxy"
  {
  }

  lemma TailNoTag(name: string)
    requires |name| > 0 && name[0] == 'c'
    ensures NoTag(TAIL, name)
  {
  }

  lemma ProxiesNoTag(proxies: seq<string>, name: string)
    requires |name| != 7 && |name| != 8 && |name| != 5
    ensures NoTag(ProxiesPart(proxies), "cas:" + name)
  {
    var entries := Named("proxy", EscapeAll(proxies));
    assert FirstKey(entries, name) == None;
    NoTagInElements(LIST_INDENT, entries, name);
    NoTagConcat([Chunk("\n    ", "cas:proxies")], Elements(LIST_INDENT, entries), "cas:" + name);
    NoTagConcat([Chunk("\n    ", "cas:proxies")] + Elements(LIST_INDENT, entries), [Chunk("\n    ", "/cas:proxies")],
                "cas:" + name);
  }

  lemma PgtNoTag(pgtIou: Option<string>, name: string)
    requires |name| != 23 && |name| > 0 && name[0] == 'c'
    ensures NoTag(PgtPart(pgtIou), name)
  {
  }

  lemma FromPgtNoTag(pgtIou: Option<string>, proxies: seq<string>, name: string)
    requires |name| !in {19, 7, 8, 5}
    ensures NoTag(FromPgt(pgtIou, proxies), "cas:" + name)
  {
    TailNoTag("cas:" + name);
    ProxiesNoTag(proxies, name);
    NoTagConcat(ProxiesPart(proxies), TAIL, "cas:" + name);
    PgtNoTag(pgtIou, "cas:" + name);
    NoTagConcat(PgtPart(pgtIou), ProxiesPart(proxies) + TAIL, "cas:" + name);
  }

  // ---------------------------------------------------------------- what each search finds

  lemma UserFound(user: string, rest: seq<Chunk>)
    requires Tidy(Head(user) + rest)
    ensures var found := FindElement(Render(Head(user) + rest), "cas:user");
            found.Some? && found.value.content == EscapeXml(user)
  {
    HeadSplits(user);
    ClosingUser();
    ThirdElement(Chunk("", XMLNS), Chunk("\n  ", "cas:authenticationSuccess"), Chunk("\n    ", "cas:user"),
                 Chunk(EscapeXml(user), "/cas:user"), rest, "cas:user");
  }

  lemma ClosingUser()
    ensures "/" + "cas:user" == "/cas:user" && Plain("cas:user")
  {
  }

  lemma ThirdElement(a: Chunk, b: Chunk, open: Chunk, close: Chunk, rest: seq<Chunk>, name: string)
    requires Tidy([a, b] + [open, close] + rest) && Plain(name) && open.tag == name && close.tag == "/" + name
    requires |a.tag| != |name| && |b.tag| != |name|
    ensures var found := FindElement(Render([a, b] + [open, close] + rest), name);
            found.Some? && found.value.content == close.text
  {
    AssocChunks([a, b], [open, close], rest);
    ElementBeyond([a, b], [open, close] + rest, name);
    TidyParts([a, b], [open, close] + rest);
    ElementOpens(open, close, rest, name);
  }

  lemma AssocChunks(a: seq<Chunk>, b: seq<Chunk>, c: seq<Chunk>)
    ensures a + b + c == a + (b + c)
  {
  }

  /** An element that comes first. */
  lemma ElementOpens(open: Chunk, close: Chunk, rest: seq<Chunk>, name: string)
    requires Tidy([open, close] + rest) && Plain(name) && open.tag == name && close.tag == "/" + name
    ensures var found := FindElement(Render([open, close] + rest), name);
            found.Some? && found.value.content == close.text
  {
    ElementFound([open, close] + rest, "", name);
    NoTail([open, close] + rest);
  }

  /** Nothing but the user is found in the head. */
  lemma BehindHead(user: string, attributes: seq<Attribute>, pgtIou: Option<string>, proxies: seq<string>, name: string)
    requires Plain(name) && |name| !in {|XMLNS|, 25, 8, 9}
    ensures FindElement(Render(Response(user, attributes, pgtIou, proxies)), name) ==
            FindElement(Render(AttributesPart(attributes) + FromPgt(pgtIou, proxies)), name)
    ensures FindBlock(Render(Response(user, attributes, pgtIou, proxies)), name) ==
            FindBlock(Render(AttributesPart(attributes) + FromPgt(pgtIou, proxies)), name)
  {
    QuietResponse(user, attributes, pgtIou, proxies);
    HeadNoTag(user, name);
    ElementBeyond(Head(user), AttributesPart(attributes) + FromPgt(pgtIou, proxies), name);
    BlockBeyond(Head(user), AttributesPart(attributes) + FromPgt(pgtIou, proxies), name);
  }

  lemma PlainNames()
    ensures Plain("cas:attributes") && Plain("cas:proxyGrantingTicket") && Plain("cas:proxies")
  {
  }

  lemma AttributesFound(user: string, attributes: seq<Attribute>, pgtIou: Option<string>, proxies: seq<string>)
    ensures var block := FindBlock(Render(Response(user, attributes, pgtIou, proxies)), "cas:attributes");
            if |attributes| == 0 then block == None
            else block.Some? && AllAttributes(block.value) == Keyed(EntriesBefore(Entries(attributes), "attributes"))
  {
    PlainNames();
    BehindHead(user, attributes, pgtIou, proxies, "cas:attributes");
    if |attributes| == 0 {
      NoAttributes(pgtIou, proxies);
    } else {
      QuietResponse(user, attributes, pgtIou, proxies);
      AttributesBlock(attributes, FromPgt(pgtIou, proxies));
    }
  }

  lemma NoAttributes(pgtIou: Option<string>, proxies: seq<string>)
    ensures FindBlock(Render(AttributesPart([]) + FromPgt(pgtIou, proxies)), "cas:attributes") == None
  {
    QuietFromPgt(pgtIou, proxies);
    FromPgtNoTag(pgtIou, proxies, "attributes");
    Opening("attributes");
    NoElementWithoutTag(FromPgt(pgtIou, proxies), "cas:attributes");
    assert AttributesPart([]) + FromPgt(pgtIou, proxies) == FromPgt(pgtIou, proxies);
  }

  lemma AttributesBlock(attributes: seq<Attribute>, rest: seq<Chunk>)
    requires |attributes| > 0 && Tidy(AttributesPart(attributes) + rest)
    ensures var block := FindBlock(Render(AttributesPart(attributes) + rest), "cas:attributes");
            block.Some? && AllAttributes(block.value) == Keyed(EntriesBefore(Entries(attributes), "attributes"))
  {
    BareAttributes(attributes);
    Opening("attributes");
    BlockListed("cas:attributes", "/cas:attributes", Entries(attributes), rest);
    BlockOfEntries(LIST_INDENT, Entries(attributes), Chunk("\n    ", "cas:attributes"),
                   Chunk("\n    ", "/cas:attributes"),
                   rest, "attributes");
  }

  /** The content the search for a proxy-granting ticket finds: an attribute of that name comes first. */
  function PgtContent(attributes: seq<Attribute>, pgtIou: Option<string>): Option<string> {
    var entries := Entries(attributes);
    match FirstKey(entries, "proxyGrantingTicket")
    case Some(k) => Some(entries[k].1)
    case None => if pgtIou.None? || pgtIou.value == "" then None else Some(EscapeXml(pgtIou.value))
  }

  lemma PgtBehindAttributes(pgtIou: Option<string>, proxies: seq<string>)
    ensures Content(FindElement(Render(FromPgt(pgtIou, proxies)), "cas:proxyGrantingTicket")) == PgtContent([], pgtIou)
  {
    if pgtIou.None? || pgtIou.value == "" {
      NoTicket(proxies);
      assert FromPgt(pgtIou, proxies) == ProxiesPart(proxies) + TAIL;
    } else {
      QuietFromPgt(pgtIou, proxies);
      ClosingTicket();
      PlainNames();
      ElementOpens(Chunk("\n    ", "cas:proxyGrantingTicket"),
                   Chunk(EscapeXml(pgtIou.value), "/cas:proxyGrantingTicket"),
                   ProxiesPart(proxies) + TAIL, "cas:proxyGrantingTicket");
    }
  }

  lemma ClosingTicket()
    ensures "/" + "cas:proxyGrantingTicket" == "/cas:proxyGrantingTicket"
  {
  }

  lemma NoTicket(proxies: seq<string>)
    ensures FindElement(Render(ProxiesPart(proxies) + TAIL), "cas:proxyGrantingTicket") == None
  {
    QuietFromPgt(None, proxies);
    PlainNames();
    TailNoTag("cas:proxyGrantingTicket");
    ProxiesNoTag(proxies, "proxyGrantingTicket");
    Opening("proxyGrantingTicket");
    NoTagConcat(ProxiesPart(proxies), TAIL, "cas:proxyGrantingTicket");
    NoElementWithoutTag(ProxiesPart(proxies) + TAIL, "cas:proxyGrantingTicket");
  }

  lemma PgtFound(user: string, attributes: seq<Attribute>, pgtIou: Option<string>, proxies: seq<string>)
    ensures Content(FindElement(Render(Response(user, attributes, pgtIou, proxies)), "cas:proxyGrantingTicket")) ==
            PgtContent(attributes, pgtIou)
  {
    PlainNames();
    BehindHead(user, attributes, pgtIou, proxies, "cas:proxyGrantingTicket");
    PgtBehindAttributes(pgtIou, proxies);
    QuietResponse(user, attributes, pgtIou, proxies);
    AttributesAcross(attributes, FromPgt(pgtIou, proxies), "proxyGrantingTicket");
    Opening("proxyGrantingTicket");
  }

  /** Searching across the attributes for another name. */
  lemma AttributesAcross(attributes: seq<Attribute>, rest: seq<Chunk>, name: string)
    requires Tidy(AttributesPart(attributes) + rest) && Plain(name) && |name| !in {10, 11}
    ensures Content(FindElement(Render(AttributesPart(attributes) + rest), "cas:" + name)) ==
            match FirstKey(Entries(attributes), name)
            case None => Content(FindElement(Render(rest), "cas:" + name))
            case Some(k) => Some(Entries(attributes)[k].1)
    ensures FindBlock(Render(AttributesPart(attributes) + rest), "cas:" + name) ==
            match FirstKey(Entries(attributes), name)
            case None => FindBlock(Render(rest), "cas:" + name)
            case Some(k) => Some(Entries(attributes)[k].1)
  {
    if |attributes| == 0 {
      assert AttributesPart(attributes) + rest == rest;
    } else {
      BlockListed("cas:attributes", "/cas:attributes", Entries(attributes), rest);
      ElementAcross(Chunk("\n    ", "cas:attributes"), LIST_INDENT, Entries(attributes),
                    Chunk("\n    ", "/cas:attributes"), rest, name);
      BlockAcross(Chunk("\n    ", "cas:attributes"), LIST_INDENT, Entries(attributes),
                  Chunk("\n    ", "/cas:attributes"), rest, name);
    }
  }

  /** The contents the search for proxies finds: none when an attribute has the name of their list. */
  function ProxyContents(attributes: seq<Attribute>, proxies: seq<string>): seq<string> {
    if FirstKey(Entries(attributes), "proxies").Some? then [] else EscapeAll(proxies)
  }

  lemma ProxiesBehindPgt(pgtIou: Option<string>, proxies: seq<string>)
    ensures BlockProxies(FindBlock(Render(FromPgt(pgtIou, proxies)), "cas:proxies")) == EscapeAll(proxies)
  {
    QuietFromPgt(pgtIou, proxies);
    PgtNoTag(pgtIou, "cas:proxies");
    BlockBeyond(PgtPart(pgtIou), ProxiesPart(proxies) + TAIL, "cas:proxies");
    if |proxies| == 0 {
      QuietTail();
      TailNoTag("cas:proxies");
      NoElementWithoutTag(TAIL, "cas:proxies");
      assert ProxiesPart(proxies) + TAIL == TAIL;
    } else {
      ProxiesBlock(proxies);
    }
  }

  lemma ProxiesBlock(proxies: seq<string>)
    requires |proxies| > 0
    ensures BlockProxies(FindBlock(Render(ProxiesPart(proxies) + TAIL), "cas:proxies")) == EscapeAll(proxies)
  {
    QuietFromPgt(None, proxies);
    BareProxies(proxies);
    Opening("proxies");
    Opening("proxy");
    BlockListed("cas:proxies", "/cas:proxies", Named("proxy", EscapeAll(proxies)), TAIL);
    BlockOfContents(LIST_INDENT, "proxy", EscapeAll(proxies), Chunk("\n    ", "cas:proxies"),
                    Chunk("\n    ", "/cas:proxies"),
                    TAIL, "proxies");
  }

  lemma NoProxyInText(text: string)
    requires '<' !in text
    ensures AllElements(text, "cas:proxy") == []
  {
    SkipToElement(text, "", "cas:proxy");
    assert text + "" == text;
  }

  lemma ProxiesFound(user: string, attributes: seq<Attribute>, pgtIou: Option<string>, proxies: seq<string>)
    ensures BlockProxies(FindBlock(Render(Response(user, attributes, pgtIou, proxies)), "cas:proxies")) ==
            ProxyContents(attributes, proxies)
  {
    PlainNames();
    BehindHead(user, attributes, pgtIou, proxies, "cas:proxies");
    ProxiesBehindPgt(pgtIou, proxies);
    QuietResponse(user, attributes, pgtIou, proxies);
    AttributesAcross(attributes, FromPgt(pgtIou, proxies), "proxies");
    Opening("proxies");
    BareAttributes(attributes);
    var clash := FirstKey(Entries(attributes), "proxies");
    if clash.Some? {
      NoProxyInText(Entries(attributes)[clash.value].1);
    }
  }

  // ---------------------------------------------------------------- what is read

  function RecordRead(attributes: seq<Attribute>): Option<map<string, seq<string>>> {
    Collect(INHERITED, Keyed(EntriesBefore(Entries(attributes), "attributes")))
  }

  /** The result of parsing a printed response that is not too large. */
  function ReadResponse(user: string, attributes: seq<Attribute>, pgtIou: Option<string>, proxies: seq<string>)
    : ParseResult
  {
    Assemble(Trim(user), RecordRead(attributes), PgtContent(attributes, pgtIou), ProxyContents(attributes, proxies))
  }

  lemma SuccessFound(user: string, attributes: seq<Attribute>, pgtIou: Option<string>, proxies: seq<string>)
    ensures var xml := Render(Response(user, attributes, pgtIou, proxies));
            && xml != "" && FindFailure(xml) == None
            && Content(FindElement(xml, "cas:user")) == Some(EscapeXml(user))
  {
    QuietResponse(user, attributes, pgtIou, proxies);
    NoFailureInDoc(Response(user, attributes, pgtIou, proxies));
    UserFound(user, AttributesPart(attributes) + FromPgt(pgtIou, proxies));
  }

  lemma RecordFound(user: string, attributes: seq<Attribute>, pgtIou: Option<string>, proxies: seq<string>)
    ensures BlockRecord(FindBlock(Render(Response(user, attributes, pgtIou, proxies)), "cas:attributes")) ==
            RecordRead(attributes)
  {
    AttributesFound(user, attributes, pgtIou, proxies);
  }

  /** The parser in terms of what its searches find. */
  lemma ParseOf(xml: string, user: string, record: Option<map<string, seq<string>>>, ticket: Option<string>,
                contents: seq<string>)
    requires xml != "" && |xml| <= MAX_XML_SIZE && FindFailure(xml) == None
    requires Content(FindElement(xml, "cas:user")) == Some(user)
    requires BlockRecord(FindBlock(xml, "cas:attributes")) == record
    requires Content(FindElement(xml, "cas:proxyGrantingTicket")) == ticket
    requires BlockProxies(FindBlock(xml, "cas:proxies")) == contents
    ensures Parse(xml) == Assemble(Read(user), record, ticket, contents)
  {
  }

  /** For every response printed, the result of parsing it. */
  lemma ParsedExactly(user: string, attributes: seq<Attribute>, pgtIou: Option<string>, proxies: seq<string>)
    ensures var xml := Render(Response(user, attributes, pgtIou, proxies));
            Parse(xml) == if |xml| > MAX_XML_SIZE then Failed("INVALID_RESPONSE", "Response too large")
                          else ReadResponse(user, attributes, pgtIou, proxies)
  {
    SuccessFound(user, attributes, pgtIou, proxies);
    var xml := Render(Response(user, attributes, pgtIou, proxies));
    if |xml| <= MAX_XML_SIZE {
      RecordFound(user, attributes, pgtIou, proxies);
      PgtFound(user, attributes, pgtIou, proxies);
      ProxiesFound(user, attributes, pgtIou, proxies);
      ReadBack(user);
      ParseOf(xml, EscapeXml(user), RecordRead(attributes), PgtContent(attributes, pgtIou),
              ProxyContents(attributes, proxies));
    }
  }
}
