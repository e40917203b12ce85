/**
 * The serviceValidate error response, printed and parsed (packages/lib-cas/src/xml-builder.ts,
 * packages/lib-cas/src/xml-parser.ts), and the texts, letters and names that printing and parsing rest on.
 */
module CasErrors {
  import opened Wrappers
  import opened Text
  import opened XmlEscape
  import opened CasPatterns
  import opened CasDocuments
  import opened CasResponse
  import opened CasRoundTrip
  import opened CasFaithful

  /** What follows the name of the opening tag, up to the end of the response. */
  function FromCode(code: string, message: string, rest: string): string {
    (" " + "code=\"") + code + (("\"" + ">") + message + ("<" + rest))
  }

  const ERROR_END := "/cas:authenticationFailure" + ">\n</cas:serviceResponse>"

  /** `buildServiceValidateError` */
  function BuildServiceValidateError(code: string, message: string): string {
    Tag(XMLNS) + ("\n  " + ("<cas:authenticationFailure" + FromCode(EscapeXml(code), EscapeXml(message), ERROR_END)))
  }

  // ---------------------------------------------------------------- the search for the code

  /** The quotation marks are at the given places. */
  predicate Quotes(s: string, places: set<int>) {
    forall i :: 0 <= i < |s| ==> (s[i] == '"' <==> i in places)
  }

  lemma {:induction false} SpanAbsent(s: string, stop: char)
    requires stop !in s
    ensures Span(s, stop) == |s|
  {
    if |s| > 0 {
      SpanAbsent(s[1..], stop);
    }
  }

  lemma QuotesOf(code: string, message: string, rest: string)
    requires '"' !in code && '"' !in message && '"' !in rest
    ensures Quotes(FromCode(code, message, rest), {6, 7 + |code|})
  {
    var s, more := FromCode(code, message, rest), "\"" + ">" + message + ("<" + rest);
    forall i | 0 <= i < |s|
      ensures s[i] == '"' <==> i in {6, 7 + |code|}
    {
      if i < 7 {
        assert s[i] == (" " + "code=\"")[i];
      } else if i < 7 + |code| {
        assert s[i] == code[i - 7];
      } else {
        assert s[i] == more[i - 7 - |code|];
        QuotesAfter(message, rest, i - 7 - |code|);
      }
    }
  }

  lemma QuotesAfter(message: string, rest: string, i: nat)
    requires '"' !in message && '"' !in rest && i < |"\"" + ">" + message + ("<" + rest)|
    ensures ("\"" + ">" + message + ("<" + rest))[i] == '"' <==> i == 0
  {
  }

  /** A `code` that starts later ends in the last quotation mark, and has no value. */
  lemma NoLaterCode(s: string, j: nat, q: int)
    requires 1 < j <= |s| && Quotes(s, {6, q})
    ensures CodeHere(s[j..]) == None
  {
    if StartsFold(s[j..], "code=\"") {
      assert Lower(s[j..][..6][5]) == Lower("code=\""[5]);
      assert s[j + 5] == '"';
      SpanAbsent(s[j..][6..], '"');
    }
  }

  lemma CodeStarts(value: string)
    ensures var s := "code=\"" + value; StartsFold(s, "code=\"") && s[6..] == value
  {
    assert ("code=\"" + value)[..6] == "code=\"";
  }

  /** The value ends at the quotation mark, the tag right after it, the message at the next tag. */
  lemma CodeRead(code: string, message: string, rest: string)
    requires '"' !in code && '<' !in message
    ensures CodeHere("code=\"" + (code + ("\"" + (">" + (message + ("<" + rest)))))) == Some((code, message))
  {
    var after := message + ("<" + rest);
    var tagEnd := ">" + after;
    var value := code + ("\"" + tagEnd);
    CodeStarts(value);
    SpanText(code, "\"" + tagEnd, '"');
    CodeEnds(code, "\"", tagEnd);
    CodeEnds("", ">", after);
    assert Span(tagEnd, '>') == 0;
    SpanText(message, "<" + rest, '<');
    assert after[..|message|] == message;
  }

  lemma CodeEnds(a: string, b: string, c: string)
    requires |b| == 1
    ensures (a + (b + c))[..|a|] == a && (a + (b + c))[|a| + 1..] == c && "" + (b + c) == b + c
  {
  }

  lemma CodeOf(code: string, message: string, rest: string)
    requires '"' !in code && '<' !in message
    ensures CodeHere(FromCode(code, message, rest)[1..]) == Some((code, message))
  {
    CodeRead(code, message, rest);
    Parted(" ", "code=\"", code, "\"", ">", message, "<" + rest);
  }

  lemma Parted(a: string, b: string, c: string, d: string, e: string, f: string, g: string)
    requires |a| == 1
    ensures ((a + b) + c + ((d + e) + f + g))[1..] == b + (c + (d + (e + (f + g))))
    ensures (a + b) + c + ((d + e) + f + g) == ((a + b) + c + d) + (e + (f + g))
  {
  }

  lemma {:induction false} CodeFound(s: string, j: nat, q: int, found: (string, string))
    requires 1 <= j <= |s| && Quotes(s, {6, q}) && CodeHere(s[1..]) == Some(found)
    ensures CodeAfter(s, j) == Some(found)
  {
    if j > 1 {
      NoLaterCode(s, j, q);
      CodeFound(s, j - 1, q, found);
    }
  }

  lemma TagEnds(code: string, message: string, rest: string)
    requires '>' !in code
    ensures |code| + 8 <= |FromCode(code, message, rest)| && Span(FromCode(code, message, rest), '>') == |code| + 8
  {
    Parted(" ", "code=\"", code, "\"", ">", message, "<" + rest);
    SpanText(" " + "code=\"" + code + "\"", ">" + (message + ("<" + rest)), '>');
  }

  lemma CodeSearched(code: string, message: string, rest: string)
    requires Plain(code) && '"' !in code && '<' !in message && '"' !in message && '"' !in rest
    ensures var s := FromCode(code, message, rest); CodeAfter(s, Span(s, '>')) == Some((code, message))
  {
    QuotesOf(code, message, rest);
    CodeOf(code, message, rest);
    TagEnds(code, message, rest);
    CodeFound(FromCode(code, message, rest), |code| + 8, 7 + |code|, (code, message));
  }

  lemma FailureHere(s: string, found: (string, string))
    requires CodeAfter(s, Span(s, '>')) == Some(found)
    ensures FindFailure(FAILURE_OPEN + s) == Some(found)
  {
    assert (FAILURE_OPEN + s)[..|FAILURE_OPEN|] == FAILURE_OPEN && (FAILURE_OPEN + s)[|FAILURE_OPEN|..] == s;
  }

  lemma NoQuotesAtEnd()
    ensures '"' !in ERROR_END
  {
    assert '"' !in "/cas:authenticationFailure" && '"' !in ">\n</cas:serviceResponse>";
  }

  lemma FailureFound(code: string, message: string)
    ensures FindFailure(BuildServiceValidateError(code, message)) == Some((EscapeXml(code), EscapeXml(message)))
  {
    var c, m := EscapeXml(code), EscapeXml(message);
    EscapedIsPlain(code);
    EscapedIsPlain(message);
    NoQuotesAtEnd();
    var here := FAILURE_OPEN + FromCode(c, m, ERROR_END);
    CodeSearched(c, m, ERROR_END);
    FailureHere(FromCode(c, m, ERROR_END), (c, m));
    SkipToFailure("\n  ", here);
    PlainXmlns();
    HarmlessXmlns();
    FailureNotAtTag(XMLNS, "\n  " + here);
    SkipToFailure(XMLNS + ">", "\n  " + here);
  }

  /**
   * An error response that is not too large is read as a failure with its code as it was escaped and its message
   * trimmed.
   */
  lemma ErrorParsed(code: string, message: string)
    ensures var xml := BuildServiceValidateError(code, message);
            Parse(xml) == if |xml| > 1048576 then Failed("INVALID_RESPONSE", "Response too large")
                          else Failed(EscapeXml(code), Trim(message))
  {
    FailureFound(code, message);
    ReadBack(message);
  }

  /** It comes back exactly when its code needs no escaping and its message has no white space at its ends. */
  lemma ErrorRoundTrip(code: string, message: string)
    requires |BuildServiceValidateError(code, message)| <= 1048576
    ensures Parse(BuildServiceValidateError(code, message)) == Failed(code, message) <==>
            && '&' !in code && '<' !in code && '>' !in code && '"' !in code && '\'' !in code
            && (message != "" ==> !IsSpace(message[0]) && !IsSpace(message[|message| - 1]))
  {
    ErrorParsed(code, message);
    EscapedFree(code);
    TrimKeeps(message);
  }

  // ---------------------------------------------------------------- the texts

  lemma HeaderText()
    ensures Tag(XMLNS) == "<cas:serviceResponse " + "xmlns:cas=\"" + "http://www.yale.edu/tp/cas" + "\">"
  {
    Around("cas:serviceResponse ", "xmlns:cas=\"", "http://www.yale.edu/tp/cas", "\"");
  }

  lemma Around(a: string, b: string, c: string, d: string)
    ensures "<" + (a + (b + c + d)) + ">" == ("<" + a) + b + c + (d + ">")
    ensures "<" + (a + b + c + d) + ">" == ("<" + a) + b + c + (d + ">")
  {
  }

  /** The error response, literally. */
  lemma ErrorText(code: string, message: string)
    ensures BuildServiceValidateError(code, message) ==
            "<cas:serviceResponse " + "xmlns:cas=\"" + "http://www.yale.edu/tp/cas" + "\">"
            + ("\n  " + "<cas:authenticationFailure") + " code=\"" + EscapeXml(code) + "\">" + EscapeXml(message)
            + ("<" + "/cas:authenticationFailure") + ">\n</cas:serviceResponse>"
  {
    HeaderText();
    ShortPieces();
    Flat(Tag(XMLNS), "\n  ", "<cas:authenticationFailure", " code=\"", EscapeXml(code), "\">", EscapeXml(message), "<",
         "/cas:authenticationFailure", ">\n</cas:serviceResponse>");
  }

  lemma ShortPieces()
    ensures " " + "code=\"" == " code=\"" && "\"" + ">" == "\">"
  {
  }

  lemma Flat(a: string, b: string, c: string, d: string, e: string, f: string, g: string, h: string, i: string,
             j: string)
    ensures a + (b + (c + (d + e + (f + g + (h + (i + j)))))) == a + (b + c) + d + e + f + g + (h + i) + j
  {
  }

  /** Escaping goes character by character. */
  lemma EscapedConcat(a: string, b: string)
    ensures EscapeXml("") == "" && EscapeXml(a + b) == EscapeXml(a) + EscapeXml(b)
  {
    EscapeIsSimultaneous("");
    EscapeIsSimultaneous(a);
    EscapeIsSimultaneous(b);
    EscapeIsSimultaneous(a + b);
    MapConcat(Entity, a, b);
  }

  /** Five characters are replaced. */
  lemma EscapedText(c: char)
    ensures EscapeXml([c]) ==
            match c
            case '&' => "&amp;"
            case '<' => "&lt;"
            case '>' => "&gt;"
            case '"' => "&quot;"
            case '\'' => "&apos;"
            case _ => [c]
  {
    EscapedChar(c);
  }

  lemma EscapedChar(c: char)
    ensures EscapeXml([c]) == Entity(c)
  {
    EscapeIsSimultaneous([c]);
    assert [c][1..] == "";
  }

  /** A success response with every part, literally. */
  lemma SuccessText(user: string, key: string, value: string, pgtIou: string, proxy: string)
    requires pgtIou != ""
    ensures Render(Response(user, [Attribute(key, [value])], Some(pgtIou), [proxy])) ==
            "<cas:serviceResponse " + "xmlns:cas=\"" + "http://www.yale.edu/tp/cas" + "\">"
            + "\n  " + ("<cas:" + "authenticationSuccess>") + "\n    " + "<cas:user>" + EscapeXml(user) + "</cas:user>"
            + ("\n    " + "<cas:attributes>"
               + ("\n      " + ("<cas:" + EscapeXml(key) + ">") + EscapeXml(value) + ("</cas:" + EscapeXml(key) + ">"))
               + "\n    " + "</cas:attributes>")
            + ("\n    " + ("<cas:" + "proxyGrantingTicket>") + EscapeXml(pgtIou)
               + ("</cas:" + "proxyGrantingTicket>"))
            + ("\n    " + "<cas:proxies>"
               + ("\n      " + "<cas:proxy>" + EscapeXml(proxy) + "</cas:proxy>") + "\n    " + "</cas:proxies>")
            + ("\n  " + ("</cas:" + "authenticationSuccess>") + "\n" + ("</cas:" + "serviceResponse>"))
  {
    PartsInOrder(user, [Attribute(key, [value])], Some(pgtIou), [proxy]);
    HeadText(user);
    AttributesText(key, value);
    PrintPgt(pgtIou);
    TicketTags();
    ProxiesText(proxy);
    PrintTail();
    EndTags();
  }

  lemma HeadTags()
    ensures Tag("cas:authenticationSuccess") == "<cas:" + "authenticationSuccess>"
    ensures Tag("cas:user") == "<cas:user>" && Tag("/cas:user") == "</cas:user>"
  {
    Joined("cas:", "authenticationSuccess");
  }

  lemma AttributesTags()
    ensures Tag("cas:attributes") == "<cas:attributes>" && Tag("/cas:attributes") == "</cas:attributes>"
  {
  }

  lemma TicketTags()
    ensures Tag("cas:proxyGrantingTicket") == "<cas:" + "proxyGrantingTicket>"
    ensures Tag("/cas:proxyGrantingTicket") == "</cas:" + "proxyGrantingTicket>"
  {
    Joined("cas:", "proxyGrantingTicket");
    Joined("/cas:", "proxyGrantingTicket");
  }

  lemma Joined(a: string, b: string)
    ensures Tag(a + b) == ("<" + a) + (b + ">")
  {
  }

  lemma ProxiesTags()
    ensures Tag("cas:proxies") == "<cas:proxies>" && Tag("/cas:proxies") == "</cas:proxies>"
    ensures Tag("cas:" + "proxy") == "<cas:proxy>" && Tag("/cas:" + "proxy") == "</cas:proxy>"
  {
  }

  lemma EndTags()
    ensures Tag("/cas:authenticationSuccess") == "</cas:" + "authenticationSuccess>"
    ensures Tag("/cas:serviceResponse") == "</cas:" + "serviceResponse>"
  {
    Joined("/cas:", "authenticationSuccess");
    Joined("/cas:", "serviceResponse");
  }

  lemma HeadText(user: string)
    ensures Render(Head(user)) ==
            "<cas:serviceResponse " + "xmlns:cas=\"" + "http://www.yale.edu/tp/cas" + "\">"
            + "\n  " + ("<cas:" + "authenticationSuccess>") + "\n    " + "<cas:user>" + EscapeXml(user) + "</cas:user>"
  {
    PrintHead(user);
    HeaderText();
    HeadTags();
  }

  /** An opening tag on its line, one element on the next, the closing tag. */
  lemma BlockText(open: string, close: string, name: string, content: string)
    ensures Render(Block(open, close, [(name, content)])) ==
            "\n    " + Tag(open) + ("\n      " + Tag("cas:" + name) + content + Tag("/cas:" + name))
            + "\n    " + Tag(close)
  {
    var first := [Chunk("\n    ", open)];
    var element := [Chunk(LIST_INDENT, "cas:" + name), Chunk(content, "/cas:" + name)];
    assert [(name, content)][1..] == [];
    assert Elements(LIST_INDENT, [(name, content)]) == element + [] == element;
    PrintFirst("\n    ", open);
    PrintElement(first, LIST_INDENT, "cas:" + name, content, "/cas:" + name);
    PrintTag(first + element, "\n    ", close);
    FourJoined("\n    " + Tag(open), LIST_INDENT, Tag("cas:" + name), content, Tag("/cas:" + name));
  }

  lemma FourJoined(a: string, b: string, c: string, d: string, e: string)
    ensures a + b + c + d + e == a + (b + c + d + e)
  {
  }

  lemma AttributesText(key: string, value: string)
    ensures Render(AttributesPart([Attribute(key, [value])])) ==
            "\n    " + "<cas:attributes>"
            + ("\n      " + ("<cas:" + EscapeXml(key) + ">") + EscapeXml(value) + ("</cas:" + EscapeXml(key) + ">"))
            + "\n    " + "</cas:attributes>"
  {
    EntriesOfOne(key, value);
    BlockText("cas:attributes", "/cas:attributes", EscapeXml(key), EscapeXml(value));
    AttributesTags();
    NamedTags(EscapeXml(key));
  }

  lemma EntriesOfOne(key: string, value: string)
    ensures Entries([Attribute(key, [value])]) == [(EscapeXml(key), EscapeXml(value))]
  {
  }

  lemma NamedTags(name: string)
    ensures Tag("cas:" + name) == "<cas:" + name + ">" && Tag("/cas:" + name) == "</cas:" + name + ">"
  {
  }

  lemma ProxiesText(proxy: string)
    ensures Render(ProxiesPart([proxy])) ==
            "\n    " + "<cas:proxies>" + ("\n      " + "<cas:proxy>" + EscapeXml(proxy) + "</cas:proxy>")
            + "\n    " + "</cas:proxies>"
  {
    assert Named("proxy", EscapeAll([proxy])) == [("proxy", EscapeXml(proxy))];
    BlockText("cas:proxies", "/cas:proxies", "proxy", EscapeXml(proxy));
    ProxiesTags();
  }

  // ---------------------------------------------------------------- letters, white space and refusals

  /** The parser tells apart all characters but the two cases of a letter from A to Z. */
  lemma LettersFold(a: char, b: char)
    ensures EqualFold([a], [b]) <==>
            || a == b
            || ('A' <= a <= 'Z' && b as int == a as int + 32) || ('A' <= b <= 'Z' && a as int == b as int + 32)
  {
    assert EqualFold([a], [b]) <==> Lower([a][0]) == Lower([b][0]);
  }

  /** The white space and line terminators of section 12 of ECMA-262. */
  lemma SpaceExactly(c: char)
    ensures IsSpace(c) <==> c as int in {0x9, 0xA, 0xB, 0xC, 0xD, 0x20, 0xA0, 0x1680, 0x2000, 0x2001, 0x2002, 0x2003,
                                         0x2004, 0x2005, 0x2006, 0x2007, 0x2008, 0x2009, 0x200A, 0x2028, 0x2029,
                                         0x202F, 0x205F, 0x3000, 0xFEFF}
  {
  }

  /** Trimming takes away white space at both ends, and nothing else. */
  lemma TrimExactly(before: string, s: string, after: string)
    requires forall i :: 0 <= i < |before| ==> IsSpace(before[i])
    requires forall i :: 0 <= i < |after| ==> IsSpace(after[i])
    requires s != "" && !IsSpace(s[0]) && !IsSpace(s[|s| - 1])
    ensures Trim(before + s + after) == s
  {
    TrimStartSkips(before, s + after);
    assert before + s + after == before + (s + after);
    assert (s + after)[0] == s[0];
    TrimEndSkips(s, after);
  }

  lemma {:induction false} TrimStartSkips(before: string, s: string)
    requires forall i :: 0 <= i < |before| ==> IsSpace(before[i])
    requires s != "" && !IsSpace(s[0])
    ensures TrimStart(before + s) == s
  {
    if |before| == 0 {
      assert before + s == s;
    } else {
      assert (before + s)[1..] == before[1..] + s;
      TrimStartSkips(before[1..], s);
    }
  }

  lemma {:induction false} TrimEndSkips(s: string, after: string)
    requires forall i :: 0 <= i < |after| ==> IsSpace(after[i])
    requires s != "" && !IsSpace(s[|s| - 1])
    ensures TrimEnd(s + after) == s
  {
    if |after| == 0 {
      assert s + after == s;
    } else {
      assert (s + after)[..|s + after| - 1] == s + after[..|after| - 1];
      TrimEndSkips(s, after[..|after| - 1]);
    }
  }

  /** An empty text, one of more than a mebibyte, and a document without a user or a failure are refused. */
  lemma Refused(xml: string, cs: seq<Chunk>)
    ensures Parse("") == Failed("INVALID_RESPONSE", "Empty response")
    ensures |xml| > 1048576 ==> Parse(xml) == Failed("INVALID_RESPONSE", "Response too large")
    ensures Quiet(cs) && NoTag(cs, "cas:user") && 0 < |Render(cs)| <= 1048576 ==>
              Parse(Render(cs)) == Failed("INVALID_RESPONSE", "No user found in response")
  {
    if Quiet(cs) && NoTag(cs, "cas:user") {
      NoFailureInDoc(cs);
      NoElementWithoutTag(cs, "cas:user");
    }
  }

  // ---------------------------------------------------------------- the names of attributes

  /**
   * A response with one attribute comes back exactly when neither the user nor the value has white space at its ends
   * and the key is neither empty nor in need of escaping, does not close the list of attributes, is not taken for the
   * proxy-granting ticket, and is not inherited by every object.
   */
  lemma OneAttributeBack(user: string, key: string, value: string)
    ensures var attributes := [Attribute(key, [value])];
            var xml := Render(Response(user, attributes, None, []));
            Parse(xml) == Success(user, Some(map[key := [value]]), None, None) <==>
            && |xml| <= 1048576
            && (user != "" ==> !IsSpace(user[0]) && !IsSpace(user[|user| - 1]))
            && (value != "" ==> !IsSpace(value[0]) && !IsSpace(value[|value| - 1]))
            && key != ""
            && '&' !in key && '<' !in key && '>' !in key && '"' !in key && '\'' !in key
            && !EqualFold(key, "attributes") && !EqualFold(key, "proxyGrantingTicket")
            && key !in {"__defineGetter__", "__defineSetter__", "__lookupGetter__", "__lookupSetter__", "__proto__",
                        "constructor", "hasOwnProperty", "isPrototypeOf", "propertyIsEnumerable", "toLocaleString",
                        "toString", "valueOf"}
  {
    var attributes := [Attribute(key, [value])];
    RoundTrip(user, attributes, None, []);
    OneFirstNamed(key, value, "proxyGrantingTicket");
    KeyExactly(key);
    assert Record(attributes) == map[key := [value]];
    assert ReadableAttributes(attributes) <==> ReadableAttribute(attributes[0]);
    assert (forall i :: 0 <= i < |[value]| ==> Trimmed([value][i])) <==> Trimmed(value);
  }

  lemma OneFirstNamed(key: string, value: string, name: string)
    ensures FirstNamed([Attribute(key, [value])], name) == if EqualFold(key, name) then Some(value) else None
  {
    assert [Attribute(key, [value])][1..] == [];
  }

  lemma KeyExactly(key: string)
    ensures ReadableKey(key) <==>
            && key != ""
            && '&' !in key && '<' !in key && '>' !in key && '"' !in key && '\'' !in key
            && !EqualFold(key, "attributes")
            && key !in {"__defineGetter__", "__defineSetter__", "__lookupGetter__", "__lookupSetter__", "__proto__",
                        "constructor", "hasOwnProperty", "isPrototypeOf", "propertyIsEnumerable", "toLocaleString",
                        "toString", "valueOf"}
  {
  }
}
