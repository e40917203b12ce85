/**
 * What the scanning functions find in documents with lists of elements inside blocks.
 */
module CasDocuments {
  import opened Wrappers
  import opened CasPatterns

  // ---------------------------------------------------------------- tags and names

  lemma FoldPrefix(prefix: string, a: string, b: string)
    ensures EqualFold(prefix + a, prefix + b) <==> EqualFold(a, b)
  {
    if EqualFold(prefix + a, prefix + b) {
      forall i | 0 <= i < |a|
        ensures Lower(a[i]) == Lower(b[i])
      {
        assert a[i] == (prefix + a)[|prefix| + i] && b[i] == (prefix + b)[|prefix| + i];
      }
    }
  }

  lemma TagNames(key: string, name: string)
    ensures EqualFold("cas:" + key, "cas:" + name) <==> EqualFold(key, name)
    ensures EqualFold("/cas:" + key, "/cas:" + name) <==> EqualFold(key, name)
    ensures !EqualFold("/cas:" + key, "cas:" + name) && !EqualFold("cas:" + key, "/cas:" + name)
  {
    FoldPrefix("cas:", key, name);
    FoldPrefix("/cas:", key, name);
    assert ("/cas:" + key)[0] == '/' && ("cas:" + name)[0] == 'c' && ("cas:" + key)[0] == 'c' &&
           ("/cas:" + name)[0] == '/';
  }

  /** The first entry whose key is the name, whatever the case. */
  function FirstKey(entries: seq<(string, string)>, name: string): (k: Option<nat>)
    ensures k.Some? ==> k.value < |entries| && EqualFold(entries[k.value].0, name)
    ensures forall i :: 0 <= i < (if k.Some? then k.value else |entries|) ==> !EqualFold(entries[i].0, name)
  {
    if |entries| == 0 then None
    else if EqualFold(entries[0].0, name) then Some(0)
    else match FirstKey(entries[1..], name)
      case None => None
      case Some(k) => Some(k + 1)
  }

  /** The entries before the first of that key. */
  function EntriesBefore(entries: seq<(string, string)>, name: string): seq<(string, string)> {
    if FirstKey(entries, name).Some? then entries[..FirstKey(entries, name).value] else entries
  }

  // ---------------------------------------------------------------- searching past parts of a document

  predicate NoTag(cs: seq<Chunk>, name: string) {
    forall i :: 0 <= i < |cs| ==> !EqualFold(cs[i].tag, name)
  }

  lemma TidyRest(cs: seq<Chunk>)
    requires |cs| > 0 && Tidy(cs)
    ensures Tidy(cs[1..])
  {
  }

  lemma {:induction false} ElementBeyond(part: seq<Chunk>, rest: seq<Chunk>, name: string)
    requires Tidy(part + rest) && Plain(name) && NoTag(part, name)
    ensures FindElement(Render(part + rest), name) == FindElement(Render(rest), name)
    decreases |part|
  {
    if |part| == 0 {
      assert part + rest == rest;
    } else {
      TidyRest(part + rest);
      assert (part + rest)[1..] == part[1..] + rest;
      ElementPast1(part + rest, name);
      ElementBeyond(part[1..], rest, name);
    }
  }

  lemma ElementPast1(cs: seq<Chunk>, name: string)
    requires |cs| > 0 && Tidy(cs) && Plain(name) && !ClosedAt(cs, 0, name)
    ensures FindElement(Render(cs), name) == FindElement(Render(cs[1..]), name)
  {
    ElementPastTag(cs, "", name);
    NoTail(cs);
    NoTail(cs[1..]);
  }

  lemma NoTail(cs: seq<Chunk>)
    ensures Doc(cs, "") == Render(cs)
  {
  }

  lemma {:induction false} BlockBeyond(part: seq<Chunk>, rest: seq<Chunk>, name: string)
    requires Tidy(part + rest) && Plain(name) && NoTag(part, name)
    ensures FindBlock(Render(part + rest), name) == FindBlock(Render(rest), name)
    decreases |part|
  {
    if |part| == 0 {
      assert part + rest == rest;
    } else {
      TidyRest(part + rest);
      assert (part + rest)[1..] == part[1..] + rest;
      BlockPastTag(part + rest, name);
      BlockBeyond(part[1..], rest, name);
    }
  }

  /** The first entry of the key is the element found; without one the search goes on behind the entries. */
  lemma {:induction false} ElementInEntries(indent: string, entries: seq<(string, string)>, rest: seq<Chunk>,
                                            name: string)
    requires Tidy(Elements(indent, entries) + rest) && Plain(name)
    ensures var found := FindElement(Render(Elements(indent, entries) + rest), "cas:" + name);
            match FirstKey(entries, name)
            case None => found == FindElement(Render(rest), "cas:" + name)
            case Some(k) => found.Some? && found.value.content == entries[k].1
    decreases |entries|
  {
    var cs := Elements(indent, entries) + rest;
    if |entries| == 0 {
      assert cs == rest;
    } else {
      FirstEntry(indent, entries, rest);
      TagNames(entries[0].0, name);
      if EqualFold(entries[0].0, name) {
        assert "/" + ("cas:" + name) == "/cas:" + name;
        ElementFound(cs, "", "cas:" + name);
        NoTail(cs);
      } else {
        ElementPast1(cs, "cas:" + name);
        ElementPast1(cs[1..], "cas:" + name);
        assert cs[1..][1..] == cs[2..];
        ElementInEntries(indent, entries[1..], rest, name);
      }
    }
  }

  /** A block named as an entry is that entry's content; without one the search goes on behind the entries. */
  lemma {:induction false} BlockInEntries(indent: string, entries: seq<(string, string)>, rest: seq<Chunk>,
                                          name: string)
    requires Tidy(Elements(indent, entries) + rest) && Plain(name)
    ensures FindBlock(Render(Elements(indent, entries) + rest), "cas:" + name) ==
            match FirstKey(entries, name)
            case None => FindBlock(Render(rest), "cas:" + name)
            case Some(k) => Some(entries[k].1)
    decreases |entries|
  {
    var cs := Elements(indent, entries) + rest;
    if |entries| == 0 {
      assert cs == rest;
    } else {
      FirstEntry(indent, entries, rest);
      TagNames(entries[0].0, name);
      if EqualFold(entries[0].0, name) {
        assert "/" + ("cas:" + name) == "/cas:" + name;
        BlockAtTag(cs, 0, "cas:" + name);
        FirstContentOnly(cs[1..]);
      } else {
        BlockPastTag(cs, "cas:" + name);
        BlockPastTag(cs[1..], "cas:" + name);
        assert cs[1..][1..] == cs[2..];
        BlockInEntries(indent, entries[1..], rest, name);
      }
    }
  }

  lemma FirstContentOnly(cs: seq<Chunk>)
    requires |cs| > 0
    ensures BlockContent(cs, 0) == cs[0].text
  {
    assert cs[..0] == [] && Render(cs[..0]) + cs[0].text == cs[0].text;
  }

  // ---------------------------------------------------------------- the content of a block

  /** A block of entries is closed by the first entry of its own name, or else by its own closing tag. */
  lemma {:induction false} ClosedInEntries(indent: string, entries: seq<(string, string)>, close: Chunk,
                                           rest: seq<Chunk>, name: string)
    requires close.tag == "/cas:" + name
    ensures FirstTag(Elements(indent, entries) + ([close] + rest), "/cas:" + name) ==
            match FirstKey(entries, name)
            case None => Some(2 * |entries|)
            case Some(k) => Some(2 * k + 1)
    decreases |entries|
  {
    var cs := Elements(indent, entries) + ([close] + rest);
    if |entries| == 0 {
      assert cs == [close] + rest;
    } else {
      FirstEntry(indent, entries, [close] + rest);
      TagNames(entries[0].0, name);
      FirstTagTwo(cs, "/cas:" + name);
      ClosedInEntries(indent, entries[1..], close, rest, name);
    }
  }

  lemma FirstTagTwo(cs: seq<Chunk>, name: string)
    requires |cs| > 1 && !EqualFold(cs[0].tag, name)
    ensures FirstTag(cs, name) ==
            if EqualFold(cs[1].tag, name) then Some(1)
            else match FirstTag(cs[2..], name)
                 case None => None
                 case Some(k) => Some(k + 2)
  {
    assert cs[1..][1..] == cs[2..];
  }

  lemma PrefixContent(a: seq<Chunk>, last: Chunk, b: seq<Chunk>)
    ensures BlockContent(a + ([last] + b), |a|) == Doc(a, last.text)
  {
    assert (a + ([last] + b))[..|a|] == a;
  }

  /** The chunks up to the content of entry `k`. */
  lemma EntriesUpTo(indent: string, entries: seq<(string, string)>, k: nat, rest: seq<Chunk>)
    requires k < |entries|
    ensures BlockContent(Elements(indent, entries) + rest, 2 * k + 1) ==
            Doc(Elements(indent, entries[..k]) + [Chunk(indent, "cas:" + entries[k].0)], entries[k].1)
  {
    var before := Elements(indent, entries[..k]);
    var open, close := Chunk(indent, "cas:" + entries[k].0), Chunk(entries[k].1, "/cas:" + entries[k].0);
    var after := Elements(indent, entries[k + 1..]) + rest;
    assert entries == entries[..k] + entries[k..];
    ElementsConcat(indent, entries[..k], entries[k..]);
    assert entries[k..][1..] == entries[k + 1..];
    Regroup(before, open, close, Elements(indent, entries[k + 1..]), rest);
    PrefixContent(before + [open], close, after);
  }

  lemma Regroup(before: seq<Chunk>, open: Chunk, close: Chunk, others: seq<Chunk>, rest: seq<Chunk>)
    ensures before + ([open, close] + others) + rest == (before + [open]) + ([close] + (others + rest))
  {
  }

  /** A block of entries. */
  function Listed(open: Chunk, indent: string, entries: seq<(string, string)>, close: Chunk, rest: seq<Chunk>)
    : seq<Chunk>
  {
    [open] + (Elements(indent, entries) + ([close] + rest))
  }

  predicate EntriesBlock(indent: string, entries: seq<(string, string)>, close: Chunk, name: string) {
    '<' !in indent && TidyEntries(entries) && '<' !in close.text && Plain(name) && close.tag == "/cas:" + name
  }

  /** Reading a block of entries gives the entries that have a key, up to the first named as the block. */
  lemma BlockOfEntries(indent: string, entries: seq<(string, string)>, open: Chunk, close: Chunk, rest: seq<Chunk>,
                       name: string)
    requires EntriesBlock(indent, entries, close, name) && open.tag == "cas:" + name
    requires Tidy(Listed(open, indent, entries, close, rest))
    ensures var block := FindBlock(Render(Listed(open, indent, entries, close, rest)), "cas:" + name);
            block.Some? && AllAttributes(block.value) == Keyed(EntriesBefore(entries, name))
  {
    var inner := Elements(indent, entries) + ([close] + rest);
    var cs := [open] + inner;
    assert cs[1..] == inner && "/" + ("cas:" + name) == "/cas:" + name;
    ClosedInEntries(indent, entries, close, rest, name);
    TagNames(name, name);
    BlockAtTag(cs, FirstTag(inner, "/cas:" + name).value, "cas:" + name);
    if FirstKey(entries, name).Some? {
      var k := FirstKey(entries, name).value;
      EntriesUpTo(indent, entries, k, [close] + rest);
      AttributesInDoc(indent, entries[..k], [Chunk(indent, "cas:" + entries[k].0)], entries[k].0, entries[k].1);
    } else {
      PrefixContent(Elements(indent, entries), close, rest);
      assert Elements(indent, entries) + [] == Elements(indent, entries);
      AttributesInDoc(indent, entries, [], "", close.text);
    }
  }

  /** Reading a block of elements of one name, other than its own, gives their contents. */
  lemma BlockOfContents(indent: string, element: string, contents: seq<string>, open: Chunk, close: Chunk,
                        rest: seq<Chunk>, name: string)
    requires EntriesBlock(indent, Named(element, contents), close, name) && open.tag == "cas:" + name
    requires Plain(element) && !EqualFold(element, name)
    requires Tidy(Listed(open, indent, Named(element, contents), close, rest))
    ensures var block := FindBlock(Render(Listed(open, indent, Named(element, contents), close, rest)), "cas:" + name);
            block.Some? && AllElements(block.value, "cas:" + element) == contents
  {
    var inner := Elements(indent, Named(element, contents)) + ([close] + rest);
    var cs := [open] + inner;
    assert cs[1..] == inner && "/" + ("cas:" + name) == "/cas:" + name;
    assert FirstKey(Named(element, contents), name) == None;
    ClosedInEntries(indent, Named(element, contents), close, rest, name);
    TagNames(name, name);
    BlockAtTag(cs, 2 * |contents|, "cas:" + name);
    PrefixContent(Elements(indent, Named(element, contents)), close, rest);
    ContentsInDoc(indent, element, contents, close.text);
  }

  // ---------------------------------------------------------------- searching across a block

  lemma TidyParts(a: seq<Chunk>, b: seq<Chunk>)
    requires Tidy(a + b)
    ensures Tidy(a) && Tidy(b)
  {
    forall i | 0 <= i < |b|
      ensures '<' !in b[i].text && Plain(b[i].tag)
    {
      assert (a + b)[|a| + i] == b[i];
    }
    forall i | 0 <= i < |a|
      ensures '<' !in a[i].text && Plain(a[i].tag)
    {
      assert (a + b)[i] == a[i];
    }
  }

  lemma ElementAcross(open: Chunk, indent: string, entries: seq<(string, string)>, close: Chunk, rest: seq<Chunk>,
                      name: string)
    requires Tidy(Listed(open, indent, entries, close, rest)) && Plain(name)
    requires !EqualFold(open.tag, "cas:" + name) && !EqualFold(close.tag, "cas:" + name)
    ensures var found := FindElement(Render(Listed(open, indent, entries, close, rest)), "cas:" + name);
            match FirstKey(entries, name)
            case None => found == FindElement(Render(rest), "cas:" + name)
            case Some(k) => found.Some? && found.value.content == entries[k].1
  {
    var inner := Elements(indent, entries) + ([close] + rest);
    TidyParts([open], inner);
    TidyParts(Elements(indent, entries), [close] + rest);
    ElementBeyond([open], inner, "cas:" + name);
    ElementInEntries(indent, entries, [close] + rest, name);
    ElementBeyond([close], rest, "cas:" + name);
  }

  lemma BlockAcross(open: Chunk, indent: string, entries: seq<(string, string)>, close: Chunk, rest: seq<Chunk>,
                    name: string)
    requires Tidy(Listed(open, indent, entries, close, rest)) && Plain(name)
    requires !EqualFold(open.tag, "cas:" + name) && !EqualFold(close.tag, "cas:" + name)
    ensures FindBlock(Render(Listed(open, indent, entries, close, rest)), "cas:" + name) ==
            match FirstKey(entries, name)
            case None => FindBlock(Render(rest), "cas:" + name)
            case Some(k) => Some(entries[k].1)
  {
    var inner := Elements(indent, entries) + ([close] + rest);
    TidyParts([open], inner);
    TidyParts(Elements(indent, entries), [close] + rest);
    BlockBeyond([open], inner, "cas:" + name);
    BlockInEntries(indent, entries, [close] + rest, name);
    BlockBeyond([close], rest, "cas:" + name);
  }

  lemma {:induction false} NoTagInElements(indent: string, entries: seq<(string, string)>, name: string)
    requires FirstKey(entries, name) == None
    ensures NoTag(Elements(indent, entries), "cas:" + name)
  {
    if |entries| > 0 {
      TagNames(entries[0].0, name);
      NoTagInElements(indent, entries[1..], name);
    }
  }

  lemma NoTagConcat(a: seq<Chunk>, b: seq<Chunk>, name: string)
    requires NoTag(a, name) && NoTag(b, name)
    ensures NoTag(a + b, name)
  {
  }

  lemma NoElementWithoutTag(cs: seq<Chunk>, name: string)
    requires Tidy(cs) && Plain(name) && NoTag(cs, name)
    ensures FindElement(Render(cs), name) == None && FindBlock(Render(cs), name) == None
  {
    assert cs == cs + [];
    ElementBeyond(cs, [], name);
    BlockBeyond(cs, [], name);
  }
}
