/**
 * Exactly when parsing a printed serviceValidate success response gives back what was printed
 * (packages/lib-cas/src/xml-builder.ts, packages/lib-cas/src/xml-parser.ts).
 */
module CasFaithful {
  import opened Wrappers
  import opened XmlEscape
  import opened CasPatterns
  import opened CasDocuments
  import opened CasResponse
  import opened CasRoundTrip

  // ---------------------------------------------------------------- names that need no escaping

  predicate EscapeFree(s: string) {
    forall i :: 0 <= i < |s| ==> s[i] !in SPECIAL
  }

  lemma {:induction false} MapFree(s: string)
    ensures EscapeFree(s) ==> MapChars(Entity, s) == s
    ensures !EscapeFree(s) ==> |MapChars(Entity, s)| > |s| && '&' in MapChars(Entity, s)
    ensures |MapChars(Entity, s)| >= |s|
  {
    if |s| > 0 {
      MapFree(s[1..]);
      assert s == [s[0]] + s[1..];
      assert s[0] in SPECIAL ==> |Entity(s[0])| > 1 && Entity(s[0])[0] == '&';
      assert s[0] !in SPECIAL ==> Entity(s[0]) == [s[0]];
      assert EscapeFree(s) <==> s[0] !in SPECIAL && EscapeFree(s[1..]);
    }
  }

  lemma EscapedFree(s: string)
    ensures EscapeXml(s) == s <==> EscapeFree(s)
    ensures !EscapeFree(s) ==> |EscapeXml(s)| > |s| && !EscapeFree(EscapeXml(s))
  {
    EscapeIsSimultaneous(s);
    MapFree(s);
  }

  lemma EscapeInjective(s: string, t: string)
    requires EscapeXml(s) == EscapeXml(t)
    ensures s == t
  {
    UnescapeEscape(s);
    UnescapeEscape(t);
  }

  /** Letters match neither escaped nor unescaped special characters. */
  lemma FoldFree(s: string, name: string)
    requires EqualFold(s, name) && EscapeFree(name)
    ensures EscapeFree(s)
  {
    forall i | 0 <= i < |s|
      ensures s[i] !in SPECIAL
    {
      assert Lower(s[i]) == Lower(name[i]) && name[i] !in SPECIAL;
    }
  }

  lemma FoldEscaped(s: string, name: string)
    requires EscapeFree(name)
    ensures EqualFold(EscapeXml(s), name) <==> EqualFold(s, name)
  {
    EscapedFree(s);
    if EqualFold(EscapeXml(s), name) {
      FoldFree(EscapeXml(s), name);
    }
    if EqualFold(s, name) {
      FoldFree(s, name);
    }
  }

  // ---------------------------------------------------------------- the record collected

  /** The contents of the matches with that key, in order. */
  function ContentsOf(matches: seq<(string, string)>, key: string): seq<string> {
    if |matches| == 0 then []
    else ContentsOf(matches[..|matches| - 1], key)
         + (if matches[|matches| - 1].0 == key then [matches[|matches| - 1].1] else [])
  }

  lemma ReadAllConcat(a: seq<string>, b: seq<string>)
    ensures ReadAll(a + b) == ReadAll(a) + ReadAll(b)
  {
  }

  /** The record holds exactly the values read under each key. */
  ghost predicate Exact(record: map<string, seq<string>>, matches: seq<(string, string)>) {
    forall key {:trigger ContentsOf(matches, key)} ::
      if key in record then |ContentsOf(matches, key)| > 0 && record[key] == ReadAll(ContentsOf(matches, key))
      else ContentsOf(matches, key) == []
  }

  lemma ContentsNext(matches: seq<(string, string)>, last: (string, string), key: string)
    ensures ContentsOf(matches + [last], key) == ContentsOf(matches, key) + (if last.0 == key then [last.1] else [])
  {
    assert (matches + [last])[..|matches|] == matches;
  }

  lemma ExactNext(record: map<string, seq<string>>, matches: seq<(string, string)>, last: (string, string))
    requires Exact(record, matches)
    ensures Exact(record[last.0 := (if last.0 in record then record[last.0] else []) + [Read(last.1)]],
                  matches + [last])
  {
    var before := ContentsOf(matches, last.0);
    ReadAllConcat(before, [last.1]);
    assert ReadAll(before) == if last.0 in record then record[last.0] else [];
    forall key
      ensures ContentsOf(matches + [last], key) == ContentsOf(matches, key) + (if last.0 == key then [last.1] else [])
    {
      ContentsNext(matches, last, key);
    }
  }

  /** The record holds exactly the values read under each key; an inherited name throws. */
  lemma {:induction false} CollectExact(inherited: set<string>, matches: seq<(string, string)>)
    ensures Collect(inherited, matches).Some? <==> forall i :: 0 <= i < |matches| ==> matches[i].0 !in inherited
    ensures Collect(inherited, matches).Some? ==> Exact(Collect(inherited, matches).value, matches)
  {
    if |matches| > 0 {
      var front, last := matches[..|matches| - 1], matches[|matches| - 1];
      assert matches == front + [last];
      CollectExact(inherited, front);
      if Collect(inherited, front).Some? {
        CollectNext(inherited, front, last.0, last.1);
        ExactNext(Collect(inherited, front).value, front, last);
      }
    }
  }

  lemma {:induction false} ContentsConcat(a: seq<(string, string)>, b: seq<(string, string)>, key: string)
    ensures ContentsOf(a + b, key) == ContentsOf(a, key) + ContentsOf(b, key)
    decreases |b|
  {
    if |b| == 0 {
      assert a + b == a;
    } else {
      assert (a + b)[..|a + b| - 1] == a + b[..|b| - 1];
      ContentsConcat(a, b[..|b| - 1], key);
    }
  }

  lemma {:induction false} ContentsOfValues(key: string, values: seq<string>, name: string)
    ensures ContentsOf(KeyValues(key, values), name) == if EscapeXml(key) == name then EscapeAll(values) else []
    decreases |values|
  {
    if |values| > 0 {
      var front := values[..|values| - 1];
      ContentsOfValues(key, front, name);
      ValuesLast(key, values);
      var before := KeyValues(key, front);
      ContentsNext(before, (EscapeXml(key), EscapeXml(values[|values| - 1])), name);
    }
  }

  lemma ValuesLast(key: string, values: seq<string>)
    requires |values| > 0
    ensures var front, last := values[..|values| - 1], EscapeXml(values[|values| - 1]);
            && KeyValues(key, values) == KeyValues(key, front) + [(EscapeXml(key), last)]
            && EscapeAll(values) == EscapeAll(front) + [last]
  {
  }

  /** The keys of a JavaScript object. */
  predicate Distinct(attributes: seq<Attribute>) {
    forall i, j :: 0 <= i < j < |attributes| ==> attributes[i].key != attributes[j].key
  }

  /** Without an attribute of that key nothing is read under it. */
  lemma {:induction false} NoContents(attributes: seq<Attribute>, key: string)
    requires forall i :: 0 <= i < |attributes| ==> attributes[i].key != key
    ensures ContentsOf(Entries(attributes), EscapeXml(key)) == []
  {
    if |attributes| > 0 {
      NoContents(attributes[1..], key);
      ContentsConcat(KeyValues(attributes[0].key, attributes[0].values), Entries(attributes[1..]), EscapeXml(key));
      ContentsOfValues(attributes[0].key, attributes[0].values, EscapeXml(key));
      if EscapeXml(attributes[0].key) == EscapeXml(key) {
        EscapeInjective(attributes[0].key, key);
      }
    }
  }

  lemma {:induction false} EntriesContents(attributes: seq<Attribute>, i: nat)
    requires Distinct(attributes) && i < |attributes|
    ensures ContentsOf(Entries(attributes), EscapeXml(attributes[i].key)) == EscapeAll(attributes[i].values)
    decreases |attributes|
  {
    var first, rest, key := attributes[0], attributes[1..], attributes[i].key;
    EntriesFirst(attributes, EscapeXml(key));
    if i == 0 {
      NoContents(rest, key);
    } else {
      EntriesContents(rest, i - 1);
      if EscapeXml(first.key) == EscapeXml(key) {
        EscapeInjective(first.key, key);
      }
    }
  }

  /** The values of the first attribute come first. */
  lemma EntriesFirst(attributes: seq<Attribute>, name: string)
    requires |attributes| > 0
    ensures var first := attributes[0];
            ContentsOf(Entries(attributes), name) ==
            (if EscapeXml(first.key) == name then EscapeAll(first.values) else [])
            + ContentsOf(Entries(attributes[1..]), name)
  {
    var first := attributes[0];
    ContentsConcat(KeyValues(first.key, first.values), Entries(attributes[1..]), name);
    ContentsOfValues(first.key, first.values, name);
  }

  lemma {:induction false} ContentsWitness(matches: seq<(string, string)>, key: string) returns (i: nat)
    requires |ContentsOf(matches, key)| > 0
    ensures i < |matches| && matches[i].0 == key
  {
    i := |matches| - 1;
    if matches[i].0 != key {
      i := ContentsWitness(matches[..i], key);
    }
  }

  /** Every entry is a value of an attribute. */
  lemma {:induction false} EntryFrom(attributes: seq<Attribute>, k: nat) returns (i: nat)
    requires k < |Entries(attributes)|
    ensures i < |attributes| && Entries(attributes)[k].0 == EscapeXml(attributes[i].key) && |attributes[i].values| > 0
  {
    var n := |attributes[0].values|;
    if k < n {
      i := 0;
    } else {
      assert Entries(attributes)[k] == Entries(attributes[1..])[k - n];
      var rest := EntryFrom(attributes[1..], k - n);
      i := rest + 1;
    }
  }

  lemma {:induction false} KeyedMember(entries: seq<(string, string)>, i: nat) returns (k: nat)
    requires i < |Keyed(entries)|
    ensures k < |entries| && entries[k] == Keyed(entries)[i] && entries[k].0 != ""
  {
    if entries[0].0 == "" {
      k := KeyedMember(entries[1..], i);
      k := k + 1;
    } else if i == 0 {
      k := 0;
    } else {
      k := KeyedMember(entries[1..], i - 1);
      k := k + 1;
    }
  }

  lemma {:induction false} KeyedAll(entries: seq<(string, string)>)
    requires forall i :: 0 <= i < |entries| ==> entries[i].0 != ""
    ensures Keyed(entries) == entries
  {
    if |entries| > 0 {
      KeyedAll(entries[1..]);
      assert entries == [entries[0]] + entries[1..];
    }
  }

  // ---------------------------------------------------------------- the condition

  /** A key that is printed as it is, found by the search and pushed without an error. */
  predicate ReadableKey(key: string) {
    key != "" && EscapeFree(key) && !EqualFold(key, "attributes") && key !in INHERITED
  }

  predicate ReadableAttribute(a: Attribute) {
    ReadableKey(a.key) && |a.values| > 0 && forall i :: 0 <= i < |a.values| ==> Trimmed(a.values[i])
  }

  predicate ReadableAttributes(attributes: seq<Attribute>) {
    forall i :: 0 <= i < |attributes| ==> ReadableAttribute(attributes[i])
  }

  /** The first value of the first attribute with the name, whatever the case. */
  function FirstNamed(attributes: seq<Attribute>, name: string): (value: Option<string>) {
    if |attributes| == 0 then None
    else if EqualFold(attributes[0].key, name) && |attributes[0].values| > 0 then Some(attributes[0].values[0])
    else FirstNamed(attributes[1..], name)
  }

  predicate ReadableTicket(attributes: seq<Attribute>, pgtIou: Option<string>) {
    match FirstNamed(attributes, "proxyGrantingTicket")
    case Some(value) => pgtIou == Some(Trim(value))
    case None => pgtIou.Some? ==> pgtIou.value != "" && Trimmed(pgtIou.value)
  }

  predicate ReadableProxies(attributes: seq<Attribute>, proxies: seq<string>) {
    |proxies| > 0 ==>
      FirstNamed(attributes, "proxies").None? && forall i :: 0 <= i < |proxies| ==> Trimmed(proxies[i])
  }

  /** The record with the printed attributes. */
  function Record(attributes: seq<Attribute>): (record: map<string, seq<string>>)
    requires Distinct(attributes)
    ensures forall key :: key in record <==> exists i :: 0 <= i < |attributes| && attributes[i].key == key
    ensures forall i :: 0 <= i < |attributes| ==>
              attributes[i].key in record && record[attributes[i].key] == attributes[i].values
  {
    map i | 0 <= i < |attributes| :: attributes[i].key := attributes[i].values
  }

  /** The response in the parser's terms. */
  function Printed(user: string, attributes: seq<Attribute>, pgtIou: Option<string>, proxies: seq<string>): ParseResult
    requires Distinct(attributes)
  {
    Success(user, if |attributes| == 0 then None else Some(Record(attributes)), pgtIou,
            if |proxies| == 0 then None else Some(proxies))
  }

  // ---------------------------------------------------------------- the values

  lemma ReadAllEscaped(values: seq<string>)
    ensures ReadAll(EscapeAll(values)) == values <==> forall i :: 0 <= i < |values| ==> Trimmed(values[i])
  {
    forall i | 0 <= i < |values|
      ensures ReadAll(EscapeAll(values))[i] == values[i] <==> Trimmed(values[i])
    {
      ReadBack(values[i]);
      TrimKeeps(values[i]);
    }
    assert ReadAll(EscapeAll(values)) == values <==>
           forall i :: 0 <= i < |values| ==> ReadAll(EscapeAll(values))[i] == values[i];
  }

  /** The content of the first entry of the name. */
  function ContentNamed(entries: seq<(string, string)>, name: string): Option<string> {
    var k := FirstKey(entries, name);
    if k.None? then None else Some(entries[k.value].1)
  }

  lemma {:induction false} ContentBehind(a: seq<(string, string)>, b: seq<(string, string)>, key: string, name: string)
    requires forall i :: 0 <= i < |a| ==> a[i].0 == key
    ensures ContentNamed(a + b, name) == if |a| > 0 && EqualFold(key, name) then Some(a[0].1) else ContentNamed(b, name)
  {
    if |a| == 0 {
      assert a + b == b;
    } else {
      assert (a + b)[1..] == a[1..] + b;
      ContentBehind(a[1..], b, key, name);
    }
  }

  /** Among the entries, the first of a name is the first value of the first attribute of that name. */
  lemma {:induction false} FirstEntryNamed(attributes: seq<Attribute>, name: string)
    requires EscapeFree(name)
    ensures var value := FirstNamed(attributes, name);
            ContentNamed(Entries(attributes), name) == if value.None? then None else Some(EscapeXml(value.value))
  {
    if |attributes| > 0 {
      FirstEntryNamed(attributes[1..], name);
      FoldEscaped(attributes[0].key, name);
      ContentBehind(KeyValues(attributes[0].key, attributes[0].values), Entries(attributes[1..]),
                    EscapeXml(attributes[0].key), name);
    }
  }

  lemma TicketRead(attributes: seq<Attribute>, pgtIou: Option<string>)
    ensures var ticket := PgtContent(attributes, pgtIou);
            (if ticket.None? then None else Some(Read(ticket.value))) == pgtIou <==> ReadableTicket(attributes, pgtIou)
  {
    assert EscapeFree("proxyGrantingTicket");
    FirstEntryNamed(attributes, "proxyGrantingTicket");
    match FirstNamed(attributes, "proxyGrantingTicket")
    case Some(value) =>
      ReadBack(value);
    case None =>
      if pgtIou.Some? {
        ReadBack(pgtIou.value);
        TrimKeeps(pgtIou.value);
      }
  }

  lemma ProxiesRead(attributes: seq<Attribute>, proxies: seq<string>)
    ensures var contents := ProxyContents(attributes, proxies);
            (if |contents| == 0 then None else Some(ReadAll(contents))) ==
            (if |proxies| == 0 then None else Some(proxies))
            <==> ReadableProxies(attributes, proxies)
  {
    assert EscapeFree("proxies");
    FirstEntryNamed(attributes, "proxies");
    ReadAllEscaped(proxies);
  }

  // ---------------------------------------------------------------- the record read

  lemma ReadableEntry(attributes: seq<Attribute>, k: nat)
    requires ReadableAttributes(attributes) && k < |Entries(attributes)|
    ensures ReadableKey(Entries(attributes)[k].0)
    ensures exists i :: 0 <= i < |attributes| && attributes[i].key == Entries(attributes)[k].0
  {
    var i := EntryFrom(attributes, k);
    EscapedFree(attributes[i].key);
  }

  lemma EverythingRead(attributes: seq<Attribute>)
    requires ReadableAttributes(attributes)
    ensures Keyed(EntriesBefore(Entries(attributes), "attributes")) == Entries(attributes)
  {
    forall k | 0 <= k < |Entries(attributes)|
      ensures Entries(attributes)[k].0 != "" && !EqualFold(Entries(attributes)[k].0, "attributes")
    {
      ReadableEntry(attributes, k);
    }
    KeyedAll(Entries(attributes));
  }

  lemma OwnContents(attributes: seq<Attribute>, i: nat)
    requires Distinct(attributes) && i < |attributes| && EscapeFree(attributes[i].key)
    ensures ContentsOf(Entries(attributes), attributes[i].key) == EscapeAll(attributes[i].values)
  {
    EntriesContents(attributes, i);
    EscapedFree(attributes[i].key);
  }

  lemma ReadableRecord(attributes: seq<Attribute>, record: map<string, seq<string>>)
    requires Distinct(attributes) && ReadableAttributes(attributes) && Exact(record, Entries(attributes))
    ensures record == Record(attributes)
  {
    forall i | 0 <= i < |attributes|
      ensures attributes[i].key in record && record[attributes[i].key] == attributes[i].values
    {
      OwnContents(attributes, i);
      ReadAllEscaped(attributes[i].values);
    }
    forall key | key in record
      ensures key in Record(attributes)
    {
      assert |ContentsOf(Entries(attributes), key)| > 0;
      var k := ContentsWitness(Entries(attributes), key);
      ReadableEntry(attributes, k);
    }
  }

  /** Readable attributes come back as they were. */
  lemma AttributesKept(attributes: seq<Attribute>)
    requires Distinct(attributes) && ReadableAttributes(attributes)
    ensures RecordRead(attributes) == Some(Record(attributes))
  {
    EverythingRead(attributes);
    CollectExact(INHERITED, Entries(attributes));
    forall k | 0 <= k < |Entries(attributes)|
      ensures Entries(attributes)[k].0 !in INHERITED
    {
      ReadableEntry(attributes, k);
    }
    ReadableRecord(attributes, RecordRead(attributes).value);
  }

  /** A key that was read is the escaped form of the key of an attribute with values. */
  lemma KeyRead(attributes: seq<Attribute>, key: string) returns (j: nat)
    requires RecordRead(attributes).Some? && key in RecordRead(attributes).value
    ensures j < |attributes| && key == EscapeXml(attributes[j].key) && |attributes[j].values| > 0
    ensures key != "" && !EqualFold(key, "attributes") && key !in INHERITED
  {
    var entries := Entries(attributes);
    var read := Keyed(EntriesBefore(entries, "attributes"));
    CollectExact(INHERITED, read);
    assert |ContentsOf(read, key)| > 0;
    var i := ContentsWitness(read, key);
    var k := KeyedMember(EntriesBefore(entries, "attributes"), i);
    j := EntryFrom(attributes, k);
  }

  /** A key that needs escaping would be the escaped form of a shorter one that needs escaping too, without end. */
  lemma {:induction false} KeysFree(attributes: seq<Attribute>, i: nat)
    requires Distinct(attributes) && RecordRead(attributes) == Some(Record(attributes)) && i < |attributes|
    ensures EscapeFree(attributes[i].key)
    decreases |attributes[i].key|
  {
    var j := KeyRead(attributes, attributes[i].key);
    EscapedFree(attributes[j].key);
    if |attributes[j].key| < |attributes[i].key| {
      KeysFree(attributes, j);
    }
  }

  lemma KeyReadable(attributes: seq<Attribute>, i: nat)
    requires Distinct(attributes) && RecordRead(attributes) == Some(Record(attributes)) && i < |attributes|
    ensures ReadableKey(attributes[i].key) && |attributes[i].values| > 0
  {
    var j := KeyRead(attributes, attributes[i].key);
    KeysFree(attributes, i);
    KeysFree(attributes, j);
    EscapedFree(attributes[j].key);
  }

  lemma ValuesReadable(attributes: seq<Attribute>, i: nat)
    requires Distinct(attributes) && RecordRead(attributes) == Some(Record(attributes)) && i < |attributes|
    ensures ReadableAttribute(attributes[i])
  {
    var entries := Entries(attributes);
    KeyReadable(attributes, i);
    forall k | 0 <= k < |entries|
      ensures entries[k].0 != "" && !EqualFold(entries[k].0, "attributes")
    {
      var j := EntryFrom(attributes, k);
      KeyReadable(attributes, j);
      EscapedFree(attributes[j].key);
    }
    KeyedAll(entries);
    CollectExact(INHERITED, entries);
    OwnContents(attributes, i);
    ReadAllEscaped(attributes[i].values);
  }

  /** The attributes come back as they were exactly when they are readable. */
  lemma AttributesBack(attributes: seq<Attribute>)
    requires Distinct(attributes)
    ensures RecordRead(attributes) == Some(Record(attributes)) <==> ReadableAttributes(attributes)
  {
    if ReadableAttributes(attributes) {
      AttributesKept(attributes);
    }
    if RecordRead(attributes) == Some(Record(attributes)) {
      forall i | 0 <= i < |attributes|
        ensures ReadableAttribute(attributes[i])
      {
        ValuesReadable(attributes, i);
      }
    }
  }

  // ---------------------------------------------------------------- the round trip

  /** Parsing what was printed gives it back exactly under these conditions, for any distinct keys. */
  lemma RoundTrip(user: string, attributes: seq<Attribute>, pgtIou: Option<string>, proxies: seq<string>)
    requires Distinct(attributes)
    ensures var xml := Render(Response(user, attributes, pgtIou, proxies));
            Parse(xml) == Printed(user, attributes, pgtIou, proxies) <==>
            && |xml| <= MAX_XML_SIZE
            && Trimmed(user)
            && ReadableAttributes(attributes)
            && ReadableTicket(attributes, pgtIou)
            && ReadableProxies(attributes, proxies)
  {
    ParsedExactly(user, attributes, pgtIou, proxies);
    TrimKeeps(user);
    AttributesBack(attributes);
    TicketRead(attributes, pgtIou);
    ProxiesRead(attributes, proxies);
    Assembled(Trim(user), user, attributes, RecordRead(attributes), PgtContent(attributes, pgtIou), pgtIou,
              ProxyContents(attributes, proxies), proxies);
  }

  /** The parts of a result are equal when the results are. */
  lemma Assembled(read: string, user: string, attributes: seq<Attribute>, record: Option<map<string, seq<string>>>,
                  ticket: Option<string>, pgtIou: Option<string>, contents: seq<string>, proxies: seq<string>)
    requires Distinct(attributes) && (|attributes| == 0 ==> record == Some(map[]))
    ensures Assemble(read, record, ticket, contents) == Printed(user, attributes, pgtIou, proxies) <==>
            && read == user
            && record == Some(Record(attributes))
            && (if ticket.None? then None else Some(Read(ticket.value))) == pgtIou
            && (if |contents| == 0 then None else Some(ReadAll(contents))) ==
               (if |proxies| == 0 then None else Some(proxies))
  {
    assert |attributes| > 0 ==> attributes[0].key in Record(attributes);
    assert |attributes| == 0 ==> Record(attributes) == map[];
  }

  /** A key that needs escaping does not come back. */
  lemma EscapedKeyLost(user: string)
    ensures var attributes := [Attribute("a&b", ["x"])];
            Parse(Render(Response(user, attributes, None, []))) != Printed(user, attributes, None, [])
  {
    var attributes := [Attribute("a&b", ["x"])];
    assert attributes[0].key[1] == '&' && '&' in SPECIAL;
    assert !EscapeFree(attributes[0].key);
    RoundTrip(user, attributes, None, []);
  }
}
