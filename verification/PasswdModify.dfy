/**
 * The PasswdModify request of section 2 of RFC 3062, built by hand (packages/lib-ldap/src/ldap-connection.ts) and read
 * by the directory of the tests (packages/lib-ldap/src/__tests__/test-ldap-server.ts). Every length is written in one
 * byte, modulo 256, whatever the length; section 8.1.3 of X.690 allows this below 128 only.
 */
module PasswdModify {
  import opened Wrappers
  import opened Numbers

  type Octets = seq<Byte>

  datatype Fields = Fields(userIdentity: Option<Octets>, oldPasswd: Option<Octets>, newPasswd: Option<Octets>)

  const EMPTY := Fields(None, None, None)

  // ---------------------------------------------------------------- building

  /** A tag, the length in one byte as `Buffer.from` keeps it, and the content. */
  function Element(tag: Byte, content: Octets): Octets {
    [tag, |content| % 256] + content
  }

  /** The elements of the request; an empty old password is left out. */
  function Inner(dn: Octets, newPassword: Octets, oldPassword: Octets): Octets {
    Element(0x80, dn) + ((if oldPassword != [] then Element(0x81, oldPassword) else []) + Element(0x82, newPassword))
  }

  function Request(dn: Octets, newPassword: Octets, oldPassword: Octets): Octets {
    Element(0x30, Inner(dn, newPassword, oldPassword))
  }

  /** The first part of `modifyPasswordExtended` */
  method BuildRequest(dn: Octets, newPassword: Octets, oldPassword: Octets) returns (requestValue: Octets)
    ensures requestValue == Request(dn, newPassword, oldPassword)
  {
    var requestParts: seq<Octets> := [];
    requestParts := requestParts + [[0x80, |dn| % 256], dn];
    if oldPassword != [] {
      requestParts := requestParts + [[0x81, |oldPassword| % 256], oldPassword];
    }
    requestParts := requestParts + [[0x82, |newPassword| % 256], newPassword];
    var innerContent := [];
    for i := 0 to |requestParts|
      invariant innerContent == Concat(requestParts[..i])
    {
      assert requestParts[..i + 1][..i] == requestParts[..i];
      innerContent := innerContent + requestParts[i];
    }
    assert requestParts[..|requestParts|] == requestParts;
    PartsJoined([0x80, |dn| % 256], dn, [0x81, |oldPassword| % 256], oldPassword, [0x82, |newPassword| % 256],
                newPassword);
    requestValue := [0x30, |innerContent| % 256] + innerContent;
  }

  /** `Buffer.concat` */
  function Concat(parts: seq<Octets>): Octets {
    if |parts| == 0 then [] else Concat(parts[..|parts| - 1]) + parts[|parts| - 1]
  }

  lemma PartsJoined(a: Octets, b: Octets, c: Octets, d: Octets, e: Octets, f: Octets)
    ensures Concat([] + [a, b] + [c, d] + [e, f]) == (a + b) + ((c + d) + (e + f))
    ensures Concat([] + [a, b] + [e, f]) == (a + b) + ([] + (e + f))
  {
    ConcatMore([a, b] + [c, d], e, f);
    ConcatMore([a, b], c, d);
    ConcatMore([], a, b);
    ConcatMore([a, b], e, f);
    assert [] + [a, b] == [a, b];
    assert Concat([]) == [];
    assert [] + a + b == a + b;
    assert [] + (e + f) == e + f;
  }

  lemma ConcatMore(parts: seq<Octets>, a: Octets, b: Octets)
    ensures Concat(parts + [a, b]) == Concat(parts) + (a + b)
  {
    assert (parts + [a, b])[..|parts| + 1] == parts + [a];
    assert (parts + [a])[..|parts|] == parts;
    assert Concat(parts) + a + b == Concat(parts) + (a + b);
  }

  // ---------------------------------------------------------------- reading

  function Set(f: Fields, tag: Byte, data: Octets): Fields {
    if tag == 0x80 then f.(userIdentity := Some(data))
    else if tag == 0x81 then f.(oldPasswd := Some(data))
    else if tag == 0x82 then f.(newPasswd := Some(data))
    else f
  }

  /** Later elements replace earlier ones. */
  function Override(a: Fields, b: Fields): Fields {
    Fields(if b.userIdentity.Some? then b.userIdentity else a.userIdentity,
           if b.oldPasswd.Some? then b.oldPasswd else a.oldPasswd,
           if b.newPasswd.Some? then b.newPasswd else a.newPasswd)
  }

  /** The content of the first element, cut off at the end of the buffer; empty when there is no length. */
  function Data(b: Octets): (data: Octets)
    requires |b| > 0
    ensures |data| <= 255 && |b| > 1 ==> |data| + 2 <= |b|
  {
    if |b| == 1 then [] else if 2 + b[1] <= |b| then b[2..2 + b[1]] else b[2..]
  }

  function After(b: Octets): (rest: Octets)
    requires |b| > 0
    ensures |rest| < |b| && |Data(b)| + |rest| + 2 <= |b| + 1
    ensures |b| > 1 ==> |Data(b)| + |rest| + 2 <= |b|
  {
    if |b| == 1 || 2 + b[1] > |b| then [] else b[2 + b[1]..]
  }

  /** The fields of a sequence of elements. */
  function Elements(b: Octets): Fields
    decreases |b|
  {
    if |b| == 0 then EMPTY else Override(Set(EMPTY, b[0], Data(b)), Elements(After(b)))
  }

  /** Where the elements start: behind a sequence tag and what is taken for its length. */
  function Start(value: Octets): nat {
    if |value| == 0 || value[0] != 0x30 then 0
    else if |value| == 1 then 2
    else if value[1] < 128 then 2
    else 2 + value[1] % 128
  }

  function From(b: Octets, offset: nat): Octets {
    if offset <= |b| then b[offset..] else []
  }

  function Parse(value: Octets): Fields {
    Elements(From(value, Start(value)))
  }

  /** `value.slice(start, start + length)` */
  function Slice(value: Octets, start: nat, length: nat): Octets {
    if start + length <= |value| then value[start..start + length] else From(value, start)
  }

  lemma SetThen(f: Fields, tag: Byte, data: Octets, more: Fields)
    ensures Override(f, Override(Set(EMPTY, tag, data), more)) == Override(Set(f, tag, data), more)
  {
  }

  /** The data and the next offset, as the loop computes them. */
  lemma NextElement(value: Octets, offset: nat)
    requires offset + 1 < |value|
    ensures var b, start, length := From(value, offset), offset + 2, value[offset + 1];
            && |b| > 1 && b[0] == value[offset]
            && Data(b) == Slice(value, start, length)
            && After(b) == From(value, start + length)
  {
    var b := From(value, offset);
    assert b[1] == value[offset + 1];
  }

  /** What has been read and what is still to be read make the whole result. */
  ghost predicate Reading(value: Octets, offset: nat, result: Fields, whole: Fields) {
    Override(result, Elements(From(value, offset))) == whole
  }

  lemma ReadStep(value: Octets, offset: nat, result: Fields, whole: Fields)
    requires offset + 1 < |value| && Reading(value, offset, result, whole)
    ensures var start, length := offset + 2, value[offset + 1];
            Reading(value, start + length, Set(result, value[offset], Slice(value, start, length)), whole)
  {
    var b := From(value, offset);
    NextElement(value, offset);
    SetThen(result, value[offset], Data(b), Elements(After(b)));
  }

  lemma ReadLastTag(value: Octets, offset: nat, result: Fields, whole: Fields)
    requires offset + 1 == |value| && Reading(value, offset, result, whole)
    ensures Set(result, value[offset], []) == whole
  {
    assert From(value, offset) == [value[offset]];
    assert Elements([]) == EMPTY;
    SetThen(result, value[offset], [], EMPTY);
  }

  lemma ReadAll(value: Octets, offset: nat, result: Fields, whole: Fields)
    requires offset >= |value| && Reading(value, offset, result, whole)
    ensures result == whole
  {
    assert From(value, offset) == [];
  }

  /** The start of `parsePasswdModifyRequest` */
  method SkipSequence(value: Octets) returns (offset: nat)
    ensures offset == Start(value)
  {
    offset := 0;
    if |value| > 0 && value[0] == 0x30 {
      offset := 1;
      if |value| > 1 && value[1] < 128 {
        offset := offset + 1;
      } else {
        var lenBytes := if |value| > 1 then value[1] % 128 else 0;
        offset := offset + 1 + lenBytes;
      }
    }
  }

  /** The result and the offset after one element; without a length the offset is no number and the loop ends. */
  function AfterElement(value: Octets, offset: nat, f: Fields): (next: (Fields, nat))
    requires offset < |value|
    ensures next.1 > offset
  {
    if offset + 1 == |value| then (Set(f, value[offset], []), |value|)
    else (Set(f, value[offset], Slice(value, offset + 2, value[offset + 1])), offset + 2 + value[offset + 1])
  }

  lemma AfterLast(value: Octets, offset: nat, f: Fields)
    requires offset + 1 == |value|
    ensures AfterElement(value, offset, f) == (Set(f, value[offset], []), |value|)
  {
  }

  lemma AfterOther(value: Octets, offset: nat, f: Fields)
    requires offset + 1 < |value|
    ensures AfterElement(value, offset, f) ==
            (Set(f, value[offset], Slice(value, offset + 2, value[offset + 1])), offset + 2 + value[offset + 1])
  {
  }

  lemma Finished(value: Octets, result: Fields, whole: Fields)
    requires result == whole
    ensures Reading(value, |value|, result, whole)
  {
    assert From(value, |value|) == [];
  }

  lemma LastReads(value: Octets, offset: nat, f: Fields, whole: Fields, next: (Fields, nat))
    requires offset + 1 == |value| && Reading(value, offset, f, whole) && next == AfterElement(value, offset, f)
    ensures Reading(value, next.1, next.0, whole)
  {
    AfterLast(value, offset, f);
    ReadLastTag(value, offset, f, whole);
    Finished(value, next.0, whole);
  }

  lemma OtherReads(value: Octets, offset: nat, f: Fields, whole: Fields, result: Fields, end: nat)
    requires offset + 1 < |value| && Reading(value, offset, f, whole)
    requires result == Set(f, value[offset], Slice(value, offset + 2, value[offset + 1]))
    requires end == offset + 2 + value[offset + 1]
    ensures Reading(value, end, result, whole)
  {
    ReadStep(value, offset, f, whole);
  }

  lemma AfterReads(value: Octets, offset: nat, f: Fields, whole: Fields, next: (Fields, nat))
    requires offset < |value| && Reading(value, offset, f, whole) && next == AfterElement(value, offset, f)
    ensures Reading(value, next.1, next.0, whole)
  {
    if offset + 1 == |value| {
      LastReads(value, offset, f, whole, next);
    } else {
      AfterOther(value, offset, f);
      OtherReads(value, offset, f, whole, next.0, next.1);
    }
  }

  /** The body of the loop of `parsePasswdModifyRequest` */
  method ReadElement(value: Octets, offset: nat, before: Fields) returns (result: Fields, next: nat)
    requires offset < |value|
    ensures (result, next) == AfterElement(value, offset, before)
  {
    result, next := before, offset;
    var tag := value[next];
    next := next + 1;
    if next == |value| {
      return Set(result, tag, []), next;
    }
    var length := value[next];
    next := next + 1;
    result := Set(result, tag, Slice(value, next, length));
    next := next + length;
  }

  /** The loop of `parsePasswdModifyRequest` */
  method ReadElements(value: Octets, start: nat, ghost whole: Fields) returns (result: Fields)
    requires Reading(value, start, EMPTY, whole)
    ensures result == whole
  {
    result := EMPTY;
    var offset := start;
    while offset < |value|
      invariant Reading(value, offset, result, whole)
      decreases |value| - offset
    {
      AfterReads(value, offset, result, whole, AfterElement(value, offset, result));
      result, offset := ReadElement(value, offset, result);
    }
    ReadAll(value, offset, result, whole);
  }

  /** `parsePasswdModifyRequest`, on every buffer */
  method ParseRequest(value: Octets) returns (result: Fields)
    ensures result == Parse(value)
  {
    var offset := SkipSequence(value);
    result := ReadElements(value, offset, Parse(value));
  }

  // ---------------------------------------------------------------- the round trip

  lemma ElementRead(tag: Byte, content: Octets, more: Octets)
    requires |content| <= 255
    ensures Elements(Element(tag, content) + more) == Override(Set(EMPTY, tag, content), Elements(more))
  {
    var b := Element(tag, content) + more;
    assert Data(b) == content && After(b) == more;
  }

  function Expected(dn: Octets, newPassword: Octets, oldPassword: Octets): Fields {
    Fields(Some(dn), if oldPassword == [] then None else Some(oldPassword), Some(newPassword))
  }

  predicate Short(dn: Octets, newPassword: Octets, oldPassword: Octets) {
    |dn| <= 255 && |newPassword| <= 255 && |oldPassword| <= 255
  }

  lemma InnerRead(dn: Octets, newPassword: Octets, oldPassword: Octets)
    requires Short(dn, newPassword, oldPassword)
    ensures Elements(Inner(dn, newPassword, oldPassword)) == Expected(dn, newPassword, oldPassword)
  {
    var last := Element(0x82, newPassword);
    assert last + [] == last;
    ElementRead(0x82, newPassword, []);
    if oldPassword == [] {
      assert [] + last == last;
      ElementRead(0x80, dn, last);
    } else {
      ElementRead(0x81, oldPassword, last);
      ElementRead(0x80, dn, Element(0x81, oldPassword) + last);
    }
  }

  // ---------------------------------------------------------------- why nothing else works

  predicate ShortField(data: Option<Octets>) {
    data.Some? ==> |data.value| <= 255
  }

  lemma DataShort(b: Octets)
    requires |b| > 0
    ensures |Data(b)| <= 255
  {
  }

  /** No field is longer than a length byte can say. */
  lemma {:induction false} FieldsShort(b: Octets)
    ensures var f := Elements(b); ShortField(f.userIdentity) && ShortField(f.oldPasswd) && ShortField(f.newPasswd)
    decreases |b|
  {
    if |b| > 0 {
      DataShort(b);
      FieldsShort(After(b));
    }
  }

  /** The bytes that a field takes in a buffer; with `least` as what an empty one takes. */
  function Cost(data: Option<Octets>, least: nat): nat {
    if data.None? then 0 else if data.value == [] then least else 2 + |data.value|
  }

  function Costs(f: Fields, least: nat): nat {
    Cost(f.userIdentity, least) + Cost(f.oldPasswd, least) + Cost(f.newPasswd, least)
  }

  predicate FieldTag(n: Byte) {
    0x80 <= n <= 0x82
  }

  lemma OverrideCosts(a: Fields, b: Fields, least: nat)
    ensures Costs(Override(a, b), least) <= Costs(a, least) + Costs(b, least)
  {
  }

  lemma SetCosts(tag: Byte, data: Octets, least: nat)
    ensures Costs(Set(EMPTY, tag, data), least) == if FieldTag(tag) then Cost(Some(data), least) else 0
  {
  }

  /** The fields that are not empty fit in the buffer. */
  lemma {:induction false} CostsFit(b: Octets)
    ensures Costs(Elements(b), 0) <= |b|
    decreases |b|
  {
    if |b| > 0 {
      CostsFit(After(b));
      SetCosts(b[0], Data(b), 0);
      OverrideCosts(Set(EMPTY, b[0], Data(b)), Elements(After(b)), 0);
    }
  }

  lemma LastAfter(b: Octets)
    requires |b| > 0 && |After(b)| > 0
    ensures After(b)[|After(b)| - 1] == b[|b| - 1]
  {
  }

  /** All fields fit in the buffer, but for one byte when it ends in a tag. */
  lemma {:induction false} CostsFitTags(b: Octets)
    ensures Costs(Elements(b), 2) <= |b| + (if |b| > 0 && FieldTag(b[|b| - 1]) then 1 else 0)
    decreases |b|
  {
    if |b| > 0 {
      CostsFitTags(After(b));
      SetCosts(b[0], Data(b), 2);
      OverrideCosts(Set(EMPTY, b[0], Data(b)), Elements(After(b)), 2);
      if |After(b)| > 0 {
        LastAfter(b);
      }
    }
  }

  /** An unknown first tag wastes its element. */
  lemma UnknownFirst(b: Octets)
    requires |b| > 1 && !FieldTag(b[0])
    ensures Costs(Elements(b), 2) <= |b| - 1
  {
    CostsFitTags(After(b));
    SetCosts(b[0], Data(b), 2);
    OverrideCosts(Set(EMPTY, b[0], Data(b)), Elements(After(b)), 2);
  }

  lemma ExpectedCosts(dn: Octets, newPassword: Octets, oldPassword: Octets)
    ensures Costs(Expected(dn, newPassword, oldPassword), 2) == |Inner(dn, newPassword, oldPassword)|
    ensures dn != [] && newPassword != [] ==>
              Costs(Expected(dn, newPassword, oldPassword), 0) == |Inner(dn, newPassword, oldPassword)|
  {
  }

  lemma InnerEnds(dn: Octets, newPassword: Octets, oldPassword: Octets)
    ensures var b := Inner(dn, newPassword, oldPassword);
            && |b| >= 4 && b[1] == |dn| % 256 && (newPassword == [] ==> b[|b| - 1] == 0)
  {
  }

  lemma OneLess(b: Octets)
    requires |b| > 1
    ensures |From(b, 1)| == |b| - 1 && From(b, 1)[0] == b[1] && From(b, 1)[|b| - 2] == b[|b| - 1]
  {
  }

  /** Bytes that begin with an unknown tag, or end in none, do not hold fields that cost more. */
  lemma TooSmall(b: Octets, f: Fields)
    requires |b| > 1 && Costs(f, 2) == |b| + 1
    requires !FieldTag(b[0]) || !FieldTag(b[|b| - 1]) || Costs(f, 0) > |b|
    ensures Elements(b) != f
  {
    CostsFit(b);
    CostsFitTags(b);
    if !FieldTag(b[0]) {
      UnknownFirst(b);
    }
  }

  lemma OneLate(dn: Octets, newPassword: Octets, oldPassword: Octets)
    requires Short(dn, newPassword, oldPassword)
    ensures Elements(From(Inner(dn, newPassword, oldPassword), 1)) != Expected(dn, newPassword, oldPassword)
  {
    ExpectedCosts(dn, newPassword, oldPassword);
    InnerEnds(dn, newPassword, oldPassword);
    OneLess(Inner(dn, newPassword, oldPassword));
    TooSmall(From(Inner(dn, newPassword, oldPassword), 1), Expected(dn, newPassword, oldPassword));
  }

  /** Elements that start too late never give the fields. */
  lemma LateStart(dn: Octets, newPassword: Octets, oldPassword: Octets, skip: nat)
    requires Short(dn, newPassword, oldPassword) && skip > 0
    ensures Elements(From(Inner(dn, newPassword, oldPassword), skip)) != Expected(dn, newPassword, oldPassword)
  {
    if skip == 1 {
      OneLate(dn, newPassword, oldPassword);
    } else {
      ExpectedCosts(dn, newPassword, oldPassword);
      InnerEnds(dn, newPassword, oldPassword);
      CostsFitTags(From(Inner(dn, newPassword, oldPassword), skip));
    }
  }

  lemma RequestStart(dn: Octets, newPassword: Octets, oldPassword: Octets)
    ensures var inner := Inner(dn, newPassword, oldPassword);
            var length := |inner| % 256;
            Parse(Request(dn, newPassword, oldPassword)) ==
            Elements(From(inner, if length <= 128 then 0 else length - 128))
  {
    var inner := Inner(dn, newPassword, oldPassword);
    var value := Request(dn, newPassword, oldPassword);
    var length := |inner| % 256;
    assert value[1] == length && Start(value) == 2 + (if length <= 128 then 0 else length - 128);
    assert From(value, Start(value)) == From(inner, if length <= 128 then 0 else length - 128);
  }

  lemma LongField(dn: Octets, newPassword: Octets, oldPassword: Octets, b: Octets)
    requires !Short(dn, newPassword, oldPassword)
    ensures Elements(b) != Expected(dn, newPassword, oldPassword)
  {
    FieldsShort(b);
  }

  lemma InnerLength(dn: Octets, newPassword: Octets, oldPassword: Octets)
    ensures |Inner(dn, newPassword, oldPassword)| ==
            4 + |dn| + |newPassword| + if oldPassword == [] then 0 else 2 + |oldPassword|
  {
  }

  /** The bytes of the request. */
  lemma RequestBytes(dn: Octets, newPassword: Octets, oldPassword: Octets)
    ensures Request(dn, newPassword, oldPassword) ==
            if oldPassword == [] then
              [0x30, (4 + |dn| + |newPassword|) % 256] + [0x80, |dn| % 256] + dn + [0x82, |newPassword| % 256]
              + newPassword
            else
              [0x30, (6 + |dn| + |oldPassword| + |newPassword|) % 256] + [0x80, |dn| % 256] + dn
              + [0x81, |oldPassword| % 256] + oldPassword + [0x82, |newPassword| % 256] + newPassword
  {
    InnerLength(dn, newPassword, oldPassword);
    Joined([0x80, |dn| % 256], dn, [0x81, |oldPassword| % 256], oldPassword, [0x82, |newPassword| % 256], newPassword,
           [0x30, |Inner(dn, newPassword, oldPassword)| % 256]);
  }

  lemma Joined(a: Octets, b: Octets, c: Octets, d: Octets, e: Octets, f: Octets, first: Octets)
    ensures first + ((a + b) + ((c + d) + (e + f))) == first + a + b + c + d + e + f
    ensures first + ((a + b) + ([] + (e + f))) == first + a + b + e + f
  {
  }

  /** What is read when the length of the whole does or does not pass for a length of zero bytes. */
  lemma InnerReached(dn: Octets, newPassword: Octets, oldPassword: Octets, read: Fields)
    requires read == Parse(Request(dn, newPassword, oldPassword))
    ensures read == Expected(dn, newPassword, oldPassword) <==>
            Short(dn, newPassword, oldPassword) && |Inner(dn, newPassword, oldPassword)| % 256 <= 128
  {
    var inner := Inner(dn, newPassword, oldPassword);
    var skip := if |inner| % 256 <= 128 then 0 else |inner| % 256 - 128;
    RequestStart(dn, newPassword, oldPassword);
    if !Short(dn, newPassword, oldPassword) {
      LongField(dn, newPassword, oldPassword, From(inner, skip));
    } else if skip == 0 {
      assert From(inner, 0) == inner;
      InnerRead(dn, newPassword, oldPassword);
    } else {
      LateStart(dn, newPassword, oldPassword, skip);
    }
  }

  /** The same, of any fields read. */
  lemma ReadExactly(dn: Octets, newPassword: Octets, oldPassword: Octets, read: Fields, inner: nat)
    requires read == Expected(dn, newPassword, oldPassword) <==>
             Short(dn, newPassword, oldPassword) && inner % 256 <= 128
    requires inner == 4 + |dn| + |newPassword| + if oldPassword == [] then 0 else 2 + |oldPassword|
    ensures read == Fields(Some(dn), if oldPassword == [] then None else Some(oldPassword), Some(newPassword)) <==>
            && |dn| < 256 && |newPassword| < 256 && |oldPassword| < 256
            && (4 + |dn| + |newPassword| + if oldPassword == [] then 0 else 2 + |oldPassword|) % 256 <= 128
  {
  }

  /**
   * The request is read back exactly when each field fits its length byte and the whole passes for a length of zero
   * bytes.
   */
  lemma RoundTrip(dn: Octets, newPassword: Octets, oldPassword: Octets)
    ensures Parse(Request(dn, newPassword, oldPassword)) ==
            Fields(Some(dn), if oldPassword == [] then None else Some(oldPassword), Some(newPassword)) <==>
            && |dn| < 256 && |newPassword| < 256 && |oldPassword| < 256
            && (4 + |dn| + |newPassword| + if oldPassword == [] then 0 else 2 + |oldPassword|) % 256 <= 128
  {
    var read, inner := Parse(Request(dn, newPassword, oldPassword)), |Inner(dn, newPassword, oldPassword)|;
    InnerReached(dn, newPassword, oldPassword, read);
    InnerLength(dn, newPassword, oldPassword);
    ReadExactly(dn, newPassword, oldPassword, read, inner);
  }

  /** Requests with at most 127 bytes behind the length, as X.690 has them. */
  lemma ShortRequest(dn: Octets, newPassword: Octets, oldPassword: Octets)
    requires 4 + |dn| + |newPassword| + (if oldPassword == [] then 0 else 2 + |oldPassword|) <= 127
    ensures Parse(Request(dn, newPassword, oldPassword)) ==
            Fields(Some(dn), if oldPassword == [] then None else Some(oldPassword), Some(newPassword))
  {
    RoundTrip(dn, newPassword, oldPassword);
  }

  /** A name of 120 bytes and a password of five make a request of 129 bytes, which is not read back. */
  lemma LongRequestLost(dn: Octets, newPassword: Octets)
    requires |dn| == 120 && |newPassword| == 5
    ensures Parse(Request(dn, newPassword, [])) != Fields(Some(dn), None, Some(newPassword))
  {
    RoundTrip(dn, newPassword, []);
  }
}
