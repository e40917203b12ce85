/**
 * Escaping of XML text: five successive global replacements in each direction (packages/lib-cas/src/xml-builder.ts
 * and packages/lib-cas/src/xml-parser.ts).
 */
module XmlEscape {
  import opened Text

  function EscapeXml(s: string): string {
    ReplaceAll(ReplaceAll(ReplaceAll(ReplaceAll(ReplaceAll(s, "&", "&amp;"), "<", "&lt;"), ">", "&gt;"),
                          "\"", "&quot;"), "'", "&apos;")
  }

  function UnescapeXml(s: string): string {
    ReplaceAll(ReplaceAll(ReplaceAll(ReplaceAll(ReplaceAll(s, "&lt;", "<"), "&gt;", ">"), "&quot;", "\""),
                          "&apos;", "'"), "&amp;", "&")
  }

  /** The reference: every character is replaced at once and on its own. */
  function Entity(c: char): string {
    if c == '&' then "&amp;" else if c == '<' then "&lt;" else if c == '>' then "&gt;"
    else if c == '"' then "&quot;" else if c == '\'' then "&apos;" else [c]
  }

  function MapChars(f: char -> string, s: string): string {
    if |s| == 0 then "" else f(s[0]) + MapChars(f, s[1..])
  }

  // ---------------------------------------------------------------- escaping

  /** The characters escaped after `stage` of the five replacements. */
  function Escaped(stage: nat): char -> string {
    (c: char) =>
      if (c == '&' && stage >= 1) || (c == '<' && stage >= 2) || (c == '>' && stage >= 3)
         || (c == '"' && stage >= 4) || (c == '\'' && stage >= 5)
      then Entity(c) else [c]
  }

  const SPECIAL := "&<>\"'"

  lemma EscapeChar(c: char, rest: string, stage: nat, d: char)
    requires stage < 5 && d == SPECIAL[stage]
    ensures ReplaceAll(Escaped(stage)(c) + rest, [d], Entity(d)) ==
            Escaped(stage + 1)(c) + ReplaceAll(rest, [d], Entity(d))
  {
    if c == d {
      assert Escaped(stage)(c) == [d] && Escaped(stage + 1)(c) == Entity(d);
      ReplaceHere([d], rest, Entity(d));
    } else {
      assert Escaped(stage + 1)(c) == Escaped(stage)(c) && d !in Escaped(stage)(c);
      ReplaceSkip(Escaped(stage)(c), rest, [d], Entity(d));
    }
  }

  /** Each replacement does to the whole text what the mapping does to each character. */
  lemma {:induction false} EscapeStage(s: string, stage: nat, d: char)
    requires stage < 5 && d == SPECIAL[stage]
    ensures ReplaceAll(MapChars(Escaped(stage), s), [d], Entity(d)) == MapChars(Escaped(stage + 1), s)
    decreases |s|
  {
    if |s| > 0 {
      EscapeStage(s[1..], stage, d);
      EscapeChar(s[0], MapChars(Escaped(stage), s[1..]), stage, d);
    }
  }

  lemma {:induction false} MapSame(f: char -> string, g: char -> string, s: string)
    requires forall c :: f(c) == g(c)
    ensures MapChars(f, s) == MapChars(g, s)
  {
    if |s| > 0 {
      MapSame(f, g, s[1..]);
    }
  }

  lemma {:induction false} MapIdentity(f: char -> string, s: string)
    requires forall c :: f(c) == [c]
    ensures MapChars(f, s) == s
  {
    if |s| > 0 {
      MapIdentity(f, s[1..]);
      assert [s[0]] + s[1..] == s;
    }
  }

  lemma FirstReplacements(s: string)
    ensures ReplaceAll(ReplaceAll(s, "&", "&amp;"), "<", "&lt;") == MapChars(Escaped(2), s)
  {
    MapIdentity(Escaped(0), s);
    EscapeStage(s, 0, '&');
    EscapeStage(s, 1, '<');
  }

  lemma LastReplacements(s: string)
    ensures ReplaceAll(ReplaceAll(ReplaceAll(MapChars(Escaped(2), s), ">", "&gt;"), "\"", "&quot;"), "'", "&apos;")
            == MapChars(Entity, s)
  {
    EscapeStage(s, 2, '>');
    EscapeStage(s, 3, '"');
    EscapeStage(s, 4, '\'');
    MapSame(Escaped(5), Entity, s);
  }

  /** The five successive replacements are one simultaneous mapping. */
  lemma EscapeIsSimultaneous(s: string)
    ensures EscapeXml(s) == MapChars(Entity, s)
  {
    FirstReplacements(s);
    LastReplacements(s);
  }

  // ---------------------------------------------------------------- unescaping

  const UNESCAPE_ORDER := "<>\"'&"

  /** What is left of the entities after `stage` of the five replacements of `unescapeXml`. */
  function Unescaped(stage: nat): char -> string {
    (c: char) =>
      if (c == '<' && stage >= 1) || (c == '>' && stage >= 2) || (c == '"' && stage >= 3)
         || (c == '\'' && stage >= 4) || (c == '&' && stage >= 5)
      then [c] else Entity(c)
  }

  lemma EntitiesDiffer(c: char, d: char)
    requires c in SPECIAL && d in SPECIAL && c != d
    ensures |Entity(c)| > 3 && |Entity(d)| > 3
    ensures Entity(c)[1] != Entity(d)[1] || Entity(c)[2] != Entity(d)[2]
  {
  }

  /** The pattern of one entity does not match at another character's entity. */
  lemma NoOtherMatch(c: char, stage: nat, d: char, rest: string)
    requires stage < 5 && d == UNESCAPE_ORDER[stage] && c != d
    ensures !(Entity(d) <= Unescaped(stage)(c) + rest)
    ensures |Unescaped(stage)(c)| > 0 && '&' !in Unescaped(stage)(c)[1..]
  {
    var here := Unescaped(stage)(c) + rest;
    assert d in SPECIAL && Entity(d)[0] == '&' && |Entity(d)| > 3;
    if c in SPECIAL {
      EntitiesDiffer(c, d);
      if Unescaped(stage)(c) == Entity(c) {
        assert here[1] == Entity(c)[1] && here[2] == Entity(c)[2];
      } else {
        assert here[0] == c != '&';
      }
    } else {
      assert here[0] == c != '&';
    }
  }

  lemma UnescapeChar(c: char, rest: string, stage: nat, d: char)
    requires stage < 5 && d == UNESCAPE_ORDER[stage]
    ensures ReplaceAll(Unescaped(stage)(c) + rest, Entity(d), [d]) ==
            Unescaped(stage + 1)(c) + ReplaceAll(rest, Entity(d), [d])
  {
    if c == d {
      assert Unescaped(stage)(c) == Entity(d) && Unescaped(stage + 1)(c) == [d];
      ReplaceHere(Entity(d), rest, [d]);
    } else {
      NoOtherMatch(c, stage, d, rest);
      assert Unescaped(stage + 1)(c) == Unescaped(stage)(c);
      ReplaceToken(Unescaped(stage)(c), rest, Entity(d), [d]);
    }
  }

  /** Each replacement does to the whole text what the mapping does to each character. */
  lemma {:induction false} UnescapeStage(s: string, stage: nat, d: char)
    requires stage < 5 && d == UNESCAPE_ORDER[stage]
    ensures ReplaceAll(MapChars(Unescaped(stage), s), Entity(d), [d]) == MapChars(Unescaped(stage + 1), s)
    decreases |s|
  {
    if |s| > 0 {
      UnescapeStage(s[1..], stage, d);
      UnescapeChar(s[0], MapChars(Unescaped(stage), s[1..]), stage, d);
    }
  }

  lemma FirstEntities(s: string)
    ensures ReplaceAll(ReplaceAll(MapChars(Entity, s), "&lt;", "<"), "&gt;", ">") == MapChars(Unescaped(2), s)
  {
    MapSame(Entity, Unescaped(0), s);
    UnescapeStage(s, 0, '<');
    UnescapeStage(s, 1, '>');
  }

  lemma QuoteEntities(s: string)
    ensures ReplaceAll(ReplaceAll(MapChars(Unescaped(2), s), "&quot;", "\""), "&apos;", "'") ==
            MapChars(Unescaped(4), s)
  {
    UnescapeStage(s, 2, '"');
    UnescapeStage(s, 3, '\'');
  }

  lemma LastEntity(s: string)
    ensures ReplaceAll(MapChars(Unescaped(4), s), "&amp;", "&") == s
  {
    UnescapeStage(s, 4, '&');
    MapIdentity(Unescaped(5), s);
  }

  /** `unescapeXml` inverts `escapeXml` on every string, entity-like text included. */
  lemma UnescapeEscape(s: string)
    ensures UnescapeXml(EscapeXml(s)) == s
  {
    EscapeIsSimultaneous(s);
    FirstEntities(s);
    QuoteEntities(s);
    LastEntity(s);
  }
}
