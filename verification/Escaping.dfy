/** Escaping for a page: what it leaves is text and nothing but text. */
module Escaping {
  import opened Text

  function EscapeChar(c: char): string {
    if c == '&' then "&amp;"
    else if c == '<' then "&lt;"
    else if c == '>' then "&gt;"
    else if c == '"' then "&quot;"
    else [c]
  }

  function Escape(s: string): string {
    if s == [] then [] else EscapeChar(s[0]) + Escape(s[1..])
  }

  /** The four entities, read back. */
  function ReadEntities(s: string): string {
    if s == [] then []
    else if StartsWith(s, "&amp;") then "&" + ReadEntities(s[5..])
    else if StartsWith(s, "&lt;") then "<" + ReadEntities(s[4..])
    else if StartsWith(s, "&gt;") then ">" + ReadEntities(s[4..])
    else if StartsWith(s, "&quot;") then "\"" + ReadEntities(s[6..])
    else [s[0]] + ReadEntities(s[1..])
  }

  predicate StartsEntity(s: string) {
    StartsWith(s, "&amp;") || StartsWith(s, "&lt;") || StartsWith(s, "&gt;") || StartsWith(s, "&quot;")
  }

  /** No character of markup, and no ampersand but those of the entities. */
  predicate OnlyText(s: string) {
    && (forall i :: 0 <= i < |s| ==> s[i] != '<' && s[i] != '>' && s[i] != '"')
    && (forall i :: 0 <= i < |s| && s[i] == '&' ==> StartsEntity(s[i..]))
  }

  /** What is escaped is only text, and reads as what it was. */
  lemma {:induction false} EscapedIsText(s: string)
    ensures OnlyText(Escape(s)) && ReadEntities(Escape(s)) == s
  {
    if s == [] {
    } else {
      hide OnlyText, ReadEntities, EscapeChar;
      EscapedIsText(s[1..]);
      OneMoreIsText(s[0], Escape(s[1..]));
      OneMoreIsRead(s[0], Escape(s[1..]));
    }
  }

  lemma OneMoreIsText(c: char, rest: string)
    requires OnlyText(rest)
    ensures OnlyText(EscapeChar(c) + rest)
  {
    hide StartsEntity;
    var e := EscapeChar(c);
    var s := e + rest;
    forall i | 0 <= i < |s| && s[i] == '&' ensures StartsEntity(s[i..]) {
      if i < |e| {
        assert i == 0 && s[0..] == s;
        EntityStarts(c, rest);
      } else {
        assert s[i..] == rest[i - |e|..];
      }
    }
  }

  lemma EntityStarts(c: char, rest: string)
    requires EscapeChar(c)[0] == '&'
    ensures StartsEntity(EscapeChar(c) + rest)
  {
    var e := EscapeChar(c);
    assert (e + rest)[..|e|] == e;
  }

  lemma OneMoreIsRead(c: char, rest: string)
    ensures ReadEntities(EscapeChar(c) + rest) == [c] + ReadEntities(rest)
  {
    hide ReadEntities;
    var e := EscapeChar(c);
    var s := e + rest;
    assert s[..|e|] == e && s[|e|..] == rest && s[0] == e[0];
    if e == [c] {
      assert s[1..] == rest;
      PlainIsRead(s);
    } else {
      assert s[1] == e[1];
      EntityIsRead(s);
    }
  }

  lemma PlainIsRead(s: string)
    requires s != [] && s[0] != '&'
    ensures ReadEntities(s) == [s[0]] + ReadEntities(s[1..])
  {
    NoEntity(s);
    hide StartsWith;
  }

  lemma NoEntity(s: string)
    requires s != [] && s[0] != '&'
    ensures !StartsWith(s, "&amp;") && !StartsWith(s, "&lt;") && !StartsWith(s, "&gt;") && !StartsWith(s, "&quot;")
  {
    OtherFirst(s, "&amp;");
    OtherFirst(s, "&lt;");
    OtherFirst(s, "&gt;");
    OtherFirst(s, "&quot;");
  }

  lemma OtherFirst(s: string, p: string)
    requires s != [] && p != [] && s[0] != p[0]
    ensures !StartsWith(s, p)
  {
    if |p| <= |s| { assert s[..|p|][0] == s[0]; }
  }

  lemma EntityIsRead(s: string)
    ensures StartsWith(s, "&amp;") ==> ReadEntities(s) == "&" + ReadEntities(s[5..])
    ensures StartsWith(s, "&lt;") ==> ReadEntities(s) == "<" + ReadEntities(s[4..])
    ensures StartsWith(s, "&gt;") ==> ReadEntities(s) == ">" + ReadEntities(s[4..])
    ensures StartsWith(s, "&quot;") ==> ReadEntities(s) == "\"" + ReadEntities(s[6..])
  {
    SecondLetter(s);
  }

  lemma SecondLetter(s: string)
    ensures StartsWith(s, "&amp;") ==> s[1] == 'a'
    ensures StartsWith(s, "&lt;") ==> s[1] == 'l'
    ensures StartsWith(s, "&gt;") ==> s[1] == 'g'
    ensures StartsWith(s, "&quot;") ==> s[1] == 'q'
  {
    if StartsWith(s, "&amp;") { assert s[..5][1] == 'a'; }
    if StartsWith(s, "&lt;") { assert s[..4][1] == 'l'; }
    if StartsWith(s, "&gt;") { assert s[..4][1] == 'g'; }
    if StartsWith(s, "&quot;") { assert s[..6][1] == 'q'; }
  }
}
