/** The function `t` of the graphical surfaces: a key, the values of its
    fields, and the text that reaches the screen. */
module TextRuntime {
  import opened Text
  import opened Templates
  import opened Escaping

  // ── What the installation window does about a field nobody filled

  predicate UnfilledHere(s: string) {
    s != [] &&
    (|| (s[0] == '{' && (var n := Span(s[1..], IsNameStart); n > 0 && n + 1 < |s| && s[n + 1] == '}'))
     || (s[0] == '$' && |s| > 1 && s[1] == '{'))
  }

  predicate Unfilled(s: string) {
    s != [] && (UnfilledHere(s) || Unfilled(s[1..]))
  }

  /** What follows `{name` and the closing brace, if there is one. */
  function AfterBrace(s: string): (r: string)
    requires s != []
    ensures |r| < |s|
  {
    var rest := s[1 + Span(s[1..], IsNameStart)..];
    if rest != [] && rest[0] == '}' then rest[1..] else rest
  }

  function DropTemplates(s: string): string
    decreases |s|
  {
    if s == [] then []
    else if s[0] == '$' && |s| > 1 && s[1] == '{' then DropTemplates(AfterBrace(s[1..]))
    else if s[0] == '{' then DropTemplates(AfterBrace(s))
    else [s[0]] + DropTemplates(s[1..])
  }

  type Entries = map<string, seq<string>>

  /** The text of one language with its fields filled. */
  function Filled(texts: seq<string>, lang: nat, names: seq<string>, v: Values): string
    requires lang < |texts|
    requires forall n :: n in names ==> n in v
  {
    FillInOrder(texts[lang], names, v)
  }

  /** The words on one screen of the installation window. */
  class Words {
    const entries: Entries
    var lang: nat
    var missing: seq<string>
    var unresolved: seq<string>

    constructor (entries: Entries)
      ensures this.entries == entries && lang == 0 && missing == [] && unresolved == []
    {
      this.entries := entries;
      lang, missing, unresolved := 0, [], [];
    }

    /** `t(key, values)`; `names` are the keys of the values, in their order. */
    method T(key: string, names: seq<string>, v: Values) returns (html: string)
      requires key in entries ==> lang < |entries[key]|
      requires forall n :: n in names ==> n in v
      modifies this`missing, this`unresolved
      ensures OnlyText(html)
      ensures key !in entries ==> ReadEntities(html) == key
      ensures key in entries ==>
                var s := Filled(entries[key], lang, names, v);
                ReadEntities(html) == if Unfilled(s) then DropTemplates(s) else s
      ensures key !in entries ==>
                html == Escape(key) && missing == old(missing) + [key] && unresolved == old(unresolved)
      ensures key in entries ==>
                var s := Filled(entries[key], lang, names, v);
                && missing == old(missing)
                && (Unfilled(s) ==> html == Escape(DropTemplates(s)) && unresolved == old(unresolved) + [key])
                && (!Unfilled(s) ==> html == Escape(s) && unresolved == old(unresolved))
    {
      if key !in entries {
        missing := missing + [key];
        EscapedIsText(key);
        return Escape(key);
      }
      var s := entries[key][lang];
      var i := 0;
      while i < |names|
        invariant 0 <= i <= |names|
        invariant FillInOrder(s, names[i..], v) == Filled(entries[key], lang, names, v)
      {
        s := ReplaceAll(s, Pattern(names[i]), v[names[i]]);
        assert names[i..][1..] == names[i + 1..];
        i := i + 1;
      }
      if Unfilled(s) {
        unresolved := unresolved + [key];
        s := DropTemplates(s);
      }
      EscapedIsText(s);
      html := Escape(s);
    }
  }

  // ── The Installer of servers: the text is escaped first, and a value may be
  //    markup already

  datatype Cell = Plain(text: string) | Markup(html: string)

  function Shown(x: Cell): string {
    match x
    case Plain(text) => Escape(text)
    case Markup(html) => html
  }

  type Cells = map<string, Cell>

  function ShownCells(v: Cells): Values {
    map n | n in v :: Shown(v[n])
  }

  method RenderMarkup(texts: seq<string>, lang: nat, names: seq<string>, v: Cells) returns (html: string)
    requires lang < |texts|
    requires forall n :: n in names ==> n in v
    ensures html == FillInOrder(Escape(texts[lang]), names, ShownCells(v))
  {
    html := Escape(texts[lang]);
    var i := 0;
    while i < |names|
      invariant 0 <= i <= |names|
      invariant FillInOrder(html, names[i..], ShownCells(v)) == FillInOrder(Escape(texts[lang]), names, ShownCells(v))
    {
      html := ReplaceAll(html, Pattern(names[i]), Shown(v[names[i]]));
      assert names[i..][1..] == names[i + 1..];
      i := i + 1;
    }
  }

  // ── Escaping touches no brace

  lemma {:induction false} EscapeKeepsPlain(s: string)
    requires NoOpen(s)
    ensures NoOpen(Escape(s))
  {
    if s != [] { EscapeKeepsPlain(s[1..]); }
  }

  lemma {:induction false} EscapeAppends(a: string, b: string)
    ensures Escape(a + b) == Escape(a) + Escape(b)
  {
    if a == [] {
      assert a + b == b;
    } else {
      assert (a + b)[0] == a[0] && (a + b)[1..] == a[1..] + b;
      EscapeAppends(a[1..], b);
    }
  }

  lemma {:induction false} EscapeName(name: string)
    requires forall i :: 0 <= i < |name| ==> IsNameChar(name[i]) || name[i] == '{' || name[i] == '}'
    ensures Escape(name) == name
  {
    if name != [] { EscapeName(name[1..]); }
  }

  lemma EscapeAtField(s: string, name: string)
    requires FieldAt(s) == Some(name)
    ensures var rest := Escape(s[|name| + 2..]);
            && Escape(s) == Pattern(name) + rest
            && FieldAt(Escape(s)) == Some(name) && Escape(s)[|name| + 2..] == rest
  {
    NameIsRead(s);
    hide FieldAt;
    var rest := s[|name| + 2..];
    assert s == s[..|name| + 2] + rest == Pattern(name) + rest;
    EscapeAppends(Pattern(name), rest);
    EscapeName(Pattern(name));
    FieldHere(name, Escape(rest));
  }

  /** What an escaped text starts with, if no escape, the text itself starts with. */
  lemma {:induction false} EscapeStartsAsText(s: string, p: string)
    requires StartsWith(Escape(s), p) && forall i :: 0 <= i < |p| ==> p[i] != '&'
    ensures StartsWith(s, p)
  {
    if p != [] {
      assert Escape(s)[0] == p[0] by { assert Escape(s)[..|p|][0] == p[0]; }
      assert s != [] && EscapeChar(s[0]) == [s[0]];
      assert Escape(s) == [s[0]] + Escape(s[1..]);
      assert p == [p[0]] + p[1..] && Escape(s)[..|p|][1..] == Escape(s[1..])[..|p| - 1];
      EscapeStartsAsText(s[1..], p[1..]);
      assert s[..|p|] == [s[0]] + s[1..][..|p| - 1];
    }
  }

  lemma EscapeMakesNoField(s: string)
    requires s != [] && s[0] == '{' && FieldAt(s).None?
    ensures Escape(s) == "{" + Escape(s[1..]) && FieldAt(Escape(s)).None?
  {
    hide FieldAt, Escape;
    var e := Escape(s);
    assert e == "{" + Escape(s[1..]) by { EscapeOpens(s); }
    match FieldAt(e)
    case None =>
    case Some(name) =>
      NameIsRead(e);
      PatternHasNoEscape(name);
      EscapeStartsAsText(s, Pattern(name));
      assert s == Pattern(name) + s[|Pattern(name)|..];
      FieldHere(name, s[|Pattern(name)|..]);
  }

  lemma EscapeOpens(s: string)
    requires s != [] && s[0] == '{'
    ensures Escape(s) == "{" + Escape(s[1..])
  {
  }

  lemma PatternHasNoEscape(name: string)
    requires IsName(name)
    ensures forall i :: 0 <= i < |Pattern(name)| ==> Pattern(name)[i] != '&'
  {
  }

  /** Escaping keeps the fields of a text and braces outside them. */
  lemma {:induction false} EscapeKeepsFields(s: string)
    ensures WellBraced(Escape(s)) == WellBraced(s) && Fields(Escape(s)) == Fields(s)
  {
    hide FieldAt;
    if s != [] {
      match FieldAt(s)
      case Some(name) =>
        EscapeAtField(s, name);
        EscapeKeepsFields(s[|name| + 2..]);
      case None =>
        EscapeKeepsFields(s[1..]);
        EscapeAtText(s);
    }
  }

  lemma EscapeAtText(s: string)
    requires s != [] && FieldAt(s).None?
    ensures WellBraced(Escape(s)) == (s[0] != '{' && WellBraced(Escape(s[1..])))
    ensures Fields(Escape(s)) == Fields(Escape(s[1..]))
  {
    hide FieldAt, Escape, EscapeChar;
    if s[0] == '{' {
      EscapeMakesNoField(s);
      assert Escape(s)[1..] == Escape(s[1..]);
    } else {
      EscapeFirst(s);
      EscapeOpensNothing(s[0]);
      PlainPrefix(EscapeChar(s[0]), Escape(s[1..]));
    }
  }

  lemma EscapeOpensNothing(c: char)
    requires c != '{'
    ensures NoOpen(EscapeChar(c))
  {
  }

  lemma {:induction false} NothingUnfilled(s: string)
    requires NoOpen(s)
    ensures !Unfilled(s)
  {
    if s != [] { NothingUnfilled(s[1..]); }
  }

  /** Whatever is dropped, no brace is left to be seen. */
  lemma {:induction false} DroppedIsPlain(s: string)
    ensures NoOpen(DropTemplates(s))
    decreases |s|
  {
    if s != [] {
      if s[0] == '$' && |s| > 1 && s[1] == '{' { DroppedIsPlain(AfterBrace(s[1..])); }
      else if s[0] == '{' { DroppedIsPlain(AfterBrace(s)); }
      else { DroppedIsPlain(s[1..]); }
    }
  }

  // ── What a text and its values must be for nothing to stay unfilled

  /** The names an object literal supplies. */
  ghost predicate Supplies(names: seq<string>, v: Values) {
    && Distinct(names) && PlainValues(v)
    && (forall n :: n in names <==> n in v)
    && (forall n :: n in v ==> NoBrace(n))
  }

  /** A text the guard accepts comes out whole exactly when every field of it
      has a value. */
  lemma FilledIsPlain(s: string, names: seq<string>, v: Values)
    requires !BadTemplate(s) && Supplies(names, v)
    ensures FillInOrder(s, names, v) == Fill(s, v)
    ensures NoOpen(FillInOrder(s, names, v)) <==> Fields(s) <= v.Keys
    ensures Fields(s) <= v.Keys ==>
              !Unfilled(FillInOrder(s, names, v)) && NoOpen(Escape(FillInOrder(s, names, v)))
  {
    CleanIsWellBraced(s);
    OrderDoesNotMatter(s, names, v);
    LeftUnfilled(s, v);
    if Fields(s) <= v.Keys {
      NothingUnfilled(Fill(s, v));
      EscapeKeepsPlain(Fill(s, v));
    }
  }

  lemma FilledMarkupIsPlain(s: string, names: seq<string>, v: Values)
    requires !BadTemplate(s) && Supplies(names, v)
    ensures FillInOrder(Escape(s), names, v) == Fill(Escape(s), v)
    ensures NoOpen(FillInOrder(Escape(s), names, v)) <==> Fields(s) <= v.Keys
  {
    CleanIsWellBraced(s);
    EscapeKeepsFields(s);
    FillNothing(Escape(s));
    FillTheRest(Escape(s), map[], names, v);
    assert map[] + Only(v, set n | n in names) == v;
    LeftUnfilled(Escape(s), v);
  }

  // ── What reaches the page

  /** A plain value reaches the page as text, and reads as itself. */
  lemma PlainIsText(text: string)
    ensures OnlyText(Shown(Plain(text))) && ReadEntities(Shown(Plain(text))) == text
  {
    EscapedIsText(text);
  }

  /** Nothing to escape. */
  predicate Unescaped(s: string) {
    forall i :: 0 <= i < |s| ==> s[i] != '&' && s[i] != '<' && s[i] != '>' && s[i] != '"'
  }

  lemma {:induction false} UnescapedStays(s: string)
    requires Unescaped(s)
    ensures Escape(s) == s
  {
    if s != [] { UnescapedStays(s[1..]); }
  }

  /** Filling an escaped text with an escaped value is escaping the text filled. */
  lemma {:induction false} EscapingFills(s: string, name: string, value: string)
    requires Unescaped(name)
    ensures ReplaceAll(Escape(s), Pattern(name), Escape(value)) == Escape(ReplaceAll(s, Pattern(name), value))
    decreases |s|
  {
    hide EscapeChar, Escape, ReplaceAll;
    var p := Pattern(name);
    if s == [] {
      NothingEscaped();
      NothingToReplace(name, Escape(value));
      NothingToReplace(name, value);
    } else if StartsWith(s, p) {
      var rest := s[|p|..];
      assert s == p + rest;
      UnescapedStays(p);
      EscapeAppends(p, rest);
      EscapingFills(rest, name, value);
      EscapeAppends(value, ReplaceAll(rest, p, value));
      ReplaceHere(s, name, value);
      ReplaceHere(Escape(s), name, Escape(value));
      assert Escape(s)[..|p|] == p && Escape(s)[|p|..] == Escape(rest);
    } else {
      EscapingFills(s[1..], name, value);
      ReplaceHere(s, name, value);
      EscapeFirst(s);
      EscapeFirst([s[0]] + ReplaceAll(s[1..], p, value));
      EscapingSkips(s, name, value);
    }
  }

  lemma EscapingSkips(s: string, name: string, value: string)
    requires Unescaped(name) && s != [] && !StartsWith(s, Pattern(name))
    ensures ReplaceAll(Escape(s), Pattern(name), Escape(value))
         == EscapeChar(s[0]) + ReplaceAll(Escape(s[1..]), Pattern(name), Escape(value))
  {
    hide Escape, ReplaceAll;
    var rest := Escape(s[1..]);
    EscapeFirst(s);
    if s[0] == '{' {
      if StartsWith(Escape(s), Pattern(name)) { EscapeStartsAsText(s, Pattern(name)); }
      assert EscapeChar('{') == "{" && ("{" + rest)[1..] == rest;
      ReplaceHere(Escape(s), name, Escape(value));
    } else {
      ReplaceSkips(EscapeChar(s[0]), rest, name, Escape(value));
    }
  }

  lemma EscapeFirst(s: string)
    requires s != []
    ensures Escape(s) == EscapeChar(s[0]) + Escape(s[1..])
  {
  }

  lemma NothingEscaped()
    ensures Escape([]) == []
  {
  }

  /** The values of cells that are all plain. */
  function Texts(v: Cells): Values
    requires forall n :: n in v ==> v[n].Plain?
  {
    map n | n in v :: v[n].text
  }

  /** With plain values only, escaping first and filling then is filling first and
      escaping then: what reaches the page is text, and reads as the text filled. */
  lemma {:induction false} PlainCellsAreText(s: string, names: seq<string>, v: Cells)
    requires (forall n :: n in v ==> v[n].Plain?) && forall n :: n in names ==> n in v && Unescaped(n)
    ensures var html := FillInOrder(Escape(s), names, ShownCells(v));
      && html == Escape(FillInOrder(s, names, Texts(v)))
      && OnlyText(html) && ReadEntities(html) == FillInOrder(s, names, Texts(v))
    decreases |names|
  {
    hide ReplaceAll, Escape;
    if names == [] {
      EscapedIsText(s);
    } else {
      var n := names[0];
      EscapingFills(s, n, v[n].text);
      PlainCellsAreText(ReplaceAll(s, Pattern(n), v[n].text), names[1..], v);
    }
  }

  /** Whatever the values, a character of markup on the page comes from a value that
      is markup already. */
  lemma {:induction false} OnlyMarkupBrings(html: string, names: seq<string>, v: Cells, c: char)
    requires c == '<' || c == '>' || c == '"'
    requires c !in html && forall n :: n in names ==> n in v && (v[n].Markup? ==> c !in v[n].html)
    ensures c !in FillInOrder(html, names, ShownCells(v))
    decreases |names|
  {
    hide ReplaceAll, Escape;
    if names != [] {
      var n := names[0];
      if v[n].Plain? { EscapedIsText(v[n].text); }
      assert c !in Shown(v[n]);
      ReplacedBringsNone(html, Pattern(n), Shown(v[n]), c);
      OnlyMarkupBrings(ReplaceAll(html, Pattern(n), Shown(v[n])), names[1..], v, c);
    }
  }

  lemma {:induction false} ReplacedBringsNone(s: string, p: string, value: string, c: char)
    requires p != [] && c !in s && c !in value
    ensures c !in ReplaceAll(s, p, value)
  {
    if s != [] {
      if StartsWith(s, p) { ReplacedBringsNone(s[|p|..], p, value, c); } else { ReplacedBringsNone(s[1..], p, value, c); }
    }
  }

  // ── What is dropped, and when

  predicate Lower(c: char) { 97 <= c as int <= 122 || c as int == 95 }

  predicate AllLower(name: string) { forall i :: 0 <= i < |name| ==> Lower(name[i]) }

  /** A dollar and a brace, or a brace, small letters and a brace, stand here. */
  ghost predicate TemplateAt(s: string, i: nat)
    requires i < |s|
  {
    StartsWith(s[i..], "${") || exists name: string :: name != [] && AllLower(name) && StartsWith(s[i..], "{" + name + "}")
  }

  lemma {:induction false} UnfilledExactly(s: string)
    ensures Unfilled(s) <==> exists i :: 0 <= i < |s| && TemplateAt(s, i)
  {
    hide UnfilledHere, TemplateAt;
    if s != [] {
      UnfilledExactly(s[1..]);
      TemplateHere(s);
      forall i | 0 < i < |s| ensures TemplateAt(s, i) <==> TemplateAt(s[1..], i - 1) { TemplateLater(s, i); }
      if i :| 0 <= i < |s[1..]| && TemplateAt(s[1..], i) { assert TemplateAt(s, i + 1); }
    }
  }

  lemma TemplateLater(s: string, i: nat)
    requires 0 < i < |s|
    ensures TemplateAt(s, i) <==> TemplateAt(s[1..], i - 1)
  {
    assert s[i..] == s[1..][i - 1..];
  }

  lemma SameLower(c: char)
    ensures IsNameStart(c) <==> Lower(c)
  {
  }

  lemma TemplateHere(s: string)
    requires s != []
    ensures UnfilledHere(s) <==> TemplateAt(s, 0)
  {
    hide IsNameStart, Lower;
    forall c: char ensures IsNameStart(c) <==> Lower(c) { SameLower(c); }
    assert s[0..] == s;
    assert StartsWith(s, "${") <==> |s| > 1 && s[0] == '$' && s[1] == '{';
    var n := Span(s[1..], IsNameStart);
    if s[0] == '{' && n > 0 && n + 1 < |s| && s[n + 1] == '}' {
      var name := s[1..][..n];
      assert s[..n + 2] == "{" + name + "}";
      assert AllLower(name);
    }
    if name: string :| name != [] && AllLower(name) && StartsWith(s, "{" + name + "}") {
      var t := "{" + name + "}";
      var rest := "}" + s[|t|..];
      assert s == t + s[|t|..] && s[1..] == name + rest;
      assert !IsNameStart('}') by { SameLower('}'); assert !Lower('}') by { BraceIsNoLetter(); } }
      SpanOf(name, rest, IsNameStart);
      assert s[n + 1] == t[n + 1];
    }
  }

  lemma BraceIsNoLetter()
    ensures !Lower('}') && !Lower('{')
  {
  }

  /** Text without an opening brace stays, up to a dollar before one. */
  lemma {:induction false} DropKeeps(a: string, rest: string)
    requires NoOpen(a)
    requires a != [] && rest != [] && rest[0] == '{' ==> a[|a| - 1] != '$'
    ensures DropTemplates(a + rest) == a + DropTemplates(rest)
  {
    hide DropTemplates;
    if a == [] {
      assert a + rest == rest;
    } else {
      var s := a + rest;
      assert s[0] == a[0] && s[1..] == a[1..] + rest;
      assert |s| > 1 && s[0] == '$' ==> s[1] != '{';
      DropKeeps(a[1..], rest);
      DropNothing(s);
      assert [a[0]] + (a[1..] + DropTemplates(rest)) == a + DropTemplates(rest);
    }
  }

  lemma DropNothing(s: string)
    requires s != [] && s[0] != '{' && (|s| > 1 && s[0] == '$' ==> s[1] != '{')
    ensures DropTemplates(s) == [s[0]] + DropTemplates(s[1..])
  {
  }

  /** A template goes whole: its dollar, its braces and its name, also when it is
      not closed. */
  lemma DropsTemplate(dollar: bool, name: string, closed: bool, rest: string)
    requires AllLower(name)
    requires !closed && rest != [] ==> !Lower(rest[0]) && rest[0] != '}'
    ensures var t := (if dollar then "$" else "") + ("{" + name) + (if closed then "}" else "");
            DropTemplates(t + rest) == DropTemplates(rest)
  {
    hide AfterBrace, Lower, DropTemplates;
    var after := (if closed then "}" else "") + rest;
    var braced := "{" + (name + after);
    BracedAfter(name, closed, rest);
    DropAtBrace(braced);
    DropAtDollar(braced);
    var t := (if dollar then "$" else "") + ("{" + name) + (if closed then "}" else "");
    assert t + rest == (if dollar then "$" else "") + braced;
    assert "" + braced == braced;
  }

  lemma BracedAfter(name: string, closed: bool, rest: string)
    requires AllLower(name)
    requires !closed && rest != [] ==> !Lower(rest[0]) && rest[0] != '}'
    ensures AfterBrace("{" + (name + ((if closed then "}" else "") + rest))) == rest
  {
    hide IsNameStart, Lower;
    forall c: char ensures IsNameStart(c) <==> Lower(c) { SameLower(c); }
    BraceIsNoLetter();
    var after := (if closed then "}" else "") + rest;
    var braced := "{" + (name + after);
    assert braced[1..] == name + after;
    SpanOf(name, after, IsNameStart);
    assert braced[1 + |name|..] == after;
    assert closed ==> after[1..] == rest;
    assert !closed ==> after == rest;
  }

  lemma DropAtBrace(s: string)
    requires s != [] && s[0] == '{'
    ensures DropTemplates(s) == DropTemplates(AfterBrace(s))
  {
    hide AfterBrace;
  }

  lemma DropAtDollar(s: string)
    requires s != [] && s[0] == '{'
    ensures DropTemplates("$" + s) == DropTemplates(AfterBrace(s))
  {
    hide AfterBrace;
    var d := "$" + s;
    assert d[0] == '$' && d[1] == '{' && d[1..] == s;
  }
}
