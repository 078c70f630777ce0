/** Texts with `{name}` fields: what the guard reads in them, and how the
    interfaces fill them at run time, one field after another. */
module Templates {
  import opened Text

  predicate IsNameStart(c: char) { 'a' <= c <= 'z' || c == '_' }
  predicate IsNameChar(c: char) { IsNameStart(c) || '0' <= c <= '9' }

  /** How many characters at the front of `s` satisfy `p`. */
  function Span(s: string, p: char -> bool): (n: nat)
    ensures n <= |s|
    ensures forall i :: 0 <= i < n ==> p(s[i])
    ensures n < |s| ==> !p(s[n])
  {
    if s == [] || !p(s[0]) then 0 else 1 + Span(s[1..], p)
  }

  /** The name of the field that starts here, if one does. */
  function FieldAt(s: string): (name: Option<string>)
    ensures name.Some? ==>
              && name.value != [] && |name.value| + 2 <= |s|
              && s[..|name.value| + 2] == "{" + name.value + "}"
              && NoBrace(name.value)
  {
    if s == [] || s[0] != '{' || |s| < 2 || !IsNameStart(s[1]) then None
    else
      var n := Span(s[1..], IsNameChar);
      if n + 1 < |s| && s[n + 1] == '}' then
        assert s[1..n + 1] == s[1..][..n];
        assert s[..n + 2] == "{" + s[1..n + 1] + "}";
        Some(s[1..n + 1])
      else None
  }

  predicate NoOpen(s: string) { forall i :: 0 <= i < |s| ==> s[i] != '{' }
  predicate NoBrace(s: string) { forall i :: 0 <= i < |s| ==> s[i] != '{' && s[i] != '}' }

  /** The fields of a text, as a left-to-right scan finds them. */
  function Fields(s: string): set<string> {
    if s == [] then {}
    else
      match FieldAt(s)
      case Some(name) => {name} + Fields(s[|name| + 2..])
      case None => Fields(s[1..])
  }

  /** A form of template other than `{name}` starts here. */
  predicate BadHere(s: string) {
    s != [] &&
    (|| (s[0] == '$' && |s| > 1 && s[1] == '{')
     || (s[0] == '%' && |s| > 1 && s[1] in {'s', 'd'})
     || (s[0] == '{' && (var n := Span(s[1..], IsDigit); n > 0 && n + 1 < |s| && s[n + 1] == '}'))
     || (s[0] == '{' && |s| > 1 && s[1] == '{')
     || (s[0] == '}' && |s| > 1 && s[1] == '}')
     || (s[0] == '{' && FieldAt(s).None?))
  }

  predicate BadTemplate(s: string) {
    s != [] && (BadHere(s) || BadTemplate(s[1..]))
  }

  /** Every opening brace is the start of a field. */
  predicate WellBraced(s: string) {
    s == [] ||
    match FieldAt(s)
    case Some(name) => WellBraced(s[|name| + 2..])
    case None => s[0] != '{' && WellBraced(s[1..])
  }

  lemma {:induction false} BadOfTail(s: string, k: nat)
    requires k <= |s| && BadTemplate(s[k..])
    ensures BadTemplate(s)
  {
    if k > 0 {
      assert s[1..][k - 1..] == s[k..];
      BadOfTail(s[1..], k - 1);
    }
  }

  /** A text the guard accepts has no brace outside its fields. */
  lemma {:induction false} CleanIsWellBraced(s: string)
    requires !BadTemplate(s)
    ensures WellBraced(s)
  {
    hide FieldAt, BadHere;
    if s != [] {
      match FieldAt(s)
      case Some(name) =>
        CleanTail(s, |name| + 2);
        CleanIsWellBraced(s[|name| + 2..]);
      case None =>
        if s[0] == '{' { OpenIsBad(s); }
        CleanIsWellBraced(s[1..]);
    }
  }

  lemma CleanTail(s: string, k: nat)
    requires k <= |s| && !BadTemplate(s)
    ensures !BadTemplate(s[k..])
  {
    hide BadHere;
    if BadTemplate(s[k..]) { BadOfTail(s, k); }
  }

  lemma OpenIsBad(s: string)
    requires s != [] && s[0] == '{' && FieldAt(s).None?
    ensures BadHere(s)
  {
    hide FieldAt;
  }

  // ── Filling in

  /** `s.split(pattern).join(value)`. */
  function ReplaceAll(s: string, pattern: string, value: string): string
    requires pattern != []
  {
    if s == [] then []
    else if StartsWith(s, pattern) then value + ReplaceAll(s[|pattern|..], pattern, value)
    else [s[0]] + ReplaceAll(s[1..], pattern, value)
  }

  type Values = map<string, string>

  /** Every field that has a value is replaced by it, all at once. */
  function Fill(s: string, v: Values): string {
    if s == [] then []
    else
      match FieldAt(s)
      case Some(name) =>
        if name in v then v[name] + Fill(s[|name| + 2..], v) else [s[0]] + Fill(s[1..], v)
      case None => [s[0]] + Fill(s[1..], v)
  }

  function Pattern(name: string): string { "{" + name + "}" }

  /** One field at a time, in the order of the keys of the object. */
  function FillInOrder(s: string, names: seq<string>, v: Values): string
    requires forall n :: n in names ==> n in v
    decreases |names|
  {
    if names == [] then s
    else FillInOrder(ReplaceAll(s, Pattern(names[0]), v[names[0]]), names[1..], v)
  }

  function Only(v: Values, names: set<string>): Values {
    map n | n in v && n in names :: v[n]
  }

  predicate PlainValues(v: Values) {
    forall n :: n in v ==> NoOpen(v[n])
  }

  lemma {:induction false} ReplaceSkips(a: string, b: string, name: string, value: string)
    requires NoOpen(a)
    ensures ReplaceAll(a + b, Pattern(name), value) == a + ReplaceAll(b, Pattern(name), value)
  {
    if a == [] {
      assert a + b == b;
    } else {
      assert (a + b)[0] == a[0] && (a + b)[1..] == a[1..] + b;
      assert Pattern(name)[0] == '{';
      ReplaceSkips(a[1..], b, name, value);
    }
  }

  lemma SamePattern(name: string, other: string, rest: string)
    requires NoBrace(name) && NoBrace(other)
    ensures StartsWith(Pattern(name) + rest, Pattern(other)) <==> name == other
  {
    var s := Pattern(name) + rest;
    if StartsWith(s, Pattern(other)) {
      assert forall i :: 0 <= i < |Pattern(other)| ==> s[i] == Pattern(other)[i];
      assert s[|name| + 1] == '}' && Pattern(other)[|other| + 1] == '}';
      assert forall i :: 0 <= i < |name| ==> name[i] == s[i + 1] == Pattern(other)[i + 1] == other[i];
    }
    if name == other {
      assert s[..|Pattern(other)|] == Pattern(other);
    }
  }

  /** A field left alone is copied whole. */
  lemma {:induction false} FillCopies(a: string, s: string, v: Values)
    requires NoOpen(a)
    ensures Fill(a + s, v) == a + Fill(s, v)
  {
    if a == [] {
      assert a + s == s;
    } else {
      assert (a + s)[0] == a[0] && (a + s)[1..] == a[1..] + s;
      FillCopies(a[1..], s, v);
    }
  }

  lemma FillHere(s: string, v: Values)
    requires s != []
    ensures Fill(s, v) == match FieldAt(s)
                          case Some(name) =>
                            if name in v then v[name] + Fill(s[|name| + 2..], v) else [s[0]] + Fill(s[1..], v)
                          case None => [s[0]] + Fill(s[1..], v)
  {
    hide FieldAt;
  }

  lemma FillAtField(s: string, name: string, v: Values)
    requires FieldAt(s) == Some(name)
    ensures Fill(s, v) == (if name in v then v[name] else Pattern(name)) + Fill(s[|name| + 2..], v)
  {
    hide FieldAt, Fill;
    FillHere(s, v);
    if name !in v {
      var rest := s[|name| + 2..];
      assert s == s[..|name| + 2] + rest;
      assert s[0] == '{' && s[1..] == (name + "}") + rest;
      FillCopies(name + "}", rest, v);
      assert "{" + (name + "}" + Fill(rest, v)) == Pattern(name) + Fill(rest, v);
    }
  }

  /** The same, in a text that starts with a field. */
  lemma ReplaceAtField(field: string, filled: string, tail: string, v: Values, name: string, value: string)
    requires NoBrace(field) && NoBrace(name) && PlainValues(v) && name !in v
    requires filled == (if field in v then v[field] else Pattern(field)) + tail
    ensures ReplaceAll(filled, Pattern(name), value) ==
            (if field in v[name := value] then v[name := value][field] else Pattern(field)) + ReplaceAll(tail, Pattern(name), value)
  {
    hide ReplaceAll;
    SamePattern(field, name, tail);
    if field in v {
      ReplaceSkips(v[field], tail, name, value);
    } else if field == name {
      ReplaceHere(filled, name, value);
      assert filled[|Pattern(name)|..] == tail;
    } else {
      ReplaceHere(filled, name, value);
      assert filled[0] == '{' && filled[1..] == (field + "}") + tail;
      ReplaceSkips(field + "}", tail, name, value);
      assert "{" + ((field + "}") + ReplaceAll(tail, Pattern(name), value)) == Pattern(field) + ReplaceAll(tail, Pattern(name), value);
    }
  }

  lemma ReplaceHere(s: string, name: string, value: string)
    requires s != []
    ensures ReplaceAll(s, Pattern(name), value)
         == if StartsWith(s, Pattern(name)) then value + ReplaceAll(s[|Pattern(name)|..], Pattern(name), value)
            else [s[0]] + ReplaceAll(s[1..], Pattern(name), value)
  {
  }

  /** Every value is a space: it can be no part of a field. */
  predicate Spaced(v: Values) { forall n :: n in v ==> v[n] == " " }

  /** What a text filled with spaces starts with, if it could be part of a field,
      the text itself starts with. */
  lemma {:induction false} FillStartsAsText(s: string, v: Values, p: string)
    requires Spaced(v) && StartsWith(Fill(s, v), p)
    requires forall i :: 0 <= i < |p| ==> IsNameChar(p[i]) || p[i] == '}'
    ensures StartsWith(s, p)
  {
    hide FieldAt, Fill;
    if p != [] {
      assert Fill(s, v)[0] == p[0] != ' ' by { assert Fill(s, v)[..|p|][0] == p[0]; }
      if s == [] { FillNoText(v); }
      FillHere(s, v);
      assert Fill(s, v) == [s[0]] + Fill(s[1..], v);
      assert p == [p[0]] + p[1..] && Fill(s, v)[..|p|][1..] == Fill(s[1..], v)[..|p| - 1];
      FillStartsAsText(s[1..], v, p[1..]);
      assert s[..|p|] == [s[0]] + s[1..][..|p| - 1];
    }
  }

  lemma FillNoText(v: Values)
    ensures Fill([], v) == []
  {
  }

  /** Where no field starts, filling with spaces makes none. */
  lemma NoFieldMade(s: string, v: Values, name: string)
    requires s != [] && s[0] == '{' && FieldAt(s).None? && Spaced(v) && IsName(name)
    ensures Fill(s, v) == "{" + Fill(s[1..], v) && !StartsWith(Fill(s, v), Pattern(name))
  {
    hide Fill, FieldAt;
    FillHere(s, v);
    var filled, rest := Fill(s, v), Fill(s[1..], v);
    if StartsWith(filled, Pattern(name)) {
      var p := name + "}";
      assert Pattern(name)[1..] == p && filled[..|Pattern(name)|][1..] == rest[..|p|];
      FillStartsAsText(s[1..], v, p);
      assert s == "{" + (s[1..][..|p|] + s[1..][|p|..]) == Pattern(name) + s[1..][|p|..];
      FieldHere(name, s[1..][|p|..]);
    }
  }

  /** Filling one more field into a text already filled, as long as the values
      put in bring no brace of their own, and the text has none but those of its
      fields or the values are spaces. */
  lemma {:induction false} FillOneMore(s: string, v: Values, name: string, value: string)
    requires PlainValues(v) && NoBrace(name) && name !in v
    requires WellBraced(s) || (Spaced(v) && IsName(name))
    ensures ReplaceAll(Fill(s, v), Pattern(name), value) == Fill(s, v[name := value])
  {
    hide ReplaceAll, FieldAt;
    if s != [] {
      match FieldAt(s)
      case Some(field) =>
        var rest := s[|field| + 2..];
        FillAtField(s, field, v);
        FillAtField(s, field, v[name := value]);
        FillOneMore(rest, v, name, value);
        ReplaceAtField(field, Fill(s, v), Fill(rest, v), v, name, value);
      case None =>
        FillOneMore(s[1..], v, name, value);
        FillOneMoreAtText(s, v, name, value);
    } else {
      NothingToReplace(name, value);
    }
  }

  lemma FillOneMoreAtText(s: string, v: Values, name: string, value: string)
    requires s != [] && FieldAt(s).None? && PlainValues(v) && NoBrace(name) && name !in v
    requires WellBraced(s) || (Spaced(v) && IsName(name))
    requires ReplaceAll(Fill(s[1..], v), Pattern(name), value) == Fill(s[1..], v[name := value])
    ensures ReplaceAll(Fill(s, v), Pattern(name), value) == Fill(s, v[name := value])
  {
    hide ReplaceAll, FieldAt, Fill;
    FillHere(s, v);
    FillHere(s, v[name := value]);
    if s[0] == '{' {
      NoFieldMade(s, v, name);
      ReplaceHere(Fill(s, v), name, value);
      assert Fill(s, v)[1..] == Fill(s[1..], v);
    } else {
      ReplaceSkips([s[0]], Fill(s[1..], v), name, value);
    }
  }

  lemma NothingToReplace(name: string, value: string)
    ensures ReplaceAll([], Pattern(name), value) == []
  {
  }

  lemma {:induction false} FillNothing(s: string)
    ensures Fill(s, map[]) == s
  {
    if s != [] { FillNothing(s[1..]); }
  }

  predicate Distinct(names: seq<string>) {
    forall i, j :: 0 <= i < j < |names| ==> names[i] != names[j]
  }

  lemma OneMoreValue(done: Values, names: seq<string>, v: Values)
    requires names != [] && names[0] in v
    ensures done[names[0] := v[names[0]]] + Only(v, set n | n in names[1..]) == done + Only(v, set n | n in names)
  {
    assert forall n :: n in names <==> n == names[0] || n in names[1..];
  }

  lemma {:induction false} FillTheRest(s: string, done: Values, names: seq<string>, v: Values)
    requires PlainValues(done) && PlainValues(v) && Distinct(names)
    requires forall n :: n in names ==> n in v && n !in done && NoBrace(n)
    requires WellBraced(s) || (Spaced(done) && Spaced(v) && forall n :: n in names ==> IsName(n))
    ensures FillInOrder(Fill(s, done), names, v) == Fill(s, done + Only(v, set n | n in names))
    decreases |names|
  {
    hide ReplaceAll, Fill, WellBraced, Only, NoBrace, IsName;
    if names == [] {
      NoMoreValues(done, names, v);
    } else {
      var name := names[0];
      FillOneMore(s, done, name, v[name]);
      forall n | n in names[1..] ensures n in names && n != name {
        var i :| 0 <= i < |names[1..]| && names[1..][i] == n;
        assert names[i + 1] == n;
      }
      FillTheRest(s, done[name := v[name]], names[1..], v);
      OneMoreValue(done, names, v);
    }
  }

  lemma NoMoreValues(done: Values, names: seq<string>, v: Values)
    requires names == []
    ensures done + Only(v, set n | n in names) == done
  {
  }

  /** Filling one field after another is filling all at once, whatever the
      order, for texts the guard accepts and values without an opening brace. */
  lemma OrderDoesNotMatter(s: string, names: seq<string>, v: Values)
    requires !BadTemplate(s) && PlainValues(v) && Distinct(names)
    requires forall n :: n in names <==> n in v
    requires forall n :: n in v ==> NoBrace(n)
    ensures FillInOrder(s, names, v) == Fill(s, v)
  {
    CleanIsWellBraced(s);
    FillNothing(s);
    FillTheRest(s, map[], names, v);
    assert map[] + Only(v, set n | n in names) == v;
  }

  /** No opening brace of the text is left exactly when each one starts a field
      and all its fields are supplied. */
  lemma {:induction false} LeftUnfilled(s: string, v: Values)
    requires PlainValues(v)
    ensures NoOpen(Fill(s, v)) <==> WellBraced(s) && Fields(s) <= v.Keys
  {
    hide FieldAt;
    if s != [] {
      match FieldAt(s)
      case Some(name) =>
        FillAtField(s, name, v);
        var rest := s[|name| + 2..];
        LeftUnfilled(rest, v);
        if name in v {
          PlainParts(v[name], Fill(rest, v));
        } else {
          assert Fill(s, v)[0] == '{';
        }
      case None =>
        LeftUnfilled(s[1..], v);
        PlainParts([s[0]], Fill(s[1..], v));
        if s[0] == '{' { assert Fill(s, v)[0] == '{'; }
    }
  }

  /** One field after another with spaces for values, in any text. */
  lemma FillWithSpaces(s: string, names: seq<string>, v: Values)
    requires Spaced(v) && Distinct(names) && forall n :: n in names <==> n in v
    requires forall n :: n in v ==> IsName(n)
    ensures FillInOrder(s, names, v) == Fill(s, v)
  {
    hide Fill, FillInOrder, WellBraced, IsNameChar;
    FillNothing(s);
    forall n | n in names ensures NoBrace(n) { NamesHaveNoBrace(n); }
    FillTheRest(s, map[], names, v);
    assert map[] + Only(v, set n | n in names) == v;
  }

  lemma NamesHaveNoBrace(n: string)
    requires IsName(n)
    ensures NoBrace(n)
  {
  }

  lemma PlainParts(a: string, b: string)
    ensures NoOpen(a + b) <==> NoOpen(a) && NoOpen(b)
  {
    if NoOpen(a + b) {
      assert forall i :: 0 <= i < |a| ==> a[i] == (a + b)[i];
      assert forall i :: 0 <= i < |b| ==> b[i] == (a + b)[|a| + i];
    }
  }

  // ── Without the guard's promise about the text the order does matter

  const BROKEN := "{{a}b}"

  lemma FillBrokenA()
    ensures ReplaceAll(BROKEN, Pattern("a"), "n") == "{nb}"
  {
    assert !StartsWith(BROKEN, Pattern("a")) by { assert BROKEN[1] != Pattern("a")[1]; }
    assert BROKEN[1..] == Pattern("a") + "b}" && (Pattern("a") + "b}")[3..] == "b}";
    ReplaceSkips("b}", "", "a", "n");
    assert "b}" + "" == "b}";
    assert ReplaceAll(BROKEN[1..], Pattern("a"), "n") == "n" + "b}";
  }

  lemma FillBrokenB()
    ensures ReplaceAll(BROKEN, Pattern("nb"), "x") == BROKEN
  {
    assert !StartsWith(BROKEN, Pattern("nb")) by { assert BROKEN[1] != Pattern("nb")[1]; }
    assert !StartsWith(BROKEN[1..], Pattern("nb")) by { assert BROKEN[2] != Pattern("nb")[1]; }
    ReplaceSkips("a}b}", "", "nb", "x");
    assert BROKEN[1..][1..] == "a}b}" + "";
  }

  lemma OrderMattersInBrokenTexts(v: Values)
    requires v == map["a" := "n", "nb" := "x"]
    ensures BadTemplate(BROKEN)
    ensures FillInOrder(BROKEN, ["a", "nb"], v) == "x"
    ensures FillInOrder(BROKEN, ["nb", "a"], v) == "{nb}"
  {
    hide ReplaceAll;
    assert BadHere(BROKEN);
    FillBrokenA();
    FillBrokenB();
    WholeReplaced();
    assert ["a", "nb"][1..] == ["nb"] && ["nb"][1..] == [] && ["nb", "a"][1..] == ["a"] && ["a"][1..] == [];
  }

  lemma WholeReplaced()
    ensures ReplaceAll("{nb}", Pattern("nb"), "x") == "x"
  {
    assert StartsWith("{nb}", Pattern("nb")) && "{nb}"[4..] == "";
  }

  // ── Names, and texts in which nothing is to be filled

  predicate IsName(n: string) {
    n != [] && IsNameStart(n[0]) && forall i :: 0 <= i < |n| ==> IsNameChar(n[i])
  }

  lemma SpanOf(a: string, b: string, p: char -> bool)
    requires forall i :: 0 <= i < |a| ==> p(a[i])
    requires b == [] || !p(b[0])
    ensures Span(a + b, p) == |a|
  {
    assert forall i :: 0 <= i < |a| ==> (a + b)[i] == a[i];
    assert b != [] ==> (a + b)[|a|] == b[0];
  }

  lemma FieldHere(name: string, rest: string)
    requires IsName(name)
    ensures FieldAt(Pattern(name) + rest) == Some(name)
  {
    var s := Pattern(name) + rest;
    assert s[1..] == name + ("}" + rest);
    SpanOf(name, "}" + rest, IsNameChar);
    assert s[1] == name[0] && s[|name| + 1] == '}' && s[1..|name| + 1] == name;
  }

  lemma NameIsRead(s: string)
    ensures FieldAt(s).Some? ==> IsName(FieldAt(s).value)
  {
    match FieldAt(s)
    case Some(name) =>
      var n := Span(s[1..], IsNameChar);
      assert name == s[1..n + 1] && forall i :: 0 <= i < n ==> name[i] == s[1..][i];
    case None =>
  }

  /** A prefix without an opening brace changes neither. */
  lemma {:induction false} PlainPrefix(a: string, s: string)
    requires NoOpen(a)
    ensures Fields(a + s) == Fields(s)
    ensures WellBraced(a + s) == WellBraced(s)
  {
    if a == [] {
      assert a + s == s;
    } else {
      assert (a + s)[0] == a[0] && (a + s)[1..] == a[1..] + s;
      PlainPrefix(a[1..], s);
    }
  }

  // ── The forms, letter by letter

  predicate SmallLetter(c: char) { 97 <= c as int <= 122 || c as int == 95 }

  predicate SmallOrDigit(c: char) { SmallLetter(c) || 48 <= c as int <= 57 }

  /** A small letter or a low line, and then these or digits. */
  predicate FieldName(n: string) {
    n != [] && SmallLetter(n[0]) && forall i :: 0 <= i < |n| ==> SmallOrDigit(n[i])
  }

  lemma NamesAreFieldNames(n: string)
    ensures IsName(n) <==> FieldName(n)
  {
  }

  /** A field starts a text exactly when the text starts with its name in braces. */
  lemma FieldStarts(s: string, name: string)
    ensures FieldAt(s) == Some(name) <==> FieldName(name) && StartsWith(s, "{" + name + "}")
  {
    hide FieldAt, IsName, FieldName;
    NameIsRead(s);
    NamesAreFieldNames(name);
    var p := Pattern(name);
    if FieldAt(s) == Some(name) { assert |p| == |name| + 2; }
    if FieldName(name) && StartsWith(s, p) {
      assert s == p + s[|p|..];
      FieldHere(name, s[|p|..]);
    }
  }

  /** The fields of a text are the names that stand in braces in it, anywhere. */
  lemma {:induction false} FieldsAreTheNamesInBraces(s: string, name: string)
    ensures name in Fields(s) <==>
            FieldName(name) && exists i :: 0 <= i < |s| && StartsWith(s[i..], Pattern(name))
  {
    hide FieldAt, FieldName;
    if s != [] {
      FieldStarts(s, name);
      assert s[0..] == s;
      var n := if FieldAt(s).Some? then |FieldAt(s).value| + 2 else 1;
      FieldsAreTheNamesInBraces(s[n..], name);
      forall i | n <= i < |s| ensures StartsWith(s[i..], Pattern(name)) <==> StartsWith(s[n..][i - n..], Pattern(name)) {
        assert s[i..] == s[n..][i - n..];
      }
      if i :| 0 <= i < |s[n..]| && StartsWith(s[n..][i..], Pattern(name)) {
        assert s[n + i..] == s[n..][i..];
      }
      forall i | 0 < i < n ensures !StartsWith(s[i..], Pattern(name)) { InsideIsNoOpen(s, i); }
      assert FieldAt(s) == Some(name) <==> FieldName(name) && StartsWith(s[0..], Pattern(name));
    }
  }

  /** No field starts inside another. */
  lemma InsideIsNoOpen(s: string, i: nat)
    requires FieldAt(s).Some? && 0 < i < |FieldAt(s).value| + 2
    ensures forall name: string :: !StartsWith(s[i..], Pattern(name))
  {
    hide FieldAt;
    var n := FieldAt(s).value;
    assert s[i] == s[..|n| + 2][i] == ("{" + n + "}")[i] != '{';
    forall name: string ensures !StartsWith(s[i..], Pattern(name)) {
      if |Pattern(name)| <= |s[i..]| { assert s[i..][..|Pattern(name)|][0] == s[i]; }
    }
  }

  /** A template of another kind stands at `i`: of a shell, of C, by number, with
      doubled braces, or an opening brace that starts no field. */
  ghost predicate OtherForm(s: string, i: nat)
    requires i < |s|
  {
    var t := s[i..];
    || StartsWith(t, "${") || StartsWith(t, "%s") || StartsWith(t, "%d")
    || StartsWith(t, "{{") || StartsWith(t, "}}")
    || (s[i] == '{' && forall name: string :: FieldName(name) ==> !StartsWith(t, Pattern(name)))
  }

  lemma BadHereExactly(s: string)
    requires s != []
    ensures BadHere(s) <==> OtherForm(s, 0)
  {
    hide FieldAt, FieldName;
    assert s[0..] == s;
    if s[0] == '{' {
      forall name: string ensures FieldAt(s) == Some(name) <==> FieldName(name) && StartsWith(s, Pattern(name)) {
        FieldStarts(s, name);
      }
      if Span(s[1..], IsDigit) > 0 { NumberIsNoField(s); }
    }
    forall p: string | |p| == 2 ensures StartsWith(s, p) <==> |s| > 1 && s[0] == p[0] && s[1] == p[1] { TwoFirst(s, p); }
  }

  lemma TwoFirst(s: string, p: string)
    requires |p| == 2
    ensures StartsWith(s, p) <==> |s| > 1 && s[0] == p[0] && s[1] == p[1]
  {
    if |s| > 1 { assert s[..2] == [s[0], s[1]] && p == [p[0], p[1]]; }
  }

  /** A number in braces is no field. */
  lemma NumberIsNoField(s: string)
    requires s != [] && s[0] == '{' && Span(s[1..], IsDigit) > 0
    ensures FieldAt(s).None?
  {
    assert IsDigit(s[1..][0]);
  }

  /** A text is refused exactly when such a form stands somewhere in it. */
  lemma {:induction false} BadExactly(s: string)
    ensures BadTemplate(s) <==> exists i :: 0 <= i < |s| && OtherForm(s, i)
  {
    hide BadHere, OtherForm;
    if s != [] {
      BadExactly(s[1..]);
      BadHereExactly(s);
      forall i | 0 < i < |s| ensures OtherForm(s, i) <==> OtherForm(s[1..], i - 1) { FormLater(s, i); }
      if i :| 0 <= i < |s[1..]| && OtherForm(s[1..], i) { assert OtherForm(s, i + 1); }
    }
  }

  lemma FormLater(s: string, i: nat)
    requires 0 < i < |s|
    ensures OtherForm(s, i) <==> OtherForm(s[1..], i - 1)
  {
    assert s[i..] == s[1..][i - 1..];
  }
}
