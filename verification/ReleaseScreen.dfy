/** From the files of a surface to its screen: what the guard reads in them, what
    the interface holds once they are loaded, and what a silent guard is worth. */
module ReleaseScreen {
  import opened Text
  import opened Templates
  import opened Escaping
  import opened TextRuntime
  import opened ReleaseGuard
  import opened ReleaseLexer
  import opened CataloguePrinting
  import opened CallReader
  import opened ObjectLiteral
  import opened StringLiterals

  // ── When a text is filled by every call with certain names

  predicate AllNames(names: set<string>) { forall n <- names :: IsName(n) }

  lemma {:induction false} FieldsAreNames(s: string)
    ensures AllNames(Fields(s))
  {
    hide FieldAt, IsName;
    if s != [] {
      NameIsRead(s);
      match FieldAt(s)
      case Some(name) => FieldsAreNames(s[|name| + 2..]);
      case None => FieldsAreNames(s[1..]);
    }
  }

  /** Some order of a set of names. */
  lemma {:induction false} Enumerated(names: set<string>) returns (order: seq<string>)
    ensures Distinct(order) && forall n :: n in order <==> n in names
    decreases |names|
  {
    if names == {} {
      order := [];
    } else {
      var n :| n in names;
      var rest := Enumerated(names - {n});
      order := [n] + rest;
      forall i, j | 0 <= i < j < |order| ensures order[i] != order[j] {
        if i == 0 { assert order[j] in rest; }
      }
    }
  }

  lemma FilledWhenBraced(s: string, names: seq<string>, v: Values)
    requires WellBraced(s) && Supplies(names, v) && Fields(s) <= v.Keys
    ensures FillInOrder(s, names, v) == Fill(s, v) && NoOpen(Fill(s, v))
  {
    hide Fill, FillInOrder, WellBraced, Fields, NoBrace;
    FillNothing(s);
    FillTheRest(s, map[], names, v);
    assert map[] + Only(v, set n | n in names) == v;
    LeftUnfilled(s, v);
  }

  /** All the values that supply these names leave no opening brace. */
  ghost predicate AlwaysFilled(s: string, need: set<string>) {
    forall names: seq<string>, v: Values :: Supplies(names, v) && need <= v.Keys ==> NoOpen(FillInOrder(s, names, v))
  }

  /** A text is filled by every call that supplies certain names exactly when each
      opening brace starts a field and each field is one of those names. */
  lemma AlwaysFilledExactly(s: string, need: set<string>)
    requires AllNames(need)
    ensures AlwaysFilled(s, need) <==> WellBraced(s) && Fields(s) <= need
  {
    hide Fill, FillInOrder, WellBraced, Fields, IsName, NoBrace;
    if WellBraced(s) && Fields(s) <= need {
      forall names: seq<string>, v: Values | Supplies(names, v) && need <= v.Keys
        ensures NoOpen(FillInOrder(s, names, v))
      {
        FilledWhenBraced(s, names, v);
      }
    }
    if AlwaysFilled(s, need) {
      var names := Enumerated(need);
      var v := map n | n in need :: " ";
      forall n | n in v ensures NoBrace(n) { NamesHaveNoBrace(n); }
      assert Supplies(names, v);
      assert NoOpen(FillInOrder(s, names, v));
      FillWithSpaces(s, names, v);
      LeftUnfilled(s, v);
    }
  }

  // ── What the interface holds

  function DecodeAll(texts: seq<string>): Option<seq<string>> {
    if texts == [] then Some([])
    else
      match (Decode(texts[0]), DecodeAll(texts[1..]))
      case (Some(text), Some(rest)) => Some([text] + rest)
      case _ => None
  }

  function KeyOf(l: Line): Option<string> {
    if l.quoted then Decode(l.entry.key) else Some(l.entry.key)
  }

  /** Every text of the files is one the language takes. */
  predicate Loads(ls: seq<Line>) {
    forall l <- ls :: KeyOf(l).Some? && DecodeAll(l.entry.texts).Some?
  }

  /** The texts the interface has for a key: the last property with that key. */
  function Held(ls: seq<Line>, key: string): Option<seq<string>> {
    if ls == [] then None
    else
      var last := ls[|ls| - 1];
      if KeyOf(last) == Some(key) then DecodeAll(last.entry.texts) else Held(ls[..|ls| - 1], key)
  }

  /** The properties that the interface has under this key are those that the guard
      sees under it. */
  predicate Seen(ls: seq<Line>, key: string) {
    forall l <- ls :: KeyOf(l) == Some(key) <==> l.quoted && l.entry.key == key
  }

  /** So it is when quoted keys have no escapes, and this key is not also written
      without quotes. */
  lemma VerbatimKeysAreSeen(ls: seq<Line>, key: string)
    requires forall l <- ls :: if l.quoted then Verbatim(l.entry.key) else l.entry.key != key
    ensures Seen(ls, key)
  {
    hide Decode, Verbatim;
    forall l <- ls ensures KeyOf(l) == Some(key) <==> l.quoted && l.entry.key == key {
      if l.quoted { VerbatimDecodes(l.entry.key); }
    }
  }

  lemma {:induction false} DecodedOneByOne(texts: seq<string>)
    ensures DecodeAll(texts).Some? <==> forall i :: 0 <= i < |texts| ==> Decode(texts[i]).Some?
    ensures DecodeAll(texts).Some? ==>
      && |DecodeAll(texts).value| == |texts|
      && forall i :: 0 <= i < |texts| ==> Decode(texts[i]) == Some(DecodeAll(texts).value[i])
  {
    hide Decode;
    if texts != [] { DecodedOneByOne(texts[1..]); }
  }

  /** What the guard reads for a key is what the interface holds, decoded. */
  lemma {:induction false} WhatIsReadIsHeld(ls: seq<Line>, e: Entry)
    requires Seen(ls, e.key) && DistinctKeys(Read(ls)) && e in Read(ls)
    ensures Held(ls, e.key) == DecodeAll(e.texts)
  {
    hide KeyOf, DecodeAll, Read;
    if ls == [] {
      NothingRead([]);
    } else {
      var n := |ls| - 1;
      var before, last := ls[..n], ls[n];
      assert ls == before + [last] && last in ls;
      ReadAppends(before, [last]);
      ReadOne(last);
      if last.quoted && last.entry.key == e.key {
        LastIsIt(Read(before), last.entry, e);
      } else {
        assert forall l <- before :: l in ls;
        FrontIsDistinct(Read(before), Read([last]));
        WhatIsReadIsHeld(before, e);
      }
    }
  }

  lemma ReadOne(l: Line)
    ensures Read([l]) == if l.quoted then [l.entry] else []
  {
    assert [l][1..] == [] && [l.entry] + [] == [l.entry];
  }

  lemma LastIsIt(before: seq<Entry>, last: Entry, e: Entry)
    requires DistinctKeys(before + [last]) && e in before + [last] && e.key == last.key
    ensures e == last
  {
    var all := before + [last];
    var i :| 0 <= i < |all| && all[i] == e;
    assert all[|before|] == last;
    KeysApart(all, i, |before|);
  }

  lemma KeysApart(es: seq<Entry>, i: nat, j: nat)
    requires DistinctKeys(es) && i < |es| && j < |es| && es[i].key == es[j].key
    ensures i == j
  {
  }

  lemma FrontIsDistinct(before: seq<Entry>, more: seq<Entry>)
    requires DistinctKeys(before + more)
    ensures DistinctKeys(before)
  {
    forall i, j | 0 <= i < j < |before| ensures before[i].key != before[j].key {
      assert (before + more)[i].key != (before + more)[j].key;
    }
  }

  // ── What a silent guard is worth

  /** The decoded text has no opening brace but those of its fields, and no field
      that the guard did not see. */
  predicate Kept(raw: string) {
    Decode(raw).Some? && WellBraced(Decode(raw).value) && Fields(Decode(raw).value) <= Fields(raw)
  }

  /** A text without escapes that the guard accepts is kept. */
  lemma VerbatimIsKept(raw: string)
    requires Verbatim(raw) && !BadTemplate(raw)
    ensures Kept(raw)
  {
    VerbatimDecodes(raw);
    CleanIsWellBraced(raw);
  }

  /** Every literal call for a key that the guard has nothing against, since it
      thinks these fields needed, fills the text, whatever values without an
      opening brace it hands over. */
  ghost predicate AcceptedCallsFill(key: string, need: set<string>, s: string) {
    forall c: Call, names: seq<string>, v: Values ::
      Accepted(c, key, need) && CallSupplies(c, names, v) ==> NoOpen(FillInOrder(s, names, v))
  }

  predicate Accepted(c: Call, key: string, need: set<string>) {
    c.kind == WholeKey && c.key == key && !BadCall(c, key, need)
  }

  lemma AcceptedCallsFillExactly(key: string, need: set<string>, s: string)
    requires AllNames(need)
    ensures AcceptedCallsFill(key, need, s) <==> WellBraced(s) && Fields(s) <= need
  {
    hide Fields, WellBraced, FillInOrder;
    AlwaysFilledExactly(s, need);
    if AcceptedCallsFill(key, need, s) {
      forall names: seq<string>, v: Values | Supplies(names, v) && need <= v.Keys
        ensures NoOpen(FillInOrder(s, names, v))
      {
        var c := Call(WholeKey, key, Names(need));
        assert Accepted(c, key, need) && CallSupplies(c, names, v);
      }
    }
    if AlwaysFilled(s, need) {
      forall c: Call, names: seq<string>, v: Values | Accepted(c, key, need) && CallSupplies(c, names, v)
        ensures NoOpen(FillInOrder(s, names, v))
      {
        if need == {} { assert need <= v.Keys; }
        assert need <= v.Keys;
      }
    }
  }

  /** The fields that the guard thinks a key needs: none for a key it does not
      see. */
  function Need(entries: seq<Entry>, key: string): set<string>
    requires DistinctKeys(entries)
  {
    var fields := Table(entries);
    if key in fields then fields[key] else {}
  }

  lemma NeedsAreNames(entries: seq<Entry>, key: string)
    requires DistinctKeys(entries)
    ensures AllNames(Need(entries, key))
  {
    hide Fields, IsName;
    if key in Table(entries) {
      var e :| e in entries && e.key == key && ThreeTexts(e);
      FieldsAreNames(e.texts[0]);
    }
  }

  /** What the interface holds for a key, seen by the guard or not, every call the
      guard has nothing against shows filled, on the surface that fills first and
      on the one that escapes first, if and only if its braces are those of its
      fields and the guard thinks those fields needed. */
  lemma HeldFilledExactly(ls: seq<Line>, key: string, lang: nat)
    requires DistinctKeys(Read(ls)) && Held(ls, key).Some? && lang < |Held(ls, key).value|
    ensures var (s, need) := (Held(ls, key).value[lang], Need(Read(ls), key));
      && (AcceptedCallsFill(key, need, s) <==> WellBraced(s) && Fields(s) <= need)
      && (AcceptedCallsFill(key, need, Escape(s)) <==> WellBraced(s) && Fields(s) <= need)
  {
    hide Fields, WellBraced, Escape, AcceptedCallsFill, Need, Held, Read;
    var (s, need) := (Held(ls, key).value[lang], Need(Read(ls), key));
    NeedsAreNames(Read(ls), key);
    AcceptedCallsFillExactly(key, need, s);
    AcceptedCallsFillExactly(key, need, Escape(s));
    EscapeKeepsFields(s);
  }

  /** Under a silent guard every literal call for any key is one it accepts. */
  lemma SilentGuardAccepts(entries: seq<Entry>, calls: seq<Call>, mentioned: set<string>, declared: set<string>, c: Call)
    requires DistinctKeys(entries) && Passes(entries, calls, mentioned, declared)
    requires c in calls && c.kind == WholeKey
    ensures Accepted(c, c.key, Need(entries, c.key))
  {
    hide Table;
  }

  /** From the files to the screen, for every key the interface holds, seen by the
      guard or not. If the guard says nothing, every literal call is among those it
      accepts, and these show the text filled, on both surfaces, if and only if its
      braces are those of its fields and the guard thinks those fields needed. */
  lemma SilentGuardExactly(fs: seq<Printed>, entries: seq<Entry>, calls: seq<Call>, mentioned: set<string>,
                           declared: set<string>, key: string, lang: nat)
    requires (forall f <- fs :: GoodPrint(f)) && ReadFiles(FileTexts(fs), []) == Ok(entries)
    requires DistinctKeys(entries) && Passes(entries, calls, mentioned, declared)
    requires Held(AllLines(fs), key).Some? && lang < |Held(AllLines(fs), key).value|
    ensures forall c <- calls :: c.kind == WholeKey && c.key == key ==> Accepted(c, key, Need(entries, key))
    ensures var (s, need) := (Held(AllLines(fs), key).value[lang], Need(entries, key));
      && (AcceptedCallsFill(key, need, s) <==> WellBraced(s) && Fields(s) <= need)
      && (AcceptedCallsFill(key, need, Escape(s)) <==> WellBraced(s) && Fields(s) <= need)
  {
    hide Fields, WellBraced, Escape, AcceptedCallsFill, Need, Held, Read, GoodPrint, ReadFiles, Passes, Accepted, AllLines;
    CataloguesAreReadBack(fs);
    HeldFilledExactly(AllLines(fs), key, lang);
    forall c <- calls | c.kind == WholeKey && c.key == key ensures Accepted(c, key, Need(entries, key)) {
      SilentGuardAccepts(entries, calls, mentioned, declared, c);
    }
  }

  /** For a key the guard sees, that is if and only if decoding the text kept its
      braces and brought no field. */
  lemma ShownFilledExactly(entries: seq<Entry>, calls: seq<Call>, mentioned: set<string>, declared: set<string>,
                           e: Entry, lang: nat)
    requires DistinctKeys(entries) && Passes(entries, calls, mentioned, declared)
    requires e in entries && lang < 3 && Decode(e.texts[lang]).Some?
    ensures |e.texts| == 3
    ensures var need := Need(entries, e.key);
      && (AcceptedCallsFill(e.key, need, Decode(e.texts[lang]).value) <==> Kept(e.texts[lang]))
      && (AcceptedCallsFill(e.key, need, Escape(Decode(e.texts[lang]).value)) <==> Kept(e.texts[lang]))
  {
    hide Fields, WellBraced, BadTemplate, Blank, Decode, Escape, AcceptedCallsFill, Table;
    assert GoodEntry(e);
    var d, need := Decode(e.texts[lang]).value, Need(entries, e.key);
    assert need == Fields(e.texts[lang]);
    NeedsAreNames(entries, e.key);
    AcceptedCallsFillExactly(e.key, need, d);
    AcceptedCallsFillExactly(e.key, need, Escape(d));
    EscapeKeepsFields(d);
  }

  /** From the files to the screen. If the guard says nothing about what it reads
      in the files, then for every literal call whose values it can read, in every
      language and with any values that bring no opening brace, the text that the
      interface holds is shown with all its fields filled, if it is kept; and it
      is when it has no escapes. */
  lemma SilentGuardMeansFilled(fs: seq<Printed>, entries: seq<Entry>, calls: seq<Call>, mentioned: set<string>,
                               declared: set<string>, e: Entry, c: Call, lang: nat, names: seq<string>, v: Values)
    requires (forall f <- fs :: GoodPrint(f)) && ReadFiles(FileTexts(fs), []) == Ok(entries)
    requires Seen(AllLines(fs), e.key) && Loads(AllLines(fs))
    requires DistinctKeys(entries) && Passes(entries, calls, mentioned, declared)
    requires e in entries && c in calls && c.kind == WholeKey && c.key == e.key && lang < 3
    requires CallSupplies(c, names, v)
    ensures |e.texts| == 3 && (Verbatim(e.texts[lang]) ==> Kept(e.texts[lang]))
    ensures var held := Held(AllLines(fs), e.key);
      && held.Some? && |held.value| == 3 && Decode(e.texts[lang]) == Some(held.value[lang])
      && (Kept(e.texts[lang]) ==>
            var s := Filled(held.value, lang, names, v);
            && s == Fill(held.value[lang], v) && !Unfilled(s) && NoOpen(Escape(s))
            && NoOpen(FillInOrder(Escape(held.value[lang]), names, v)))
  {
    hide Fields, WellBraced, BadTemplate, Blank, Decode, Escape, Table, Verbatim, GoodPrint, Read, AllLines, ReadFiles, Seen,
         Passes, Held, Fill, FillInOrder, Unfilled, DecodeAll, Supplies;
    CataloguesAreReadBack(fs);
    WhatIsReadIsHeld(AllLines(fs), e);
    FieldsAreSupplied(entries, calls, mentioned, declared, e, c, lang, names, v);
    if Verbatim(e.texts[lang]) { VerbatimIsKept(e.texts[lang]); }
    ReadIsLoaded(AllLines(fs), e);
    DecodedOneByOne(e.texts);
    if Kept(e.texts[lang]) {
      var d := Decode(e.texts[lang]).value;
      FilledWhenBraced(d, names, v);
      EscapeKeepsFields(d);
      FilledWhenBraced(Escape(d), names, v);
      NothingUnfilled(Fill(d, v));
      EscapeKeepsPlain(Fill(d, v));
    }
  }

  lemma {:induction false} ReadIsLoaded(ls: seq<Line>, e: Entry)
    requires Loads(ls) && e in Read(ls)
    ensures DecodeAll(e.texts).Some?
  {
    hide DecodeAll, KeyOf;
    if ls != [] {
      assert ls[0] in ls && forall l <- ls[1..] :: l in ls;
      if e in Read(ls[1..]) { ReadIsLoaded(ls[1..], e); }
    }
  }

  /** From the text of a call to the screen. A call written with a literal key and
      an object literal, read as the guard reads it, among the calls of a silent
      guard, shows a kept text with every field filled if and only if no field of
      it is a name that the guard found and the call does not supply. */
  lemma WrittenCallIsFilledExactly(key: string, quote: char, gap: string, ps: seq<Prop>, end: string, rest: string, at: nat,
                                   c: Call, entries: seq<Entry>, calls: seq<Call>, mentioned: set<string>,
                                   declared: set<string>, e: Entry, lang: nat, names: seq<string>, v: Values)
    requires PlainKey(key) && (quote == '\'' || quote == '"') && AllSpace(gap) && GoodLiteral(ps, end)
    requires var read := Scan(CallText(key, quote, gap, ps, end, rest), 0, None, [], [], at);
             read.Args? && LiteralCall(read.list) == Some(c) && c in calls
    requires DistinctKeys(entries) && Passes(entries, calls, mentioned, declared)
    requires e in entries && e.key == key && lang < 3
    requires Supplies(names, v) && v.Keys == NamesOf(ps)
    ensures |e.texts| == 3
    ensures Kept(e.texts[lang]) ==>
      var d := Decode(e.texts[lang]).value;
      && (NoOpen(FillInOrder(d, names, v)) <==> Fields(d) * (Found(ps, end) - NamesOf(ps)) == {})
      && (NoOpen(FillInOrder(Escape(d), names, v)) <==> Fields(d) * (Found(ps, end) - NamesOf(ps)) == {})
      && ((forall p <- ps :: TameProp(p)) ==> NoOpen(Escape(FillInOrder(d, names, v))))
  {
    hide Scan, CallText, LiteralCall, GoodLiteral, Fill, FillInOrder, Escape, NamesOf, Found, Decode, TameProp,
         Fields, WellBraced, BadTemplate, Blank, Table;
    CallTextIsRead(key, quote, gap, ps, end, rest, at);
    assert GoodEntry(e);
    assert Fields(e.texts[lang]) <= Found(ps, end) by {
      assert !BadCall(c, e.key, Table(entries)[e.key]);
    }
    if Kept(e.texts[lang]) {
      var d := Decode(e.texts[lang]).value;
      BracedFill(d, names, v);
      EscapeKeepsFields(d);
      BracedFill(Escape(d), names, v);
      NoneBeyond(Fields(d), Found(ps, end), NamesOf(ps));
      if forall p <- ps :: TameProp(p) { GivenNamesAreTheProperties(ps, end); }
      EscapeKeepsPlainWhen(FillInOrder(d, names, v));
    }
  }

  lemma NoneBeyond(need: set<string>, found: set<string>, given: set<string>)
    requires need <= found
    ensures need <= given <==> need * (found - given) == {}
  {
    forall n <- need ensures n in given <==> n !in need * (found - given) {
    }
  }

  lemma BracedFill(s: string, names: seq<string>, v: Values)
    requires WellBraced(s) && Supplies(names, v)
    ensures NoOpen(FillInOrder(s, names, v)) <==> Fields(s) <= v.Keys
  {
    hide Fill, FillInOrder, WellBraced, Fields, NoBrace;
    FillNothing(s);
    FillTheRest(s, map[], names, v);
    assert map[] + Only(v, set n | n in names) == v;
    LeftUnfilled(s, v);
  }

  lemma EscapeKeepsPlainWhen(s: string)
    ensures NoOpen(s) ==> NoOpen(Escape(s))
  {
    if NoOpen(s) { EscapeKeepsPlain(s); }
  }

  // ── Two catalogues about which the guard says nothing

  const BRACE_ESCAPED := "\\x7ba}"

  /** An escape hides a field from the guard: the call needs no values for it, and
      the brace reaches the screen. */
  lemma EscapedBraceSlipsThrough()
    ensures var e := Entry("k", [BRACE_ESCAPED, BRACE_ESCAPED, BRACE_ESCAPED]); var c := Call(WholeKey, "k", NoValues);
      && DistinctKeys([e]) && Passes([e], [c], {}, {}) && CallSupplies(c, [], map[])
      && Decode(BRACE_ESCAPED) == Some("{a}") && !Kept(BRACE_ESCAPED)
      && FillInOrder(Escape("{a}"), [], map[]) == "{a}"
  {
    hide Decode, Fields, BadTemplate, Escape, FieldAt, WellBraced;
    var e := Entry("k", [BRACE_ESCAPED, BRACE_ESCAPED, BRACE_ESCAPED]);
    HiddenFromTheGuard();
    DecodedBrace();
    assert [e][..0] == [];
    assert Table([e])["k"] == {};
    OneField();
  }

  lemma HiddenFromTheGuard()
    ensures !BadTemplate(BRACE_ESCAPED) && Fields(BRACE_ESCAPED) == {} && !Blank(BRACE_ESCAPED)
  {
    hide Span;
    var s := BRACE_ESCAPED;
    assert s[1..] == "x7ba}" && "x7ba}"[1..] == "7ba}" && "7ba}"[1..] == "ba}" && "ba}"[1..] == "a}" && "a}"[1..] == "}";
    assert "}"[1..] == "";
    assert !BadTemplate("}") && Fields("}") == {};
    assert !BadTemplate("a}") && Fields("a}") == {};
    assert !BadTemplate("ba}") && Fields("ba}") == {};
    assert !BadTemplate("7ba}") && Fields("7ba}") == {};
    assert !BadTemplate("x7ba}") && Fields("x7ba}") == {};
    assert s[0] == '\\' && !IsSpace(s[0]);
  }

  lemma DecodedBrace()
    ensures Decode(BRACE_ESCAPED) == Some("{a}")
  {
    hide HexValue;
    var s := BRACE_ESCAPED;
    assert s[1..] == "x7ba}" && "x7ba}"[1..3] == "7b";
    HexOfBrace();
    assert Escaped("x7ba}") == Some(("{", 3));
    assert s[1 + 3..] == "a}" && "{" + "a}" == "{a}";
    VerbatimDecodes("a}");
  }

  lemma HexOfBrace()
    ensures HexValue("7b") == Some(0x7b)
  {
    assert "7b"[..1] == "7" && "7"[..0] == "";
    assert HexValue("") == Some(0) && HexValue("7") == Some(7);
  }

  lemma OneField()
    ensures Fields("{a}") == {"a"} && Escape("{a}") == "{a}"
  {
    hide FieldAt;
    var s := "{a}";
    FieldHere("a", "");
    assert s == Pattern("a") + "" && s[3..] == "";
    assert s[1..] == "a}" && "a}"[1..] == "}" && "}"[1..] == "";
    assert Escape("}") == "}" && Escape("a}") == "a}";
  }

  const TWO_FIELDS := Entry("k", ["{a}{b}", "{a}{b}", "{a}{b}"])

  /** A bracket inside a quoted value lets a name through: the guard reads in the
      text of this call a value for `b`, which is not there, says nothing, and a
      brace reaches the screen. */
  lemma QuotedBracketSlipsThrough(rest: string, at: nat)
    ensures var read := Scan(CallText("k", '\'', "", [CALL_WITH_BRACKET], "", rest), 0, None, [], [], at);
      && read.Args? && LiteralCall(read.list) == Some(Call(WholeKey, "k", Names({"a", "b"})))
    ensures DistinctKeys([TWO_FIELDS]) && Passes([TWO_FIELDS], [Call(WholeKey, "k", Names({"a", "b"}))], {"k"}, {})
    ensures var v := map["a" := "x"];
      v.Keys == NamesOf([CALL_WITH_BRACKET]) && Supplies(["a"], v) && !NoOpen(FillInOrder("{a}{b}", ["a"], v))
  {
    hide *;
    MisreadCall(rest, at);
    BothBelieved();
    OneLeftUnfilled();
  }

  lemma MisreadCall(rest: string, at: nat)
    ensures var read := Scan(CallText("k", '\'', "", [CALL_WITH_BRACKET], "", rest), 0, None, [], [], at);
      && read.Args? && LiteralCall(read.list) == Some(Call(WholeKey, "k", Names({"a", "b"})))
  {
    hide *;
    BracketLiteral();
    PlainCall();
    CallTextIsRead("k", '\'', "", [CALL_WITH_BRACKET], "", rest, at);
  }

  lemma BracketLiteral()
    ensures GoodLiteral([CALL_WITH_BRACKET], "") && Found([CALL_WITH_BRACKET], "") == {"a", "b"}
  {
    hide *;
    QuotedBracketMakesUpAName(map["a" := "x"]);
  }

  lemma PlainCall()
    ensures PlainKey("k") && AllSpace("")
  {
  }

  lemma OneLeftUnfilled()
    ensures var v := map["a" := "x"];
      v.Keys == NamesOf([CALL_WITH_BRACKET]) && Supplies(["a"], v) && !NoOpen(FillInOrder("{a}{b}", ["a"], v))
  {
    hide Fields, BadTemplate, FillInOrder, WellBraced, FieldAt;
    var v := map["a" := "x"];
    TwoFields();
    BracedFill("{a}{b}", ["a"], v);
    assert "b" in Fields("{a}{b}") && "b" !in v;
  }

  lemma BothBelieved()
    ensures DistinctKeys([TWO_FIELDS]) && Passes([TWO_FIELDS], [Call(WholeKey, "k", Names({"a", "b"}))], {"k"}, {})
  {
    hide Fields, BadTemplate, FieldAt, WellBraced;
    var (es, c) := ([TWO_FIELDS], Call(WholeKey, "k", Names({"a", "b"})));
    TwoFields();
    assert !Blank("{a}{b}") by { assert !IsSpace("{a}{b}"[0]); }
    assert es[..0] == [];
    assert Table(es) == map["k" := {"a", "b"}];
    assert Fills(c, "k", {"a", "b"}) && c in [c];
    assert FilledKeys(Table(es), [c]) == {"k"};
  }

  /** A key without quotes is not seen: nothing is asked of its texts or of the
      calls for it. In a file with one such key and one quoted the guard finds
      nothing wrong, and a brace reaches the screen. */
  lemma UnquotedKeySlipsThrough() returns (f: Printed)
    ensures GoodPrint(f) && f.source == UNQUOTED_FILE
    ensures var entries := [QUOTED_LINE.entry]; var c := Call(WholeKey, "k", NoValues);
      && ReadFiles(FileTexts([f]), []) == Ok(entries)
      && DistinctKeys(entries) && Passes(entries, [c], {"q", "k"}, {}) && CallSupplies(c, [], map[])
      && Held(AllLines([f]), "k") == Some(["{a}", "{a}", "{a}"])
      && FillInOrder(Escape("{a}"), [], map[]) == "{a}"
  {
    hide Decode, Fields, BadTemplate, Escape, FieldAt, WellBraced, Read, Held, GoodPrint, ReadFiles, GoodSource;
    var q, ls := QUOTED_LINE.entry, [QUOTED_LINE, UNQUOTED_LINE];
    UnquotedFileIsGood();
    f := EverySourceIsPrinted(UNQUOTED_FILE);
    assert AllLines([f]) == ls by { assert [f][1..] == [] && ls + [] == ls; }
    CataloguesAreReadBack([f]);
    OnlyQuotedIsRead();
    BothAreHeld();
    PlainLetter();
    assert [q][..0] == [];
    assert Table([q])["q"] == {};
    OneField();
  }

  const QUOTED_LINE := Line(Entry("q", ["a", "a", "a"]), true)
  const UNQUOTED_LINE := Line(Entry("k", ["{a}", "{a}", "{a}"]), false)

  const UNQUOTED_FILE := Source([], [QUOTED_LINE, UNQUOTED_LINE], false, [])

  lemma UnquotedFileIsGood()
    ensures GoodSource(UNQUOTED_FILE)
  {
    KeyIsEnclosed("q", '\'');
    KeyIsEnclosed("a", '\'');
    KeyIsEnclosed("{a}", '\'');
    hide Enclosed;
  }

  lemma OnlyQuotedIsRead()
    ensures Read([QUOTED_LINE, UNQUOTED_LINE]) == [QUOTED_LINE.entry]
  {
    var ls := [QUOTED_LINE, UNQUOTED_LINE];
    assert ls[1..] == [UNQUOTED_LINE] && ls[1..][1..] == [];
    assert Read(ls[1..]) == [] && Read(ls) == [QUOTED_LINE.entry] + [];
  }

  lemma BothAreHeld()
    ensures Held([QUOTED_LINE, UNQUOTED_LINE], "k") == Some(["{a}", "{a}", "{a}"])
  {
    hide Decode, DecodeAll;
    var texts := ["{a}", "{a}", "{a}"];
    VerbatimDecodes("{a}");
    DecodedOneByOne(texts);
    assert DecodeAll(texts).value == texts;
  }

  lemma PlainLetter()
    ensures !BadTemplate("a") && Fields("a") == {} && !Blank("a")
  {
    assert "a"[1..] == "" && !IsSpace("a"[0]);
  }

  // A key written with an escape

  const PLAIN_K := Line(Entry("k", ["a", "a", "a"]), true)
  const ESCAPED_K := Line(Entry("\\x6b", ["{a}", "{a}", "{a}"]), true)

  /** A quoted key with an escape is another key for the guard and the same for the
      interface, which holds the texts that come last: the guard looks at the first
      ones, is silent, and a brace reaches the screen. */
  lemma EscapedKeySlipsThrough()
    ensures var ls := [PLAIN_K, ESCAPED_K]; var c := Call(WholeKey, "k", NoValues);
      && DistinctKeys(Read(ls)) && Passes(Read(ls), [c], {"k"}, {}) && CallSupplies(c, [], map[])
      && Held(ls, "k") == Some(["{a}", "{a}", "{a}"])
      && FillInOrder(Escape("{a}"), [], map[]) == "{a}"
  {
    hide Decode, Fields, BadTemplate, Escape, FieldAt, WellBraced, Read, Held, Passes;
    var ls := [PLAIN_K, ESCAPED_K];
    assert Read(ls) == [PLAIN_K.entry, ESCAPED_K.entry] by { BothAreRead(); }
    assert "k" != "\\x6b" by { assert |"k"| == 1; }
    BothPass();
    EscapedIsHeld();
    OneField();
  }

  lemma BothAreRead()
    ensures Read([PLAIN_K, ESCAPED_K]) == [PLAIN_K.entry, ESCAPED_K.entry]
  {
    var ls := [PLAIN_K, ESCAPED_K];
    assert ls[1..] == [ESCAPED_K] && ls[1..][1..] == [];
    assert Read(ls[1..]) == [ESCAPED_K.entry] + [] && Read(ls) == [PLAIN_K.entry] + Read(ls[1..]);
  }

  lemma BothPass()
    ensures var es := [PLAIN_K.entry, ESCAPED_K.entry];
            DistinctKeys(es) && Passes(es, [Call(WholeKey, "k", NoValues)], {"k"}, {})
  {
    hide Fields, BadTemplate, FieldAt, WellBraced, Escape;
    var es := [PLAIN_K.entry, ESCAPED_K.entry];
    assert |"k"| == 1 && |"\\x6b"| == 4;
    PlainLetter();
    OneField();
    OneFieldIsGood();
    assert es[..1] == [PLAIN_K.entry] && es[..1][..0] == [];
    assert Table(es[..1]) == map["k" := {}];
    assert Table(es) == map["k" := {}, "\\x6b" := {"a"}];
  }

  lemma OneFieldIsGood()
    ensures !BadTemplate("{a}") && !Blank("{a}")
  {
    hide FieldAt;
    FieldHere("a", "");
    assert "{a}" == Pattern("a") + "" && "{a}"[1..] == "a}" && "a}"[1..] == "}" && "}"[1..] == "";
    assert !BadTemplate("}") && !BadTemplate("a}");
    assert !BadHere("{a}");
    assert !IsSpace("{a}"[0]);
  }

  lemma EscapedIsHeld()
    ensures Held([PLAIN_K, ESCAPED_K], "k") == Some(["{a}", "{a}", "{a}"])
  {
    hide Decode, DecodeAll;
    var texts := ["{a}", "{a}", "{a}"];
    VerbatimDecodes("{a}");
    DecodedOneByOne(texts);
    assert DecodeAll(texts).value == texts;
    KeyDecodes();
    assert [PLAIN_K, ESCAPED_K][1] == ESCAPED_K;
  }

  lemma KeyDecodes()
    ensures Decode("\\x6b") == Some("k")
  {
    hide Decode;
    assert HexText(0x6b, 2, false) == "6b" by {
      assert HexText(0, 0, false) == "" && HexText(6, 1, false) == "6";
    }
    NumbersAreRead(0x6b, 2, false, "");
    assert Power16(2) == 256 by { assert Power16(0) == 1 && Power16(1) == 16; }
    assert CharOf(0x6b) == Some('k');
    assert "\\x" + "6b" + "" == "\\x6b";
    VerbatimDecodes("");
    assert ['k'] + "" == "k";
  }
}
