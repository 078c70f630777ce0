/** Catalogues as files: any spacing and comments between the tokens, and the
    reader gives back exactly what was written. */
module CataloguePrinting {
  import opened Text
  import opened Templates
  import opened ReleaseGuard
  import opened ReleaseLexer

  datatype Gap = Space(c: char) | LineComment(text: string) | BlockComment(text: string)

  predicate GoodGap(g: Gap) {
    match g
    case Space(c) => IsSpace(c)
    case LineComment(text) => forall i :: 0 <= i < |text| ==> text[i] != '\n'
    case BlockComment(text) => forall i :: 0 <= i < |text| - 1 ==> !(text[i] == '*' && text[i + 1] == '/')
  }

  function GapText(g: Gap): string {
    match g
    case Space(c) => [c]
    case LineComment(text) => "//" + text + "\n"
    case BlockComment(text) => "/*" + text + "*/"
  }

  function GapsText(gs: seq<Gap>): string {
    if gs == [] then [] else GapText(gs[0]) + GapsText(gs[1..])
  }

  /** A token of the file with what stands before it; a text is written between
      `quote`s. */
  datatype Item = Item(gaps: seq<Gap>, token: Token, quote: char)

  /** A letter, a digit, a low line or a dollar; and in a name also a point. */
  predicate StartsName(c: char) {
    65 <= c as int <= 90 || 97 <= c as int <= 122 || 48 <= c as int <= 57 || c as int == 95 || c as int == 36
  }

  predicate InName(c: char) { StartsName(c) || c as int == 46 }

  predicate GoodToken(t: Token, quote: char) {
    match t
    case Str(body) => (quote == '\'' || quote == '"') && Enclosed(body, quote)
    case Tpl(body) => quote == '`' && Enclosed(body, quote)
    case Id(name) => name != [] && StartsName(name[0]) && forall i :: 0 <= i < |name| ==> InName(name[i])
    case Punct(c) => !IsSpace(c) && c !in {'\'', '"', '`', '/'} && !StartsName(c)
  }

  function TokenText(t: Token, quote: char): string {
    match t
    case Str(body) => [quote] + body + [quote]
    case Tpl(body) => [quote] + body + [quote]
    case Id(name) => name
    case Punct(c) => [c]
  }

  function FileText(items: seq<Item>, tail: seq<Gap>): string {
    if items == [] then GapsText(tail)
    else GapsText(items[0].gaps) + (TokenText(items[0].token, items[0].quote) + FileText(items[1..], tail))
  }

  /** Well-written tokens and gaps, and no identifier runs into what follows. */
  predicate GoodFile(items: seq<Item>, tail: seq<Gap>) {
    if items == [] then forall g :: g in tail ==> GoodGap(g)
    else
      var rest := FileText(items[1..], tail);
      && (forall g :: g in items[0].gaps ==> GoodGap(g))
      && GoodToken(items[0].token, items[0].quote)
      && (items[0].token.Id? && rest != [] ==> !InName(rest[0]))
      && GoodFile(items[1..], tail)
  }

  function TokensOf(items: seq<Item>): seq<Token> {
    if items == [] then [] else [items[0].token] + TokensOf(items[1..])
  }

  // ── The lexer undoes the printing

  lemma {:induction false} FindNewline(text: string, rest: string)
    requires forall i :: 0 <= i < |text| ==> text[i] != '\n'
    ensures Find(text + ("\n" + rest), "\n") == Some(|text|)
  {
    var s := text + ("\n" + rest);
    if text == [] {
      assert s[..1] == "\n";
    } else {
      assert s[..1] != "\n" by { assert s[..1][0] == text[0]; }
      assert s[1..] == text[1..] + ("\n" + rest);
      FindNewline(text[1..], rest);
    }
  }

  lemma {:induction false} FindClosing(text: string, rest: string)
    requires forall i :: 0 <= i < |text| - 1 ==> !(text[i] == '*' && text[i + 1] == '/')
    ensures Find(text + ("*/" + rest), "*/") == Some(|text|)
  {
    var s := text + ("*/" + rest);
    if text == [] {
      assert s[..2] == "*/";
    } else {
      assert s[1..] == text[1..] + ("*/" + rest);
      assert !StartsWith(s, "*/") by {
        assert s[..2][0] == text[0] && s[..2][1] == if |text| > 1 then text[1] else '*';
      }
      FindClosing(text[1..], rest);
    }
  }

  lemma LexComment(s: string)
    requires StartsWith(s, "//")
    ensures Lex(s) == Lex(AfterLine(s[1..]))
  {
    assert s[0] == "//"[0];
  }

  lemma LexBlank(c: char, s: string)
    requires IsSpace(c)
    ensures Lex([c] + s) == Lex(s)
  {
    assert ([c] + s)[1..] == s;
  }

  lemma LexLineComment(text: string, s: string)
    requires GoodGap(LineComment(text))
    ensures Lex(GapText(LineComment(text)) + s) == Lex(s)
  {
    hide Lex, Find;
    var all := "//" + text + "\n" + s;
    assert GapText(LineComment(text)) + s == all;
    var front, rest := "/" + text, "\n" + s;
    assert all[1..] == front + rest && all[..2] == "//";
    FindNewline(front, s);
    assert (front + rest)[|front|..] == rest;
    LexComment(all);
    LexBlank('\n', s);
  }

  lemma LexBlockComment(text: string, s: string)
    requires GoodGap(BlockComment(text))
    ensures Lex(GapText(BlockComment(text)) + s) == Lex(s)
  {
    hide Lex, Find;
    var all := GapText(BlockComment(text)) + s;
    assert all[0..] == all && all[0] == '/' && all[..2] == "/*";
    assert all[2..] == text + ("*/" + s);
    FindClosing(text, s);
    LexBlock(all, 0);
    assert all[|text| + 4..] == s;
  }

  lemma LexGap(g: Gap, s: string)
    requires GoodGap(g)
    ensures Lex(GapText(g) + s) == Lex(s)
  {
    hide Lex;
    match g
    case Space(c) =>
      LexBlank(c, s);
    case LineComment(text) => LexLineComment(text, s);
    case BlockComment(text) => LexBlockComment(text, s);
  }

  lemma {:induction false} LexGaps(gs: seq<Gap>, s: string)
    requires forall g :: g in gs ==> GoodGap(g)
    ensures Lex(GapsText(gs) + s) == Lex(s)
  {
    hide Lex;
    if gs == [] {
      assert [] + s == s;
    } else {
      assert GapsText(gs) + s == GapText(gs[0]) + (GapsText(gs[1..]) + s);
      LexGap(gs[0], GapsText(gs[1..]) + s);
      LexGaps(gs[1..], s);
    }
  }

  lemma {:induction false} QuotedEnclosed(body: string, quote: char, rest: string)
    requires Enclosed(body, quote) && quote != '\\'
    ensures Quoted(body + ([quote] + rest), quote) == Some((body, rest))
  {
    var s := body + ([quote] + rest);
    if body == [] {
      assert s[0] == quote && s[1..] == rest;
    } else if body[0] == '\\' {
      assert s[..2] == body[..2] && s[2..] == body[2..] + ([quote] + rest);
      QuotedEnclosed(body[2..], quote, rest);
      assert body[..2] + body[2..] == body;
    } else {
      assert s[1..] == body[1..] + ([quote] + rest);
      QuotedEnclosed(body[1..], quote, rest);
      assert [body[0]] + body[1..] == body;
    }
  }

  lemma LexQuotedToken(t: Token, quote: char, rest: string)
    requires (t.Str? || t.Tpl?) && GoodToken(t, quote)
    ensures Lex(TokenText(t, quote) + rest) == Prepend(t, Lex(rest))
  {
    hide *;
    QuotedText(t, quote, rest);
    var s := [quote] + (t.text + ([quote] + rest));
    assert s[0] == quote && s[1..] == t.text + ([quote] + rest) && s[0..] == s;
    QuotedEnclosed(t.text, quote, rest);
    LexQuoted(s, 0);
  }

  lemma QuotedText(t: Token, quote: char, rest: string)
    requires (t.Str? || t.Tpl?) && GoodToken(t, quote)
    ensures TokenText(t, quote) + rest == [quote] + (t.text + ([quote] + rest))
    ensures Enclosed(t.text, quote) && IsQuote(quote) && quote != '\\' && (quote == '`' <==> t.Tpl?)
  {
    hide Enclosed;
  }

  lemma LexName(name: string, rest: string)
    requires GoodToken(Id(name), ' ')
    requires rest != [] ==> !InName(rest[0])
    ensures Lex(name + rest) == Prepend(Id(name), Lex(rest))
  {
    hide Lex;
    var s := name + rest;
    assert s[0..] == s && s[0] == name[0];
    SpanOf(name, rest, IsIdPart);
    LexId(s, 0);
    assert s[..|name|] == name && s[|name|..] == rest;
  }

  lemma LexPunct(c: char, rest: string)
    requires GoodToken(Punct(c), ' ')
    ensures Lex([c] + rest) == Prepend(Punct(c), Lex(rest))
  {
    hide Lex;
    var s := [c] + rest;
    assert s[0..] == s && s[0] == c && s[1..] == rest;
    assert StartsWith(s, "//") || StartsWith(s, "/*") ==> s[0] == '/' by {
      assert "//"[0] == '/' && "/*"[0] == '/';
    }
    LexOther(s, 0);
  }

  lemma PlainTokenText(t: Token, quote: char)
    ensures t.Id? ==> TokenText(t, quote) == t.text
    ensures t.Punct? ==> TokenText(t, quote) == [t.c]
  {
  }

  /** Printing tokens with any gaps and lexing gives the tokens back. */
  lemma {:induction false} LexUndoesPrinting(items: seq<Item>, tail: seq<Gap>)
    requires GoodFile(items, tail)
    ensures Lex(FileText(items, tail)) == Ok(TokensOf(items))
  {
    hide Lex, TokenText, GapsText, Enclosed;
    if items == [] {
      assert GapsText(tail) + [] == GapsText(tail);
      LexGaps(tail, []);
      LexEmpty();
    } else {
      var rest := FileText(items[1..], tail);
      var t := items[0].token;
      LexGaps(items[0].gaps, TokenText(t, items[0].quote) + rest);
      if t.Str? || t.Tpl? { LexQuotedToken(t, items[0].quote, rest); }
      else if t.Id? { LexName(t.text, rest); }
      else { LexPunct(t.c, rest); }
      PlainTokenText(t, items[0].quote);
      LexUndoesPrinting(items[1..], tail);
    }
  }

  // ── The tokens of a catalogue

  function TextTokens(texts: seq<string>): seq<Token> {
    if texts == [] then []
    else if |texts| == 1 then [Str(texts[0])]
    else [Str(texts[0]), Punct(',')] + TextTokens(texts[1..])
  }

  /** A property of the catalogue: an entry, and whether its key is quoted. The
      language takes a name without quotes as well. */
  datatype Line = Line(entry: Entry, quoted: bool)

  function LineTokens(l: Line): seq<Token> {
    [if l.quoted then Str(l.entry.key) else Id(l.entry.key)]
    + ([Punct(':'), Punct('[')] + TextTokens(l.entry.texts) + [Punct(']')])
  }

  /** Each property and the comma after it; the last one may go without. */
  function LinesTokens(ls: seq<Line>, lastComma: bool): seq<Token> {
    if ls == [] then []
    else if |ls| == 1 then LineTokens(ls[0]) + (if lastComma then [Punct(',')] else [])
    else LineTokens(ls[0]) + ([Punct(',')] + LinesTokens(ls[1..], lastComma))
  }

  /** A file: what comes before the object, the object, and what comes after. */
  datatype Source = Source(header: seq<Token>, lines: seq<Line>, lastComma: bool, footer: seq<Token>)

  function SourceTokens(s: Source): seq<Token> {
    s.header + ([Punct('{')] + (LinesTokens(s.lines, s.lastComma) + ([Punct('}')] + s.footer)))
  }

  /** No text in it is followed by a colon. */
  predicate Inert(toks: seq<Token>) {
    forall i :: 0 <= i < |toks| && toks[i].Str? ==> i + 1 < |toks| && toks[i + 1] != Punct(':')
  }

  /** What the reader makes of the properties: those with a quoted key. */
  function Read(ls: seq<Line>): seq<Entry> {
    if ls == [] then [] else (if ls[0].quoted then [ls[0].entry] else []) + Read(ls[1..])
  }

  lemma {:induction false} ValuesOfTexts(texts: seq<string>, rest: seq<Token>, key: string)
    ensures EntryTexts(TextTokens(texts) + ([Punct(']')] + rest), key) == Ok(texts)
  {
    var closing := [Punct(']')] + rest;
    assert closing[0] == Punct(']');
    var all := TextTokens(texts) + closing;
    if |texts| == 0 {
      assert all == closing;
    } else if |texts| == 1 {
      assert all[0] == Str(texts[0]) && all[1..] == closing;
      assert EntryTexts(closing, key) == Ok([]);
      assert [texts[0]] + [] == texts;
    } else {
      var comma := [Punct(',')] + (TextTokens(texts[1..]) + closing);
      assert all[0] == Str(texts[0]) && all[1..] == comma;
      assert comma[0] == Punct(',') && comma[1..] == TextTokens(texts[1..]) + closing;
      ValuesOfTexts(texts[1..], rest, key);
      assert EntryTexts(comma, key) == Ok(texts[1..]);
      assert [texts[0]] + texts[1..] == texts;
    }
  }

  lemma NotAHead(toks: seq<Token>, rest: seq<Token>, out: seq<Entry>)
    requires toks != [] && toks[1..] == rest && !Head(toks)
    ensures Collect(toks, out) == Collect(rest, out)
  {
    hide EntryTexts;
  }

  /** Inside an entry no other entry starts. */
  lemma {:induction false} CollectSkipsTexts(texts: seq<string>, rest: seq<Token>, out: seq<Entry>)
    ensures Collect(TextTokens(texts) + ([Punct(']')] + rest), out) == Collect(rest, out)
  {
    hide Collect;
    var closing := [Punct(']')] + rest;
    assert closing[0] == Punct(']') && closing[1..] == rest;
    var all := TextTokens(texts) + closing;
    if |texts| == 0 {
      assert all == closing;
      NotAHead(all, rest, out);
    } else if |texts| == 1 {
      assert all[1] == Punct(']') && all[1..] == closing;
      NotAHead(all, closing, out);
      NotAHead(closing, rest, out);
    } else {
      var inner := TextTokens(texts[1..]) + closing;
      var comma := [Punct(',')] + inner;
      assert all[1] == Punct(',') && all[1..] == comma && comma[0] == Punct(',') && comma[1..] == inner;
      NotAHead(all, comma, out);
      NotAHead(comma, inner, out);
      CollectSkipsTexts(texts[1..], rest, out);
    }
  }

  lemma CollectHead(toks: seq<Token>, texts: seq<string>, out: seq<Entry>)
    requires Head(toks) && EntryTexts(toks[3..], toks[0].text) == Ok(texts)
    ensures Collect(toks, out) ==
            if HasKey(out, toks[0].text) then Err(RepeatedKey(toks[0].text))
            else Collect(toks[1..], out + [Entry(toks[0].text, texts)])
  {
    hide EntryTexts;
  }

  lemma CollectLine(l: Line, rest: seq<Token>, out: seq<Entry>)
    ensures Collect(LineTokens(l) + rest, out) ==
            if !l.quoted then Collect(rest, out)
            else if HasKey(out, l.entry.key) then Err(RepeatedKey(l.entry.key))
            else Collect(rest, out + [l.entry])
  {
    hide EntryTexts, HasKey, Collect, TextTokens;
    var e := l.entry;
    var key := if l.quoted then Str(e.key) else Id(e.key);
    var inner := TextTokens(e.texts) + ([Punct(']')] + rest);
    var open, colon := [Punct('[')] + inner, [Punct(':'), Punct('[')] + inner;
    var all := [key] + colon;
    assert all == LineTokens(l) + rest;
    assert all[3..] == inner && all[1..] == colon && colon[1..] == open && open[1..] == inner;
    ValuesOfTexts(e.texts, rest, e.key);
    assert all[1] == Punct(':') && all[2] == Punct('[') && all[0] == key;
    var more := if l.quoted then out + [e] else out;
    if l.quoted {
      CollectHead(all, e.texts, out);
      assert e == Entry(e.key, e.texts);
    } else {
      NotAHead(all, colon, out);
    }
    assert colon[0] == Punct(':') && open[0] == Punct('[');
    NotAHead(colon, open, more);
    NotAHead(open, inner, more);
    CollectSkipsTexts(e.texts, rest, more);
  }

  lemma {:induction false} CollectInert(toks: seq<Token>, rest: seq<Token>, out: seq<Entry>)
    requires Inert(toks)
    ensures Collect(toks + rest, out) == Collect(rest, out)
  {
    hide Collect;
    if toks == [] {
      assert toks + rest == rest;
    } else {
      var all := toks + rest;
      assert all[0] == toks[0] && all[1..] == toks[1..] + rest;
      if toks[0].Str? { assert all[1] == toks[1] != Punct(':'); }
      NotAHead(all, toks[1..] + rest, out);
      forall i | 0 <= i < |toks[1..]| && toks[1..][i].Str?
        ensures i + 1 < |toks[1..]| && toks[1..][i + 1] != Punct(':')
      {
        assert toks[1..][i] == toks[i + 1];
      }
      CollectInert(toks[1..], rest, out);
    }
  }

  lemma CollectNothing(out: seq<Entry>)
    ensures Collect([], out) == Ok(out)
  {
  }

  /** The first entry whose key was already there, if any. */
  function FirstRepeated(es: seq<Entry>, out: seq<Entry>): Option<string> {
    if es == [] then None
    else if HasKey(out, es[0].key) then Some(es[0].key)
    else FirstRepeated(es[1..], out + [es[0]])
  }

  /** The outcome of adding entries to those read before. */
  function Added(es: seq<Entry>, out: seq<Entry>): Result<seq<Entry>> {
    match FirstRepeated(es, out)
    case Some(key) => Err(RepeatedKey(key))
    case None => Ok(out + es)
  }

  lemma {:induction false} CollectLines(ls: seq<Line>, lastComma: bool, footer: seq<Token>, out: seq<Entry>)
    requires Inert(footer)
    ensures Collect(LinesTokens(ls, lastComma) + ([Punct('}')] + footer), out) == Added(Read(ls), out)
    decreases |ls|
  {
    hide EntryTexts, HasKey, LineTokens, Collect;
    var closing := [Punct('}')] + footer;
    if ls == [] {
      assert [] + closing == closing && closing[1..] == footer && closing[0] == Punct('}') && out + [] == out;
      NotAHead(closing, footer, out);
      assert footer + [] == footer;
      CollectInert(footer, [], out);
      CollectNothing(out);
    } else {
      var l := ls[0];
      var after := AfterLineTokens(ls, lastComma, closing);
      CollectLine(l, after, out);
      var more := if l.quoted then out + [l.entry] else out;
      if |ls| > 1 || lastComma {
        NotAHead(after, LinesTokens(ls[1..], lastComma) + closing, more);
      }
      CollectLines(ls[1..], lastComma, footer, more);
      AddedOne(l, Read(ls[1..]), out);
    }
  }

  /** What follows the first property. */
  lemma AfterLineTokens(ls: seq<Line>, lastComma: bool, closing: seq<Token>) returns (after: seq<Token>)
    requires ls != []
    ensures LinesTokens(ls, lastComma) + closing == LineTokens(ls[0]) + after
    ensures |ls| == 1 && !lastComma ==> after == closing == LinesTokens(ls[1..], lastComma) + closing
    ensures |ls| > 1 || lastComma ==>
      after != [] && after[0] == Punct(',') && after[1..] == LinesTokens(ls[1..], lastComma) + closing
  {
    hide LineTokens;
    after := if |ls| == 1 && !lastComma then closing else [Punct(',')] + (LinesTokens(ls[1..], lastComma) + closing);
    if |ls| == 1 { assert ls[1..] == [] && [] + closing == closing; }
  }

  lemma AddedOne(l: Line, rest: seq<Entry>, out: seq<Entry>)
    ensures var all := (if l.quoted then [l.entry] else []) + rest;
            Added(all, out) == if !l.quoted then Added(rest, out)
                               else if HasKey(out, l.entry.key) then Err(RepeatedKey(l.entry.key))
                               else Added(rest, out + [l.entry])
  {
    hide HasKey;
    if l.quoted {
      var all := [l.entry] + rest;
      assert all[0] == l.entry && all[1..] == rest;
      assert out + [l.entry] + rest == out + all;
    } else {
      assert [] + rest == rest;
    }
  }

  lemma {:induction false} DistinctIsUnrepeated(es: seq<Entry>, out: seq<Entry>)
    ensures FirstRepeated(es, out).None? <==>
            DistinctKeys(es) && forall e, d :: e in es && d in out ==> e.key != d.key
    decreases |es|
  {
    if es != [] {
      DistinctIsUnrepeated(es[1..], out + [es[0]]);
      TailIsDistinct(es);
      assert forall d :: d in out + [es[0]] <==> d in out || d == es[0];
      assert forall e :: e in es <==> e == es[0] || e in es[1..];
    }
  }

  lemma TailIsDistinct(es: seq<Entry>)
    requires es != []
    ensures DistinctKeys(es) <==> DistinctKeys(es[1..]) && forall e :: e in es[1..] ==> e.key != es[0].key
  {
    if DistinctKeys(es[1..]) && forall e :: e in es[1..] ==> e.key != es[0].key {
      forall i, j | 0 <= i < j < |es| ensures es[i].key != es[j].key {
        assert es[j] == es[1..][j - 1];
        if i > 0 { assert es[i] == es[1..][i - 1]; }
      }
    }
    if DistinctKeys(es) {
      forall i, j | 0 <= i < j < |es[1..]| ensures es[1..][i].key != es[1..][j].key {
        assert es[i + 1].key != es[j + 1].key;
      }
      forall e | e in es[1..] ensures e.key != es[0].key {
        var i :| 0 <= i < |es[1..]| && es[1..][i] == e;
        assert es[i + 1] == e;
      }
    }
  }

  // ── Files

  /** A file as it is written. */
  datatype Printed = Printed(source: Source, items: seq<Item>, tail: seq<Gap>)

  predicate GoodPrint(f: Printed) {
    && GoodFile(f.items, f.tail) && TokensOf(f.items) == SourceTokens(f.source)
    && Inert(f.source.header) && Inert(f.source.footer)
  }

  function FileTexts(fs: seq<Printed>): seq<Option<string>> {
    seq(|fs|, i requires 0 <= i < |fs| => Some(FileText(fs[i].items, fs[i].tail)))
  }

  /** All the properties of the files, in order. */
  function AllLines(fs: seq<Printed>): seq<Line> {
    if fs == [] then [] else fs[0].source.lines + AllLines(fs[1..])
  }

  /** What reading the files comes to: the first repeated key, the first file
      without an entry, or all the entries. */
  function Outcome(fs: seq<Printed>, out: seq<Entry>): Result<seq<Entry>> {
    if fs == [] then Ok(out)
    else
      match Added(Read(fs[0].source.lines), out)
      case Err(e) => Err(e)
      case Ok(more) => if Read(fs[0].source.lines) == [] then Err(EmptyCatalogue) else Outcome(fs[1..], more)
  }

  // ── What can be written can be printed

  predicate GoodTokens(toks: seq<Token>) { forall t <- toks :: GoodToken(t, '\'') }

  /** The key and the texts can stand between quotes, or the key without them. */
  predicate GoodLine(l: Line) {
    && (if l.quoted then Enclosed(l.entry.key, '\'') else GoodToken(Id(l.entry.key), '\''))
    && forall text <- l.entry.texts :: Enclosed(text, '\'')
  }

  predicate GoodSource(s: Source) {
    && GoodTokens(s.header) && GoodTokens(s.footer) && Inert(s.header) && Inert(s.footer)
    && forall l <- s.lines :: GoodLine(l)
  }

  /** The tokens with one space before each. */
  function Apart(toks: seq<Token>): seq<Item> {
    if toks == [] then [] else [Item([Space(' ')], toks[0], '\'')] + Apart(toks[1..])
  }

  lemma {:induction false} ApartIsGood(toks: seq<Token>)
    requires GoodTokens(toks)
    ensures GoodFile(Apart(toks), []) && TokensOf(Apart(toks)) == toks
    ensures toks != [] ==> FileText(Apart(toks), []) != [] && FileText(Apart(toks), [])[0] == ' '
  {
    hide Enclosed, TokenText;
    if toks != [] {
      var items := Apart(toks);
      assert toks[0] in toks && forall t <- toks[1..] :: t in toks;
      ApartIsGood(toks[1..]);
      assert items[0] == Item([Space(' ')], toks[0], '\'') && items[1..] == Apart(toks[1..]);
      OneSpace();
    }
  }

  lemma OneSpace()
    ensures GapsText([Space(' ')]) == " " && !InName(' ') && GoodGap(Space(' ')) && GapsText([]) == ""
  {
    assert [Space(' ')][1..] == [];
  }

  lemma {:induction false} TextTokensAreGood(texts: seq<string>)
    requires forall text <- texts :: Enclosed(text, '\'')
    ensures GoodTokens(TextTokens(texts))
  {
    hide Enclosed;
    if texts != [] {
      assert texts[0] in texts && forall text <- texts[1..] :: text in texts;
      TextTokensAreGood(texts[1..]);
    }
  }

  lemma LineTokensAreGood(l: Line)
    requires GoodLine(l)
    ensures GoodTokens(LineTokens(l))
  {
    hide Enclosed, TextTokens;
    TextTokensAreGood(l.entry.texts);
  }

  lemma {:induction false} LinesTokensAreGood(ls: seq<Line>, lastComma: bool)
    requires forall l <- ls :: GoodLine(l)
    ensures GoodTokens(LinesTokens(ls, lastComma))
  {
    hide GoodLine, LineTokens;
    if ls != [] {
      assert ls[0] in ls && forall l <- ls[1..] :: l in ls;
      LineTokensAreGood(ls[0]);
      LinesTokensAreGood(ls[1..], lastComma);
    }
  }

  lemma EverySourceIsPrinted(s: Source) returns (f: Printed)
    requires GoodSource(s)
    ensures f.source == s && GoodPrint(f)
  {
    hide GoodLine, LinesTokens, GoodFile, TokensOf;
    LinesTokensAreGood(s.lines, s.lastComma);
    ApartIsGood(SourceTokens(s));
    f := Printed(s, Apart(SourceTokens(s)), []);
  }

  lemma CollectSource(s: Source, out: seq<Entry>)
    requires Inert(s.header) && Inert(s.footer)
    ensures Collect(SourceTokens(s), out) == Added(Read(s.lines), out)
  {
    hide Collect, LinesTokens, Added, Read;
    var body := LinesTokens(s.lines, s.lastComma) + ([Punct('}')] + s.footer);
    var open := [Punct('{')] + body;
    assert SourceTokens(s) == s.header + open && open[0] == Punct('{') && open[1..] == body;
    CollectInert(s.header, open, out);
    NotAHead(open, body, out);
    CollectLines(s.lines, s.lastComma, s.footer, out);
  }

  lemma {:induction false} FilesAreRead(fs: seq<Printed>, out: seq<Entry>)
    requires forall f <- fs :: GoodPrint(f)
    ensures ReadFiles(FileTexts(fs), out) == Outcome(fs, out)
    decreases |fs|
  {
    hide Lex, Collect, FileText, SourceTokens, Read, FirstRepeated, GoodFile, Inert;
    if fs != [] {
      var f := fs[0];
      assert f in fs && forall g <- fs[1..] :: g in fs;
      LexUndoesPrinting(f.items, f.tail);
      CollectSource(f.source, out);
      assert FileTexts(fs)[1..] == FileTexts(fs[1..]);
      if Added(Read(f.source.lines), out).Ok? { FilesAreRead(fs[1..], out + Read(f.source.lines)); }
    }
  }

  lemma {:induction false} ReadAppends(a: seq<Line>, b: seq<Line>)
    ensures Read(a + b) == Read(a) + Read(b)
  {
    if a == [] {
      assert a + b == b;
    } else {
      assert (a + b)[0] == a[0] && (a + b)[1..] == a[1..] + b;
      ReadAppends(a[1..], b);
    }
  }

  lemma {:induction false} RepeatedAppends(a: seq<Entry>, b: seq<Entry>, out: seq<Entry>)
    ensures FirstRepeated(a + b, out) == if FirstRepeated(a, out).Some? then FirstRepeated(a, out) else FirstRepeated(b, out + a)
    decreases |a|
  {
    hide HasKey;
    if a == [] {
      assert a + b == b && out + [] == out;
    } else {
      assert (a + b)[0] == a[0] && (a + b)[1..] == a[1..] + b;
      RepeatedAppends(a[1..], b, out + [a[0]]);
      assert out + [a[0]] + a[1..] == out + a;
    }
  }

  lemma {:induction false} OutcomeIsAll(fs: seq<Printed>, out: seq<Entry>)
    ensures Outcome(fs, out).Ok? <==>
            FirstRepeated(Read(AllLines(fs)), out).None? && forall f <- fs :: Read(f.source.lines) != []
    ensures Outcome(fs, out).Ok? ==> Outcome(fs, out).value == out + Read(AllLines(fs))
    decreases |fs|
  {
    hide Read, FirstRepeated;
    if fs == [] {
      NothingRead(out);
      assert out + [] == out;
    } else {
      var here, rest := Read(fs[0].source.lines), Read(AllLines(fs[1..]));
      ReadAppends(fs[0].source.lines, AllLines(fs[1..]));
      RepeatedAppends(here, rest, out);
      OutcomeIsAll(fs[1..], out + here);
      assert fs == [fs[0]] + fs[1..];
      assert (forall f <- fs :: Read(f.source.lines) != [])
        <==> here != [] && forall f <- fs[1..] :: Read(f.source.lines) != [];
      assert out + here + rest == out + (here + rest);
    }
  }

  lemma NothingRead(out: seq<Entry>)
    ensures Read([]) == [] && FirstRepeated([], out).None?
  {
  }

  /** Printed files, whatever stands between their tokens and around the object,
      are read back as exactly the properties with a quoted key, in order. They
      are refused if and only if a key is repeated, also across files, or a file
      gives no entry. */
  lemma CataloguesAreReadBack(fs: seq<Printed>)
    requires forall f <- fs :: GoodPrint(f)
    ensures var r := ReadFiles(FileTexts(fs), []); var es := Read(AllLines(fs));
      && (r.Ok? <==> DistinctKeys(es) && forall f <- fs :: Read(f.source.lines) != [])
      && (r.Ok? ==> r.value == es)
      && (FirstRepeated(es, []).Some? && (forall f <- fs :: Read(f.source.lines) != []) ==>
            r == Err(RepeatedKey(FirstRepeated(es, []).value)))
  {
    hide Read, FirstRepeated, GoodPrint, ReadFiles, Outcome;
    var es := Read(AllLines(fs));
    FilesAreRead(fs, []);
    OutcomeIsAll(fs, []);
    DistinctIsUnrepeated(es, []);
    assert [] + es == es;
    if forall f <- fs :: Read(f.source.lines) != [] { FirstIsNamed(fs, []); }
  }

  lemma {:induction false} FirstIsNamed(fs: seq<Printed>, out: seq<Entry>)
    requires forall f <- fs :: Read(f.source.lines) != []
    ensures var first := FirstRepeated(Read(AllLines(fs)), out);
            first.Some? ==> Outcome(fs, out) == Err(RepeatedKey(first.value))
    decreases |fs|
  {
    hide Read, FirstRepeated;
    if fs == [] {
      NothingRead(out);
    } else {
      ReadAppends(fs[0].source.lines, AllLines(fs[1..]));
      RepeatedAppends(Read(fs[0].source.lines), Read(AllLines(fs[1..])), out);
      assert fs[0] in fs && forall f <- fs[1..] :: f in fs;
      FirstIsNamed(fs[1..], out + Read(fs[0].source.lines));
    }
  }

  // ── What is refused, and what is not quite a catalogue

  /** A template string among the texts is read as one that no surface accepts. */
  lemma TemplatesAreNotTexts(t: string, rest: seq<Token>, key: string)
    ensures EntryTexts([Tpl(t)] + rest, key) == PrependText("${" + t, EntryTexts(rest, key))
    ensures BadTemplate("${" + t)
  {
    assert ([Tpl(t)] + rest)[1..] == rest;
    assert ("${" + t)[0] == '$' && ("${" + t)[1] == '{';
  }

  /** Anything but texts and commas in a list is refused, naming the key. */
  lemma {:induction false} OtherValuesAreRefused(texts: seq<string>, bad: Token, rest: seq<Token>, key: string)
    requires bad.Id? || (bad.Punct? && bad.c != ',' && bad.c != ']')
    ensures EntryTexts(TextTokens(texts) + ([bad] + rest), key) == Err(NotAText(key))
  {
    var closing := [bad] + rest;
    var all := TextTokens(texts) + closing;
    if |texts| == 0 {
      assert all == closing && closing[0] == bad;
    } else if |texts| == 1 {
      assert all[0] == Str(texts[0]) && all[1..] == closing && closing[0] == bad;
      assert EntryTexts(closing, key) == Err(NotAText(key));
    } else {
      var comma := [Punct(',')] + (TextTokens(texts[1..]) + closing);
      assert all[0] == Str(texts[0]) && all[1..] == comma;
      assert comma[0] == Punct(',') && comma[1..] == TextTokens(texts[1..]) + closing;
      OtherValuesAreRefused(texts[1..], bad, rest, key);
    }
  }

  /** So is the whole catalogue. */
  lemma OneBadValueIsEnough(key: string, texts: seq<string>, bad: Token, rest: seq<Token>, out: seq<Entry>)
    requires bad.Id? || (bad.Punct? && bad.c != ',' && bad.c != ']')
    ensures Collect([Str(key), Punct(':'), Punct('[')] + (TextTokens(texts) + ([bad] + rest)), out) == Err(NotAText(key))
  {
    hide EntryTexts, HasKey;
    var toks := [Str(key), Punct(':'), Punct('[')] + (TextTokens(texts) + ([bad] + rest));
    assert toks[3..] == TextTokens(texts) + ([bad] + rest);
    OtherValuesAreRefused(texts, bad, rest, key);
  }

  /** A list that the file does not close ends with it. */
  lemma UnclosedListEnds(key: string, texts: seq<string>, out: seq<Entry>)
    requires !HasKey(out, key)
    ensures Collect([Str(key), Punct(':'), Punct('[')] + TextTokens(texts), out) == Ok(out + [Entry(key, texts)])
  {
    hide HasKey;
    var toks := [Str(key), Punct(':'), Punct('[')] + TextTokens(texts);
    var more := out + [Entry(key, texts)];
    assert toks[3..] == TextTokens(texts);
    OpenTexts(texts, key);
    assert toks[1..] == [Punct(':'), Punct('[')] + TextTokens(texts) && toks[1..][1..] == [Punct('[')] + TextTokens(texts);
    assert toks[1..][1..][1..] == TextTokens(texts);
    TextsAndCommas(texts);
    CollectNoHead(toks[1..], more);
  }

  lemma {:induction false} TextsAndCommas(texts: seq<string>)
    ensures forall i :: 0 <= i < |TextTokens(texts)| ==> TextTokens(texts)[i].Str? || TextTokens(texts)[i] == Punct(',')
  {
    if |texts| > 1 {
      TextsAndCommas(texts[1..]);
      assert forall i :: 2 <= i < |TextTokens(texts)| ==> TextTokens(texts)[i] == TextTokens(texts[1..])[i - 2];
    }
  }

  lemma {:induction false} OpenTexts(texts: seq<string>, key: string)
    ensures EntryTexts(TextTokens(texts), key) == Ok(texts)
  {
    if |texts| == 1 {
      assert TextTokens(texts)[1..] == [] && [texts[0]] + [] == texts;
    } else if |texts| > 1 {
      assert TextTokens(texts)[1..][1..] == TextTokens(texts[1..]);
      OpenTexts(texts[1..], key);
      assert [texts[0]] + texts[1..] == texts;
    }
  }

  /** Without a colon after a text there is no entry. */
  lemma {:induction false} CollectNoHead(toks: seq<Token>, out: seq<Entry>)
    requires forall i :: 0 <= i < |toks| - 1 ==> toks[i].Str? ==> toks[i + 1] != Punct(':')
    ensures Collect(toks, out) == Ok(out)
  {
    hide EntryTexts;
    if |toks| >= 3 {
      assert !Head(toks);
      CollectNoHead(toks[1..], out);
    }
  }

  /** A comment or a text that is not closed is refused, after whatever was well
      written. */
  lemma {:induction false} UnclosedIsRefused(items: seq<Item>, gaps: seq<Gap>, body: string, quote: char)
    requires GoodFile(items, gaps)
    requires quote in {'\'', '"', '`'} && Enclosed(body, quote)
    requires forall i :: 0 <= i < |body| - 1 ==> !(body[i] == '*' && body[i + 1] == '/')
    ensures Lex(FileText(items, gaps) + ([quote] + body)) == Err(UnclosedText)
    ensures Lex(FileText(items, gaps) + ("/*" + body)) == Err(UnclosedComment)
  {
    hide Lex, TokenText, GapsText, Enclosed;
    if items == [] {
      LexGaps(gaps, [quote] + body);
      LexGaps(gaps, "/*" + body);
      LexUnclosedText(body, quote);
      LexUnclosedComment(body);
    } else {
      var i := items[0];
      UnclosedIsRefused(items[1..], gaps, body, quote);
      LexMore(i, FileText(items[1..], gaps), [quote] + body);
      LexMore(i, FileText(items[1..], gaps), "/*" + body);
    }
  }

  /** One token more at the front, of a text that is refused further on. */
  lemma LexMore(i: Item, rest: string, tail: string)
    requires (forall g :: g in i.gaps ==> GoodGap(g)) && GoodToken(i.token, i.quote)
    requires i.token.Id? ==> if rest != [] then !InName(rest[0]) else tail != [] && !InName(tail[0])
    requires Lex(rest + tail).Err?
    ensures Lex(GapsText(i.gaps) + (TokenText(i.token, i.quote) + rest) + tail) == Lex(rest + tail)
  {
    hide Lex, TokenText, GapsText, Enclosed;
    var t := i.token;
    var text := TokenText(t, i.quote);
    assert GapsText(i.gaps) + (text + rest) + tail == GapsText(i.gaps) + (text + (rest + tail));
    LexGaps(i.gaps, text + (rest + tail));
    if t.Str? || t.Tpl? { LexQuotedToken(t, i.quote, rest + tail); }
    else if t.Id? { LexName(t.text, rest + tail); }
    else { LexPunct(t.c, rest + tail); }
    PlainTokenText(t, i.quote);
  }

  lemma LexUnclosedText(body: string, quote: char)
    requires quote in {'\'', '"', '`'} && Enclosed(body, quote)
    ensures Lex([quote] + body) == Err(UnclosedText)
  {
    hide Enclosed, Quoted;
    var s := [quote] + body;
    assert s[1..] == body && s[0] == quote;
    NeverQuoted(body, quote);
    assert !StartsWith(s, "//") && !StartsWith(s, "/*") by {
      assert s[..1][0] == quote;
      assert |s| >= 2 ==> s[..2][0] == quote;
    }
  }

  lemma {:induction false} NeverQuoted(body: string, quote: char)
    requires Enclosed(body, quote)
    ensures Quoted(body, quote) == None
    decreases |body|
  {
    if body != [] {
      if body[0] == '\\' { NeverQuoted(body[2..], quote); } else { NeverQuoted(body[1..], quote); }
    }
  }

  lemma LexUnclosedComment(body: string)
    requires forall i :: 0 <= i < |body| - 1 ==> !(body[i] == '*' && body[i + 1] == '/')
    ensures Lex("/*" + body) == Err(UnclosedComment)
  {
    hide Find;
    var s := "/*" + body;
    assert s[2..] == body && s[..2] == "/*" && s[0] == '/' && s[1] == '*';
    assert !StartsWith(s, "//") by { assert s[..2][1] == '*'; }
    NeverFound(body);
  }

  lemma {:induction false} NeverFound(body: string)
    requires forall i :: 0 <= i < |body| - 1 ==> !(body[i] == '*' && body[i + 1] == '/')
    ensures Find(body, "*/") == None
  {
    if body != [] {
      assert !StartsWith(body, "*/") by {
        if |body| >= 2 { assert body[..2][0] == body[0] && body[..2][1] == body[1]; }
      }
      NeverFound(body[1..]);
    }
  }
}
