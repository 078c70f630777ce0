/** The reader of string catalogues: text to tokens, tokens to entries. */
module ReleaseLexer {
  import opened Text
  import opened Templates
  import opened ReleaseGuard

  datatype Token = Str(text: string) | Tpl(text: string) | Id(text: string) | Punct(c: char)

  datatype Invalid =
    | UnclosedComment
    | UnclosedText
    | NotAText(key: string)
    | RepeatedKey(key: string)
    | EmptyCatalogue
    | MissingFile

  datatype Result<+T> = Ok(value: T) | Err(error: Invalid)

  predicate IsQuote(c: char) { c == '\'' || c == '"' || c == '`' }
  predicate IsIdStart(c: char) { 'a' <= c <= 'z' || 'A' <= c <= 'Z' || '0' <= c <= '9' || c == '_' || c == '$' }
  predicate IsIdPart(c: char) { IsIdStart(c) || c == '.' }

  /** Where `mark` first occurs. */
  function Find(s: string, mark: string): (at: Option<nat>)
    ensures at.Some? ==> at.value + |mark| <= |s|
  {
    if StartsWith(s, mark) then Some(0)
    else if s == [] then None
    else match Find(s[1..], mark)
      case None => None
      case Some(n) => Some(n + 1)
  }

  /** From the end of the line on: the newline itself stays. */
  function AfterLine(s: string): (rest: string)
    ensures |rest| <= |s|
  {
    match Find(s, "\n")
    case None => []
    case Some(n) => s[n..]
  }

  type Split = Option<(string, string)>

  function Then(prefix: string, r: Split): Split {
    match r
    case None => None
    case Some((body, rest)) => Some((prefix + body, rest))
  }

  /** The body of a text up to its closing quote, escapes kept as written, and
      what follows the quote. */
  function Quoted(s: string, quote: char): (r: Split)
    ensures r.Some? ==> |r.value.1| < |s|
  {
    if s == [] then None
    else if s[0] == quote then Some(([], s[1..]))
    else if s[0] != '\\' then Then([s[0]], Quoted(s[1..], quote))
    else if |s| < 2 then None
    else Then(s[..2], Quoted(s[2..], quote))
  }

  /** A body that does not end before its closing quote: escapes in pairs, and
      the quote only escaped. */
  predicate Enclosed(body: string, quote: char) {
    body == [] ||
    if body[0] == quote then false
    else if body[0] == '\\' then |body| >= 2 && Enclosed(body[2..], quote)
    else Enclosed(body[1..], quote)
  }

  function Prepend(t: Token, r: Result<seq<Token>>): Result<seq<Token>> {
    match r
    case Err(e) => Err(e)
    case Ok(ts) => Ok([t] + ts)
  }

  function Lex(s: string): Result<seq<Token>>
    decreases |s|
  {
    if s == [] then Ok([])
    else if IsSpace(s[0]) then Lex(s[1..])
    else if StartsWith(s, "//") then Lex(AfterLine(s[1..]))
    else if StartsWith(s, "/*") then
      match Find(s[2..], "*/")
      case None => Err(UnclosedComment)
      case Some(n) => Lex(s[2..][n + 2..])
    else if IsQuote(s[0]) then
      match Quoted(s[1..], s[0])
      case None => Err(UnclosedText)
      case Some((body, rest)) => Prepend(if s[0] == '`' then Tpl(body) else Str(body), Lex(rest))
    else if IsIdStart(s[0]) then
      var n := Span(s, IsIdPart);
      Prepend(Id(s[..n]), Lex(s[n..]))
    else Prepend(Punct(s[0]), Lex(s[1..]))
  }

  function Joined(done: seq<Token>, r: Result<seq<Token>>): Result<seq<Token>> {
    match r
    case Err(e) => Err(e)
    case Ok(ts) => Ok(done + ts)
  }

  lemma JoinedOneMore(done: seq<Token>, t: Token, r: Result<seq<Token>>)
    ensures Joined(done, Prepend(t, r)) == Joined(done + [t], r)
  {
    if r.Ok? { assert done + ([t] + r.value) == done + [t] + r.value; }
  }

  lemma NothingJoined(r: Result<seq<Token>>)
    ensures Joined([], r) == r
  {
    if r.Ok? { assert [] + r.value == r.value; }
  }

  // ── One token, seen from an index

  lemma LexLine(text: string, i: nat)
    requires i < |text| && !IsSpace(text[i]) && StartsWith(text[i..], "//")
    ensures var rest := AfterLine(text[i + 1..]);
            |rest| < |text| - i && Lex(text[i..]) == Lex(text[|text| - |rest|..])
  {
    var rest := AfterLine(text[i + 1..]);
    assert text[i..][1..] == text[i + 1..];
    assert rest == text[|text| - |rest|..];
  }

  lemma LexBlock(text: string, i: nat)
    requires i < |text| && !IsSpace(text[i]) && StartsWith(text[i..], "/*")
    ensures |text| >= i + 2
    ensures var j := Find(text[i + 2..], "*/");
            Lex(text[i..]) == if j.None? then Err(UnclosedComment) else Lex(text[i + j.value + 4..])
  {
    assert text[i..][..2] == "/*" && text[i..][1] == '*';
    assert text[i..][2..] == text[i + 2..];
    assert !StartsWith(text[i..], "//") by { assert "//"[1] == '/'; }
    var j := Find(text[i + 2..], "*/");
    if j.Some? { assert text[i + 2..][j.value + 2..] == text[i + j.value + 4..]; }
  }

  lemma LexQuoted(text: string, i: nat)
    requires i < |text| && IsQuote(text[i])
    ensures var q := Quoted(text[i + 1..], text[i]);
            Lex(text[i..]) == if q.None? then Err(UnclosedText)
                              else Prepend(if text[i] == '`' then Tpl(q.value.0) else Str(q.value.0), Lex(q.value.1))
  {
    assert text[i..][1..] == text[i + 1..];
    assert !StartsWith(text[i..], "//") && !StartsWith(text[i..], "/*") by {
      assert text[i..][0] == text[i] && "//"[0] == '/' && "/*"[0] == '/';
    }
  }

  lemma LexId(text: string, i: nat)
    requires i < |text| && IsIdStart(text[i])
    ensures var n := Span(text[i..], IsIdPart);
            n > 0 && i + n <= |text| && Lex(text[i..]) == Prepend(Id(text[i..i + n]), Lex(text[i + n..]))
  {
    var n := Span(text[i..], IsIdPart);
    assert text[i..][..n] == text[i..i + n] && text[i..][n..] == text[i + n..];
    assert !StartsWith(text[i..], "//") && !StartsWith(text[i..], "/*") by {
      assert text[i..][0] == text[i] && "//"[0] == '/' && "/*"[0] == '/';
    }
  }

  lemma LexOther(text: string, i: nat)
    requires i < |text|
    ensures text[i..][1..] == text[i + 1..]
    ensures IsSpace(text[i]) ==> Lex(text[i..]) == Lex(text[i + 1..])
    ensures !IsSpace(text[i]) && !IsQuote(text[i]) && !IsIdStart(text[i])
            && !StartsWith(text[i..], "//") && !StartsWith(text[i..], "/*")
            ==> Lex(text[i..]) == Prepend(Punct(text[i]), Lex(text[i + 1..]))
  {
  }

  /** The scan of the source: one index over the text. */
  method Tokens(text: string) returns (r: Result<seq<Token>>)
    ensures r == Lex(text)
  {
    hide Lex, Quoted, Find, AfterLine, StartsWith;
    var i, done := 0, [];
    assert text[0..] == text;
    NothingJoined(Lex(text));
    while i < |text|
      invariant 0 <= i <= |text|
      invariant Lex(text) == Joined(done, Lex(text[i..]))
    {
      var c := text[i];
      if IsSpace(c) {
        LexOther(text, i);
        i := i + 1;
      } else if StartsWith(text[i..], "//") {
        LexLine(text, i);
        i := |text| - |AfterLine(text[i + 1..])|;
      } else if StartsWith(text[i..], "/*") {
        LexBlock(text, i);
        var j := Find(text[i + 2..], "*/");
        if j.None? { return Err(UnclosedComment); }
        i := i + j.value + 4;
      } else if IsQuote(c) {
        LexQuoted(text, i);
        var j := ScanQuoted(text, i + 1, c);
        if j.None? { return Err(UnclosedText); }
        var t := if c == '`' then Tpl(text[i + 1..j.value]) else Str(text[i + 1..j.value]);
        JoinedOneMore(done, t, Lex(text[j.value + 1..]));
        done, i := done + [t], j.value + 1;
      } else if IsIdStart(c) {
        LexId(text, i);
        var n := Span(text[i..], IsIdPart);
        JoinedOneMore(done, Id(text[i..i + n]), Lex(text[i + n..]));
        done, i := done + [Id(text[i..i + n])], i + n;
      } else {
        LexOther(text, i);
        JoinedOneMore(done, Punct(c), Lex(text[i + 1..]));
        done, i := done + [Punct(c)], i + 1;
      }
    }
    assert text[i..] == [];
    LexEmpty();
    r := Ok(done);
    assert done + [] == done;
  }

  lemma LexEmpty()
    ensures Lex([]) == Ok([])
  {
  }

  lemma ThenOneMore(prefix: string, p: string, r: Split)
    ensures Then(prefix, Then(p, r)) == Then(prefix + p, r)
  {
    if r.Some? { assert prefix + (p + r.value.0) == prefix + p + r.value.0; }
  }

  lemma QuotedAt(text: string, k: nat, quote: char)
    requires k < |text| && text[k] != quote
    ensures text[k] != '\\' ==> Quoted(text[k..], quote) == Then(text[k..k + 1], Quoted(text[k + 1..], quote))
    ensures text[k] == '\\' && k + 1 >= |text| ==> Quoted(text[k..], quote).None?
    ensures text[k] == '\\' && k + 1 < |text| ==> Quoted(text[k..], quote) == Then(text[k..k + 2], Quoted(text[k + 2..], quote))
  {
    var here := text[k..];
    assert here[1..] == text[k + 1..] && [here[0]] == text[k..k + 1];
    if |here| >= 2 { assert here[2..] == text[k + 2..] && here[..2] == text[k..k + 2]; }
  }

  /** The inner loop over a quoted text: the index of its closing quote. */
  method ScanQuoted(text: string, start: nat, quote: char) returns (j: Option<nat>)
    requires start <= |text|
    ensures j.None? <==> Quoted(text[start..], quote).None?
    ensures j.Some? ==>
              && start <= j.value < |text|
              && Quoted(text[start..], quote) == Some((text[start..j.value], text[j.value + 1..]))
  {
    hide Quoted;
    var k := start;
    assert text[start..start] == [];
    NothingBefore(Quoted(text[start..], quote));
    while k < |text| && text[k] != quote
      invariant start <= k <= |text|
      invariant Quoted(text[start..], quote) == Then(text[start..k], Quoted(text[k..], quote))
    {
      QuotedAt(text, k, quote);
      var step := if text[k] == '\\' then 2 else 1;
      if k + step > |text| { return None; }
      ThenOneMore(text[start..k], text[k..k + step], Quoted(text[k + step..], quote));
      assert text[start..k] + text[k..k + step] == text[start..k + step];
      k := k + step;
    }
    QuotedEnds(text, k, quote);
    assert text[start..k] + [] == text[start..k];
    j := if k < |text| then Some(k) else None;
  }

  lemma NothingBefore(r: Split)
    ensures Then([], r) == r
  {
    if r.Some? { assert [] + r.value.0 == r.value.0; }
  }

  lemma QuotedEnds(text: string, k: nat, quote: char)
    requires k <= |text| && (k < |text| ==> text[k] == quote)
    ensures Quoted(text[k..], quote) == if k < |text| then Some(([], text[k + 1..])) else None
  {
    if k < |text| { assert text[k..][1..] == text[k + 1..]; }
  }

  // ── Tokens to entries

  predicate Head(toks: seq<Token>) {
    |toks| >= 3 && toks[0].Str? && toks[1] == Punct(':') && toks[2] == Punct('[')
  }

  function PrependText(t: string, r: Result<seq<string>>): Result<seq<string>> {
    match r
    case Err(e) => Err(e)
    case Ok(ts) => Ok([t] + ts)
  }

  /** The texts of the entry `key`, up to the closing bracket. */
  function EntryTexts(toks: seq<Token>, key: string): Result<seq<string>> {
    if toks == [] || toks[0] == Punct(']') then Ok([])
    else match toks[0]
      case Str(t) => PrependText(t, EntryTexts(toks[1..], key))
      case Tpl(t) => PrependText("${" + t, EntryTexts(toks[1..], key))
      case Id(_) => Err(NotAText(key))
      case Punct(c) => if c == ',' then EntryTexts(toks[1..], key) else Err(NotAText(key))
  }

  predicate HasKey(entries: seq<Entry>, key: string) {
    exists e :: e in entries && e.key == key
  }

  function Collect(toks: seq<Token>, out: seq<Entry>): Result<seq<Entry>> {
    if |toks| < 3 then Ok(out)
    else if !Head(toks) then Collect(toks[1..], out)
    else match EntryTexts(toks[3..], toks[0].text)
      case Err(e) => Err(e)
      case Ok(texts) =>
        if HasKey(out, toks[0].text) then Err(RepeatedKey(toks[0].text))
        else Collect(toks[1..], out + [Entry(toks[0].text, texts)])
  }

  /** The entries of the files in order; None is a file that does not exist. */
  function ReadFiles(files: seq<Option<string>>, out: seq<Entry>): Result<seq<Entry>> {
    if files == [] then Ok(out)
    else if files[0].None? then Err(MissingFile)
    else match Lex(files[0].value)
      case Err(e) => Err(e)
      case Ok(toks) =>
        match Collect(toks, out)
        case Err(e) => Err(e)
        case Ok(more) => if |more| == |out| then Err(EmptyCatalogue) else ReadFiles(files[1..], more)
  }

  function JoinedTexts(done: seq<string>, r: Result<seq<string>>): Result<seq<string>> {
    match r
    case Err(e) => Err(e)
    case Ok(ts) => Ok(done + ts)
  }

  method ReadValues(toks: seq<Token>, start: nat, key: string) returns (r: Result<seq<string>>)
    requires start <= |toks|
    ensures r == EntryTexts(toks[start..], key)
  {
    var j, texts := start, [];
    NoTextsYet(EntryTexts(toks[start..], key));
    while j < |toks| && toks[j] != Punct(']')
      invariant start <= j <= |toks|
      invariant EntryTexts(toks[start..], key) == JoinedTexts(texts, EntryTexts(toks[j..], key))
    {
      ValuesAt(toks, j, key);
      match toks[j] {
        case Str(t) => OneMoreText(texts, t, EntryTexts(toks[j + 1..], key)); texts := texts + [t];
        case Tpl(t) => OneMoreText(texts, "${" + t, EntryTexts(toks[j + 1..], key)); texts := texts + ["${" + t];
        case Id(_) => return Err(NotAText(key));
        case Punct(c) => if c != ',' { return Err(NotAText(key)); }
      }
      j := j + 1;
    }
    assert j < |toks| ==> toks[j..][0] == toks[j];
    assert texts + [] == texts;
    r := Ok(texts);
  }

  lemma NoTextsYet(r: Result<seq<string>>)
    ensures JoinedTexts([], r) == r
  {
    if r.Ok? { assert [] + r.value == r.value; }
  }

  lemma OneMoreText(done: seq<string>, t: string, r: Result<seq<string>>)
    ensures JoinedTexts(done, PrependText(t, r)) == JoinedTexts(done + [t], r)
  {
    if r.Ok? { assert done + ([t] + r.value) == done + [t] + r.value; }
  }

  lemma ValuesAt(toks: seq<Token>, j: nat, key: string)
    requires j < |toks|
    ensures toks[j..][0] == toks[j] && toks[j..][1..] == toks[j + 1..]
  {
  }

  method CollectEntries(toks: seq<Token>, before: seq<Entry>) returns (r: Result<seq<Entry>>)
    ensures r == Collect(toks, before)
  {
    var k, out := 0, before;
    assert toks[0..] == toks;
    while k + 2 < |toks|
      invariant 0 <= k <= |toks|
      invariant Collect(toks, before) == Collect(toks[k..], out)
    {
      ValuesAt(toks, k, "");
      assert toks[k..][1] == toks[k + 1] && toks[k..][2] == toks[k + 2] && toks[k..][3..] == toks[k + 3..];
      if toks[k].Str? && toks[k + 1] == Punct(':') && toks[k + 2] == Punct('[') {
        var key := toks[k].text;
        var texts := ReadValues(toks, k + 3, key);
        if texts.Err? { return Err(texts.error); }
        if HasKey(out, key) { return Err(RepeatedKey(key)); }
        out := out + [Entry(key, texts.value)];
      }
      k := k + 1;
    }
    r := Ok(out);
  }

  method Catalogue(files: seq<Option<string>>) returns (r: Result<seq<Entry>>)
    ensures r == ReadFiles(files, [])
  {
    hide Lex, Collect;
    var i, out := 0, [];
    assert files[0..] == files;
    while i < |files|
      invariant 0 <= i <= |files|
      invariant ReadFiles(files, []) == ReadFiles(files[i..], out)
    {
      assert files[i..][0] == files[i] && files[i..][1..] == files[i + 1..];
      if files[i].None? { return Err(MissingFile); }
      var toks := Tokens(files[i].value);
      if toks.Err? { return Err(toks.error); }
      var more := CollectEntries(toks.value, out);
      if more.Err? { return Err(more.error); }
      if |more.value| == |out| { return Err(EmptyCatalogue); }
      out := more.value;
      i := i + 1;
    }
    r := Ok(out);
  }
}
