/** Every name and version in a lock file. */
module LockFile {
  import opened Text
  import opened AdvisoryGate

  // ── Lines

  predicate EndsLine(c: char) {
    c as int in {10, 11, 12, 13, 0x1c, 0x1d, 0x1e, 0x85, 0x2028, 0x2029}
  }

  predicate OneLine(s: string) { forall i :: 0 <= i < |s| ==> !EndsLine(s[i]) }

  function LineLength(s: string): (n: nat)
    ensures n <= |s|
  {
    if s == [] || EndsLine(s[0]) then 0 else 1 + LineLength(s[1..])
  }

  /** A carriage return and a line feed are cut apart: the empty line between
      them is one of those that say nothing. */
  function Lines(s: string): seq<string>
    decreases |s|
  {
    if s == [] then []
    else
      var n := LineLength(s);
      if n == |s| then [s] else [s[..n]] + Lines(s[n + 1..])
  }

  function TrimQuotes(s: string): string {
    if s != [] && s[0] == '"' then TrimQuotes(s[1..])
    else if s != [] && s[|s| - 1] == '"' then TrimQuotes(s[..|s| - 1])
    else s
  }

  const PACKAGE := "[[package]]"
  const NAME := "name = "
  const VERSION := "version = "

  function Value(line: string, start: string): string
    requires StartsWith(line, start)
  {
    TrimQuotes(Strip(line[|start|..]))
  }

  /** What one line does to the name that waits for its version. */
  function NameAfter(line: string, name: Option<string>): Option<string> {
    if line == PACKAGE then None
    else if StartsWith(line, NAME) then Some(Value(line, NAME))
    else if StartsWith(line, VERSION) && name.Some? then None
    else name
  }

  function PackageAt(line: string, name: Option<string>): seq<Package> {
    if line != PACKAGE && !StartsWith(line, NAME) && StartsWith(line, VERSION) && name.Some?
    then [Package(name.value, Value(line, VERSION))]
    else []
  }

  function PackagesIn(lines: seq<string>, name: Option<string>): seq<Package> {
    if lines == [] then []
    else
      var line := Strip(lines[0]);
      PackageAt(line, name) + PackagesIn(lines[1..], NameAfter(line, name))
  }

  method ParseLock(text: string) returns (packages: seq<Package>)
    ensures packages == PackagesIn(Lines(text), None)
  {
    hide PackagesIn, Lines, Strip, TrimQuotes;
    packages := [];
    var name: Option<string> := None;
    var lines := Lines(text);
    assert lines[0..] == lines && [] + PackagesIn(lines, None) == PackagesIn(lines, None);
    for i := 0 to |lines|
      invariant PackagesIn(lines, None) == packages + PackagesIn(lines[i..], name)
    {
      LineHere(lines[i..], name);
      assert lines[i..][0] == lines[i] && lines[i..][1..] == lines[i + 1..];
      var line := Strip(lines[i]);
      ghost var here := PackageAt(line, name);
      ghost var rest := PackagesIn(lines[i + 1..], NameAfter(line, name));
      assert packages + (here + rest) == packages + here + rest;
      if line == PACKAGE {
        name := None;
      } else if StartsWith(line, NAME) {
        name := Some(TrimQuotes(Strip(line[|NAME|..])));
      } else if StartsWith(line, VERSION) && name.Some? {
        var version := TrimQuotes(Strip(line[|VERSION|..]));
        packages := packages + [Package(name.value, version)];
        name := None;
      }
    }
    NoLines(name);
    assert lines[|lines|..] == [] && packages + [] == packages;
  }

  lemma LineHere(lines: seq<string>, name: Option<string>)
    requires lines != []
    ensures PackagesIn(lines, name)
         == PackageAt(Strip(lines[0]), name) + PackagesIn(lines[1..], NameAfter(Strip(lines[0]), name))
  {
  }

  lemma NoLines(name: Option<string>)
    ensures PackagesIn([], name) == []
  {
  }

  // ── Printing

  /** A line about neither names nor versions, however it is indented. */
  predicate Silent(line: string) {
    OneLine(line) && Strip(line) != "[[package]]"
    && !StartsWith(Strip(line), "name = ") && !StartsWith(Strip(line), "version = ")
  }

  /** A package as a lock file writes it: other lines may stand between its name
      and its version, and after them. */
  datatype Block = Block(package: Package, between: seq<string>, rest: seq<string>)

  predicate Bare(s: string) { OneLine(s) && (s != [] ==> s[0] != '"' && s[|s| - 1] != '"') }

  predicate GoodBlock(b: Block) {
    Bare(b.package.name) && Bare(b.package.version)
    && (forall l <- b.between :: Silent(l)) && (forall l <- b.rest :: Silent(l))
  }

  /** What may stand before the first package: anything that gives no name. */
  predicate Preamble(line: string) { OneLine(line) && !StartsWith(Strip(line), "name = ") }

  function Quoted(s: string): string { "\"" + s + "\"" }

  function BlockLines(b: Block): seq<string> {
    ["[[package]]", "name = " + Quoted(b.package.name)] + (b.between + (["version = " + Quoted(b.package.version)] + b.rest))
  }

  function BlocksLines(bs: seq<Block>): seq<string> {
    if bs == [] then [] else BlockLines(bs[0]) + BlocksLines(bs[1..])
  }

  function Spelt(lines: seq<string>): string {
    if lines == [] then [] else lines[0] + "\n" + Spelt(lines[1..])
  }

  function PackagesOf(bs: seq<Block>): seq<Package> {
    seq(|bs|, i requires 0 <= i < |bs| => bs[i].package)
  }

  lemma {:induction false} LineLengthIs(line: string, rest: string)
    requires OneLine(line) && rest != [] && EndsLine(rest[0])
    ensures LineLength(line + rest) == |line|
  {
    if line == [] {
      assert line + rest == rest;
    } else {
      assert (line + rest)[0] == line[0] && (line + rest)[1..] == line[1..] + rest;
      LineLengthIs(line[1..], rest);
    }
  }

  lemma {:induction false} LinesUndoSpelling(lines: seq<string>)
    requires forall l <- lines :: OneLine(l)
    ensures Lines(Spelt(lines)) == lines
  {
    if lines != [] {
      var line, rest := lines[0], Spelt(lines[1..]);
      var all := Spelt(lines);
      assert all == line + ("\n" + rest);
      assert line in lines;
      LineLengthIs(line, "\n" + rest);
      assert all[..|line|] == line && all[|line| + 1..] == rest;
      assert forall l <- lines[1..] :: l in lines;
      LinesUndoSpelling(lines[1..]);
    }
  }

  lemma TrimQuotesHere(s: string)
    ensures TrimQuotes(s) == if s != [] && s[0] == '"' then TrimQuotes(s[1..])
                             else if s != [] && s[|s| - 1] == '"' then TrimQuotes(s[..|s| - 1])
                             else s
  {
  }

  lemma AllQuotesTrimmed(s: string)
    requires s != [] ==> s[0] != '"' && s[|s| - 1] != '"'
    ensures TrimQuotes(Quoted(s)) == s
  {
    hide TrimQuotes;
    var q, rest := Quoted(s), s + "\"";
    assert q[1..] == rest && rest[..|s|] == s;
    TrimQuotesHere(q);
    TrimQuotesHere(rest);
    TrimQuotesHere(s);
    if s == [] { assert rest[1..] == s; }
  }

  lemma ValueIsRead(start: string, s: string)
    requires Bare(s) && start in {NAME, VERSION}
    ensures var line := Strip(start + Quoted(s)); line == start + Quoted(s) && Value(line, start) == s
  {
    hide TrimQuotes, Strip;
    var q, line := Quoted(s), start + Quoted(s);
    assert line[0] == start[0] && line[|line| - 1] == '"' && q[0] == '"' && q[|q| - 1] == '"';
    assert [] + line + [] == line && [] + q + [] == q;
    StripPadded([], line, []);
    StripPadded([], q, []);
    assert line[|start|..] == q;
    AllQuotesTrimmed(s);
  }

  lemma HeaderIsItself()
    ensures Strip(PACKAGE) == PACKAGE
  {
    hide Strip;
    assert [] + PACKAGE + [] == PACKAGE;
    StripPadded([], PACKAGE, []);
  }

  lemma {:induction false} SilentSaysNothing(quiet: seq<string>, rest: seq<string>, name: Option<string>)
    requires forall l <- quiet :: Silent(l)
    ensures PackagesIn(quiet + rest, name) == PackagesIn(rest, name)
  {
    hide PackagesIn, Strip;
    if quiet == [] {
      assert quiet + rest == rest;
    } else {
      assert quiet[0] in quiet && forall l <- quiet[1..] :: l in quiet;
      assert (quiet + rest)[0] == quiet[0] && (quiet + rest)[1..] == quiet[1..] + rest;
      LineHere(quiet + rest, name);
      SilentSaysNothing(quiet[1..], rest, name);
      assert [] + PackagesIn(quiet[1..] + rest, name) == PackagesIn(quiet[1..] + rest, name);
    }
  }

  lemma {:induction false} PreambleSaysNothing(lines: seq<string>, rest: seq<string>)
    requires forall l <- lines :: Preamble(l)
    ensures PackagesIn(lines + rest, None) == PackagesIn(rest, None)
  {
    hide PackagesIn, Strip;
    if lines == [] {
      assert lines + rest == rest;
    } else {
      assert lines[0] in lines && forall l <- lines[1..] :: l in lines;
      assert (lines + rest)[0] == lines[0] && (lines + rest)[1..] == lines[1..] + rest;
      LineHere(lines + rest, None);
      PreambleSaysNothing(lines[1..], rest);
      assert [] + PackagesIn(lines[1..] + rest, None) == PackagesIn(lines[1..] + rest, None);
    }
  }

  lemma NameLine(s: string, rest: seq<string>, name: Option<string>)
    requires Bare(s)
    ensures PackagesIn([NAME + Quoted(s)] + rest, name) == PackagesIn(rest, Some(s))
  {
    hide PackagesIn, Strip, Value;
    var lines := [NAME + Quoted(s)] + rest;
    ValueIsRead(NAME, s);
    assert lines[1..] == rest && lines[0][0] == 'n';
    LineHere(lines, name);
    assert [] + PackagesIn(rest, Some(s)) == PackagesIn(rest, Some(s));
  }

  lemma VersionLine(name: string, s: string, rest: seq<string>)
    requires Bare(s)
    ensures PackagesIn([VERSION + Quoted(s)] + rest, Some(name)) == [Package(name, s)] + PackagesIn(rest, None)
  {
    hide PackagesIn, Strip, Value;
    var lines := [VERSION + Quoted(s)] + rest;
    ValueIsRead(VERSION, s);
    assert lines[1..] == rest && lines[0][0] == 'v';
    assert NAME[0] == 'n' && PACKAGE[0] == '[';
    assert !StartsWith(lines[0], NAME) by {
      if |NAME| <= |lines[0]| { assert lines[0][..|NAME|][0] == 'v'; }
    }
    LineHere(lines, Some(name));
  }

  lemma HeaderLine(rest: seq<string>, name: Option<string>)
    ensures PackagesIn([PACKAGE] + rest, name) == PackagesIn(rest, None)
  {
    hide PackagesIn, Strip;
    HeaderIsItself();
    var lines := [PACKAGE] + rest;
    assert lines[1..] == rest;
    LineHere(lines, name);
    assert [] + PackagesIn(rest, None) == PackagesIn(rest, None);
  }

  lemma BlockIsRead(b: Block, more: seq<string>, name: Option<string>)
    requires GoodBlock(b)
    ensures PackagesIn(BlockLines(b) + more, name) == [b.package] + PackagesIn(more, None)
  {
    hide PackagesIn, Silent, Bare, Quoted;
    var version := [VERSION + Quoted(b.package.version)];
    var tail := b.rest + more;
    var fromVersion := version + tail;
    var fromBetween := b.between + fromVersion;
    var nameLine := [NAME + Quoted(b.package.name)];
    assert BlockLines(b) + more == [PACKAGE] + (nameLine + fromBetween);
    HeaderLine(nameLine + fromBetween, name);
    NameLine(b.package.name, fromBetween, None);
    SilentSaysNothing(b.between, fromVersion, Some(b.package.name));
    VersionLine(b.package.name, b.package.version, tail);
    SilentSaysNothing(b.rest, more, None);
  }

  lemma {:induction false} BlocksAreRead(bs: seq<Block>)
    requires forall b <- bs :: GoodBlock(b)
    ensures PackagesIn(BlocksLines(bs), None) == PackagesOf(bs)
  {
    hide PackagesIn, GoodBlock, BlockLines;
    if bs == [] {
      NoLines(None);
    } else {
      assert bs[0] in bs && forall b <- bs[1..] :: b in bs;
      BlockIsRead(bs[0], BlocksLines(bs[1..]), None);
      BlocksAreRead(bs[1..]);
      assert PackagesOf(bs) == [bs[0].package] + PackagesOf(bs[1..]);
    }
  }

  lemma QuotedIsOneLine(start: string, s: string)
    requires OneLine(s) && start in {NAME, VERSION}
    ensures OneLine(start + Quoted(s))
  {
    var line := start + Quoted(s);
    forall i | 0 <= i < |line| ensures !EndsLine(line[i]) {
      if i >= |start| + 1 && i < |line| - 1 { assert line[i] == s[i - |start| - 1]; }
    }
  }

  lemma BlockIsLines(b: Block)
    requires GoodBlock(b)
    ensures forall l <- BlockLines(b) :: OneLine(l)
  {
    hide OneLine, Strip, Quoted;
    QuotedIsOneLine(NAME, b.package.name);
    QuotedIsOneLine(VERSION, b.package.version);
    HeaderIsOneLine();
  }

  lemma HeaderIsOneLine()
    ensures OneLine(PACKAGE)
  {
  }

  lemma {:induction false} BlocksAreLines(bs: seq<Block>)
    requires forall b <- bs :: GoodBlock(b)
    ensures forall l <- BlocksLines(bs) :: OneLine(l)
  {
    hide GoodBlock, BlockLines, OneLine;
    if bs != [] {
      assert bs[0] in bs && forall b <- bs[1..] :: b in bs;
      BlockIsLines(bs[0]);
      BlocksAreLines(bs[1..]);
    }
  }

  /** Reading a printed lock file gives its packages, in order: whatever stands
      before the first one, and whatever else each one says. */
  lemma PrintedLockIsRead(preamble: seq<string>, bs: seq<Block>)
    requires (forall l <- preamble :: Preamble(l)) && forall b <- bs :: GoodBlock(b)
    ensures PackagesIn(Lines(Spelt(preamble + BlocksLines(bs))), None) == PackagesOf(bs)
  {
    hide PackagesIn, GoodBlock, Lines, OneLine, Strip;
    BlocksAreLines(bs);
    LinesUndoSpelling(preamble + BlocksLines(bs));
    PreambleSaysNothing(preamble, BlocksLines(bs));
    BlocksAreRead(bs);
  }

  // ── What ends a line, and what is trimmed

  /** Line feed to carriage return, three separators of information, the next line,
      and the separators of lines and of paragraphs. */
  predicate Cuts(c: char) {
    10 <= c as int <= 13 || 28 <= c as int <= 30 || c as int == 133 || c as int == 8232 || c as int == 8233
  }

  /** A text is cut at the first such character, and nowhere before it. */
  lemma CutsALine(line: string, c: char, rest: string)
    requires forall i :: 0 <= i < |line| ==> !Cuts(line[i])
    ensures Cuts(c) ==> Lines(line + [c] + rest) == [line] + Lines(rest)
    ensures line != [] ==> Lines(line) == [line]
  {
    hide Lines;
    assert forall d: char :: Cuts(d) <==> EndsLine(d);
    if Cuts(c) {
      var all := line + [c] + rest;
      assert all == line + ([c] + rest);
      LineLengthIs(line, [c] + rest);
      assert all[..|line|] == line && all[|line| + 1..] == rest;
      FirstLine(all);
    }
    if line != [] {
      WholeLength(line);
      FirstLine(line);
    }
  }

  lemma FirstLine(s: string)
    requires s != []
    ensures Lines(s) == if LineLength(s) == |s| then [s] else [s[..LineLength(s)]] + Lines(s[LineLength(s) + 1..])
  {
  }

  lemma {:induction false} WholeLength(line: string)
    requires OneLine(line)
    ensures LineLength(line) == |line|
  {
    if line != [] { WholeLength(line[1..]); }
  }

  function Quotes(n: nat): string { if n == 0 then [] else ['"'] + Quotes(n - 1) }

  /** However many quotes stand around a value, they are all taken off. */
  lemma {:induction false} QuotesAreTakenOff(left: nat, s: string, right: nat)
    requires s != [] && s[0] != '"' && s[|s| - 1] != '"'
    ensures TrimQuotes(Quotes(left) + s + Quotes(right)) == s
    decreases left + right
  {
    hide TrimQuotes;
    var all := Quotes(left) + s + Quotes(right);
    TrimQuotesHere(all);
    if left > 0 {
      assert all[0] == '"' && all[1..] == Quotes(left - 1) + s + Quotes(right);
      QuotesAreTakenOff(left - 1, s, right);
    } else if right > 0 {
      QuoteLast(right - 1);
      assert all == s + Quotes(right - 1) + ['"'] && all[0] == s[0];
      assert all[..|all| - 1] == Quotes(0) + s + Quotes(right - 1);
      QuotesAreTakenOff(0, s, right - 1);
    } else {
      assert all == s;
    }
  }

  lemma {:induction false} QuoteLast(n: nat)
    ensures Quotes(n) + ['"'] == Quotes(n + 1)
  {
    if n > 0 { QuoteLast(n - 1); }
  }
}
