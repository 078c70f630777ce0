/** The names an object literal supplies, as the guard reads them in its text. */
module ObjectLiteral {
  import opened Text
  import opened Templates
  import opened ReleaseGuard
  import opened ReleaseLexer
  import opened CallReader

  function Into(c: char, depth: int): int {
    if IsOpen(c) then depth + 1 else if IsClose(c) then depth - 1 else depth
  }

  function DepthAfter(s: string, depth: int): int {
    if s == [] then depth else DepthAfter(s[1..], Into(s[0], depth))
  }

  function Visible(c: char, depth: int): char {
    if depth == 0 || (IsOpen(c) && depth == 1) then c else ' '
  }

  /** The text with everything inside nested brackets blanked. */
  function Mask(s: string, depth: int): string {
    if s == [] then []
    else [Visible(s[0], Into(s[0], depth))] + Mask(s[1..], Into(s[0], depth))
  }

  /** A name, white space, and then `:`, `,` or the end: the name and how far
      the match goes. */
  function WordHere(word: string): (r: Option<(string, nat)>)
    ensures r.Some? ==> 0 < r.value.1 <= |word|
  {
    if word == [] || !IsNameStart(word[0]) then None
    else
      var n := Span(word, IsNameChar);
      var b := Span(word[n..], IsSpace);
      if n + b == |word| || word[n + b] == ':' || word[n + b] == ',' then Some((word[..n], n + b)) else None
  }

  function NameHere(s: string): (r: Option<(string, nat)>)
    ensures r.Some? ==> 0 < r.value.1 <= |s|
  {
    var a := Span(s, IsSpace);
    match WordHere(s[a..])
    case None => None
    case Some((name, n)) => Some((name, a + n))
  }

  /** A match of `(^|,) name (?= : | , | end)` at the front of `s`. */
  function KeyHere(s: string, first: bool): (r: Option<(string, nat)>)
    ensures r.Some? ==> 0 < r.value.1 <= |s|
  {
    if first && NameHere(s).Some? then NameHere(s)
    else if s != [] && s[0] == ',' then
      match NameHere(s[1..])
      case None => None
      case Some((name, n)) => Some((name, n + 1))
    else None
  }

  /** Every match, from left to right, each starting where the last one ended. */
  function FindKeys(s: string, first: bool): set<string>
    decreases |s|
  {
    if s == [] then {}
    else match KeyHere(s, first)
      case Some((name, n)) => {name} + FindKeys(s[n..], false)
      case None => FindKeys(s[1..], false)
  }

  /** What a second argument supplies. */
  function GivenNames(arg: Option<string>): Given {
    match arg
    case None => NoValues
    case Some(a) =>
      if |a| >= 2 && a[0] == '{' && a[|a| - 1] == '}'
      then Names(FindKeys(Mask(a[1..|a| - 1], 0), true))
      else Unread
  }

  /** The loop of the source that blanks what is nested. */
  method MaskNested(inner: string) returns (top: string)
    ensures top == Mask(inner, 0)
  {
    hide Mask;
    var i, depth := 0, 0;
    top := [];
    assert inner[0..] == inner && top + Mask(inner, 0) == Mask(inner, 0);
    while i < |inner|
      invariant 0 <= i <= |inner|
      invariant Mask(inner, 0) == top + Mask(inner[i..], depth)
    {
      var c := inner[i];
      MaskFirst(inner[i..], depth);
      assert inner[i..][0] == c && inner[i..][1..] == inner[i + 1..];
      if IsOpen(c) { depth := depth + 1; }
      else if IsClose(c) { depth := depth - 1; }
      var shown := if depth == 0 || (IsOpen(c) && depth == 1) then c else ' ';
      assert top + ([shown] + Mask(inner[i + 1..], depth)) == top + [shown] + Mask(inner[i + 1..], depth);
      top := top + [shown];
      i := i + 1;
    }
    MaskOfNothing(depth);
    assert inner[i..] == [] && top + [] == top;
  }

  lemma MaskFirst(s: string, depth: int)
    requires s != []
    ensures Mask(s, depth) == [Visible(s[0], Into(s[0], depth))] + Mask(s[1..], Into(s[0], depth))
  {
  }

  lemma MaskOfNothing(depth: int)
    ensures Mask([], depth) == []
  {
  }

  /** The key of a call whose first argument is one quoted text. */
  function LiteralKey(first: string): Option<string> {
    if |first| >= 3 && (first[0] == '\'' || first[0] == '"') && first[|first| - 1] == first[0]
       && forall i :: 0 < i < |first| - 1 ==> first[i] != '\'' && first[i] != '"'
    then Some(first[1..|first| - 1])
    else None
  }

  /** The call the guard checks, when its first argument is a literal key. */
  function LiteralCall(args: seq<string>): Option<Call> {
    if args == [] || LiteralKey(args[0]).None? then None
    else Some(Call(WholeKey, LiteralKey(args[0]).value, GivenNames(if |args| > 1 then Some(args[1]) else None)))
  }

  /** A first argument is a literal key exactly when it is one or more characters, no
      quote among them, between two quotes of one kind. */
  lemma KeysAreQuotedExactly(first: string, key: string)
    ensures LiteralKey(first) == Some(key) <==>
            && key != [] && '\'' !in key && '"' !in key
            && (first == "'" + key + "'" || first == "\"" + key + "\"")
  {
    var n := |first|;
    if LiteralKey(first) == Some(key) {
      assert forall c <- key :: c != '\'' && c != '"';
      assert first == [first[0]] + key + [first[n - 1]];
    }
    if key != [] && '\'' !in key && '"' !in key && (first == "'" + key + "'" || first == "\"" + key + "\"") {
      assert first[1..n - 1] == key && |key| == n - 2;
      forall i | 0 < i < n - 1 ensures first[i] != '\'' && first[i] != '"' { assert first[i] == key[i - 1] && key[i - 1] in key; }
    }
  }

  // ── Object literals as they are written

  /** A property: `name: value`, or the name alone. */
  datatype Prop = Prop(left: string, name: string, right: string, value: Option<seq<Piece>>)

  predicate GoodProp(p: Prop) {
    && AllSpace(p.left) && AllSpace(p.right) && IsName(p.name)
    && (p.value.Some? ==> Balanced(p.value.value) && NoTopComma(p.value.value))
  }

  predicate GoodProps(ps: seq<Prop>) {
    ps == [] || (GoodProp(ps[0]) && GoodProps(ps[1..]))
  }

  function ValueText(p: Prop): string {
    match p.value
    case None => []
    case Some(v) => ":" + PiecesText(v)
  }

  function NameText(p: Prop): string { p.left + p.name + p.right }

  /** What ends the list: nothing, or a last comma and white space. */
  predicate GoodEnd(end: string) { end == [] || (end[0] == ',' && AllSpace(end[1..])) }

  predicate GoodLiteral(ps: seq<Prop>, end: string) {
    GoodProps(ps) && if ps == [] then AllSpace(end) else GoodEnd(end)
  }

  function PropsText(ps: seq<Prop>, end: string): string
    decreases |ps|, 0
  {
    if ps == [] then end else NameText(ps[0]) + (ValueText(ps[0]) + RestText(ps[1..], end))
  }

  function RestText(ps: seq<Prop>, end: string): string
    decreases |ps|, 1
  {
    if ps == [] then end else "," + PropsText(ps, end)
  }

  function LiteralText(ps: seq<Prop>, end: string): string { "{" + PropsText(ps, end) + "}" }

  function NamesOf(ps: seq<Prop>): set<string> {
    set p | p in ps :: p.name
  }

  /** A value leaves the count of brackets where it was. Only an unbalanced
      bracket inside a quoted text can make it not so. */
  predicate Level(p: Prop) { DepthAfter(ValueText(p), 0) == 0 }

  predicate AllLevel(ps: seq<Prop>) { forall p <- ps :: Level(p) }

  /** The names the guard finds in what it sees of the values. */
  function MadeUp(ps: seq<Prop>): set<string> {
    if ps == [] then {} else FindKeys(Mask(ValueText(ps[0]), 0), false) + MadeUp(ps[1..])
  }

  /** The names found: each property up to the first that is not level, what is
      seen of their values, and what is seen of all that follows that one. */
  function Found(ps: seq<Prop>, end: string): set<string> {
    if ps == [] then {}
    else if Level(ps[0]) then {ps[0].name} + FindKeys(Mask(ValueText(ps[0]), 0), false) + Found(ps[1..], end)
    else {ps[0].name} + FindKeys(Mask(ValueText(ps[0]) + RestText(ps[1..], end), 0), false)
  }

  // ── What the masking leaves

  predicate NoComma(s: string) { forall i :: 0 <= i < |s| ==> s[i] != ',' }

  lemma {:induction false} MaskAppends(a: string, b: string, depth: int)
    ensures Mask(a + b, depth) == Mask(a, depth) + Mask(b, DepthAfter(a, depth))
    ensures DepthAfter(a + b, depth) == DepthAfter(b, DepthAfter(a, depth))
  {
    hide Into, Visible;
    if a == [] {
      assert a + b == b;
    } else {
      assert (a + b)[0] == a[0] && (a + b)[1..] == a[1..] + b;
      MaskAppends(a[1..], b, Into(a[0], depth));
    }
  }

  lemma MaskedChar(c: char, depth: int)
    ensures Mask([c], depth) == [Visible(c, Into(c, depth))] && DepthAfter([c], depth) == Into(c, depth)
  {
    assert [c][1..] == [];
  }

  lemma NoCommas(a: string, b: string)
    requires NoComma(a) && NoComma(b)
    ensures NoComma(a + b)
  {
  }

  /** Quoted texts hold no bracket, and no comma where it would be seen. */
  predicate Tame(ps: seq<Piece>, top: bool) {
    forall i :: 0 <= i < |ps| ==> TamePiece(ps[i], top)
  }

  predicate TamePiece(p: Piece, top: bool) {
    match p
    case Char(_) => true
    case Quote(_, body) => NoBrackets(body) && (top ==> NoComma(body))
    case Group(_, inside, _) => forall i :: 0 <= i < |inside| ==> TamePiece(inside[i], false)
  }

  lemma {:induction false} MaskedFlat(s: string, depth: nat)
    requires NoBrackets(s) && (depth == 0 ==> NoComma(s))
    ensures DepthAfter(s, depth) == depth && NoComma(Mask(s, depth))
  {
    if s != [] { MaskedFlat(s[1..], depth); }
  }

  /** A balanced value whose quoted texts are tame ends at the depth it started at
      and shows no comma. */
  lemma {:induction false} MaskedPiece(p: Piece, depth: nat)
    requires BalancedPiece(p) && TamePiece(p, depth == 0) && (depth == 0 ==> p != Char(','))
    ensures DepthAfter(PieceText(p), depth) == depth && NoComma(Mask(PieceText(p), depth))
    decreases p, 1
  {
    hide Mask, DepthAfter;
    match p
    case Char(c) => MaskedChar(c, depth);
    case Quote(quote, body) => MaskedFlat(PieceText(p), depth);
    case Group(open, inside, close) =>
      var body := PiecesText(inside);
      MaskedPieces(inside, depth + 1);
      MaskedChar(open, depth);
      MaskedChar(close, depth + 1);
      MaskAppends(body, [close], depth + 1);
      MaskAppends([open], body + [close], depth);
      NoCommas(Mask(body, depth + 1), Mask([close], depth + 1));
      NoCommas(Mask([open], depth), Mask(body + [close], depth + 1));
      assert PieceText(p) == [open] + (body + [close]);
  }

  lemma {:induction false} MaskedPieces(ps: seq<Piece>, depth: nat)
    requires Balanced(ps) && Tame(ps, depth == 0) && (depth == 0 ==> NoTopComma(ps))
    ensures DepthAfter(PiecesText(ps), depth) == depth && NoComma(Mask(PiecesText(ps), depth))
    decreases ps, 0
  {
    hide BalancedPiece, TamePiece, PieceText, Mask, DepthAfter;
    if ps == [] {
      MaskedNothing(depth);
    } else {
      MaskedPiece(ps[0], depth);
      MaskedPieces(ps[1..], depth);
      MaskAppends(PieceText(ps[0]), PiecesText(ps[1..]), depth);
      NoCommas(Mask(PieceText(ps[0]), depth), Mask(PiecesText(ps[1..]), depth));
    }
  }

  lemma MaskedNothing(depth: int)
    ensures Mask([], depth) == [] && DepthAfter([], depth) == depth
  {
  }

  predicate NoBrackets(s: string) { forall i :: 0 <= i < |s| ==> !IsOpen(s[i]) && !IsClose(s[i]) }

  lemma {:induction false} MaskedPlain(s: string)
    requires NoBrackets(s)
    ensures Mask(s, 0) == s && DepthAfter(s, 0) == 0
  {
    if s != [] { MaskedPlain(s[1..]); }
  }

  /** Two searches: one up to a comma or the end, and one from there. */
  lemma {:induction false} FindKeysSplits(v: string, rest: string)
    requires rest == [] || rest[0] == ','
    ensures FindKeys(v + rest, false) == FindKeys(v, false) + FindKeys(rest, false)
    decreases |v|
  {
    hide KeyHere;
    var s := v + rest;
    if v == [] {
      assert s == rest;
      FindNothing();
    } else {
      KeyHereStops(v, rest);
      match KeyHere(v, false)
      case Some((name, n)) =>
        assert s[n..] == v[n..] + rest;
        FindKeysSplits(v[n..], rest);
      case None =>
        assert s[1..] == v[1..] + rest;
        FindKeysSplits(v[1..], rest);
    }
  }

  lemma KeyHereStops(v: string, rest: string)
    requires v != [] && (rest == [] || rest[0] == ',')
    ensures KeyHere(v + rest, false) == KeyHere(v, false)
  {
    hide NameHere;
    assert (v + rest)[0] == v[0] && (v + rest)[1..] == v[1..] + rest;
    NameHereStops(v[1..], rest);
  }

  lemma NameHereStops(s: string, rest: string)
    requires rest == [] || rest[0] == ','
    ensures NameHere(s + rest) == NameHere(s)
  {
    hide Span, WordHere;
    SpanStops(s, rest, IsSpace);
    var a := Span(s, IsSpace);
    assert (s + rest)[a..] == s[a..] + rest;
    WordHereStops(s[a..], rest);
  }

  lemma WordHereStops(word: string, rest: string)
    requires rest == [] || rest[0] == ','
    ensures WordHere(word + rest) == WordHere(word)
  {
    if word == [] {
      assert word + rest == rest;
    } else {
      hide Span, WordHere, IsNameStart, IsNameChar, IsSpace;
      SpansStop(word, rest);
      var all := word + rest;
      var n := Span(word, IsNameChar);
      var m := n + Span(word[n..], IsSpace);
      assert all[0] == word[0];
      assert m < |word| ==> all[m] == word[m];
      assert m == |word| < |all| ==> all[m] == rest[0];
      WordEnds(word, m);
      WordEnds(all, m);
    }
  }

  lemma WordEnds(word: string, m: nat)
    requires word != []
    requires var n := Span(word, IsNameChar); m == n + Span(word[n..], IsSpace)
    ensures m <= |word|
    ensures WordHere(word) ==
            if IsNameStart(word[0]) && (m == |word| || word[m] == ':' || word[m] == ',')
            then Some((word[..Span(word, IsNameChar)], m)) else None
  {
    hide Span, IsNameStart, IsNameChar, IsSpace;
  }

  /** Where a word ends and what white space follows it is not changed by a comma
      further on. */
  lemma SpansStop(word: string, rest: string)
    requires rest == [] || rest[0] == ','
    ensures var (n, all) := (Span(word, IsNameChar), word + rest);
            && Span(all, IsNameChar) == n
            && all[..n] == word[..n] && all[n..] == word[n..] + rest
            && Span(all[n..], IsSpace) == Span(word[n..], IsSpace)
  {
    hide Span;
    SpanStops(word, rest, IsNameChar);
    var n := Span(word, IsNameChar);
    assert (word + rest)[n..] == word[n..] + rest;
    SpanStops(word[n..], rest, IsSpace);
  }

  lemma {:induction false} SpanStops(s: string, rest: string, p: char -> bool)
    requires rest == [] || !p(rest[0])
    ensures Span(s + rest, p) == Span(s, p)
  {
    if s == [] {
      assert s + rest == rest;
    } else {
      assert (s + rest)[0] == s[0] && (s + rest)[1..] == s[1..] + rest;
      SpanStops(s[1..], rest, p);
    }
  }

  /** A match starts at `i`, and its name is `name`. */
  predicate StandsAt(s: string, first: bool, i: nat, name: string)
    requires i <= |s|
  {
    var here := KeyHere(s[i..], first && i == 0);
    here.Some? && here.value.0 == name
  }

  lemma MatchHasNoComma(s: string, first: bool, i: nat)
    requires KeyHere(s, first).Some? && 0 < i < KeyHere(s, first).value.1
    ensures s[i] != ','
  {
    hide KeyHere, NameHere;
    if first && NameHere(s).Some? {
      KeyHereIs(s, first);
      NameHasNoComma(s, i);
    } else {
      KeyHereIs(s, first);
      NameHasNoComma(s[1..], i - 1);
    }
  }

  lemma KeyHereIs(s: string, first: bool)
    requires KeyHere(s, first).Some?
    ensures if first && NameHere(s).Some? then KeyHere(s, first) == NameHere(s)
            else s[0] == ',' && NameHere(s[1..]).Some? && KeyHere(s, first).value.1 == NameHere(s[1..]).value.1 + 1
  {
    hide NameHere;
  }

  lemma NameHasNoComma(s: string, i: nat)
    requires NameHere(s).Some? && i < NameHere(s).value.1
    ensures s[i] != ','
  {
    hide Span;
    var a := Span(s, IsSpace);
    SpanHolds(s, IsSpace);
    var word := s[a..];
    var n := Span(word, IsNameChar);
    SpanHolds(word, IsNameChar);
    SpanHolds(word[n..], IsSpace);
    if i < a {
      assert IsSpace(s[i]);
    } else if i < a + n {
      assert s[i] == word[i - a] && IsNameChar(word[i - a]);
    } else {
      assert s[i] == word[n..][i - a - n] && IsSpace(word[n..][i - a - n]);
    }
  }

  lemma {:induction false} SpanHolds(s: string, p: char -> bool)
    ensures forall i :: 0 <= i < Span(s, p) ==> p(s[i])
  {
    if s != [] && p(s[0]) {
      SpanHolds(s[1..], p);
      assert forall i :: 0 < i < |s| ==> s[i] == s[1..][i - 1];
    }
  }

  /** The names found are exactly those that stand somewhere, none hidden behind an
      earlier match. */
  lemma {:induction false} FoundExactly(s: string, first: bool, name: string)
    ensures name in FindKeys(s, first) <==> exists i :: 0 <= i < |s| && StandsAt(s, first, i, name)
    decreases |s|
  {
    hide KeyHere;
    if s != [] {
      var n := if KeyHere(s, first).Some? then KeyHere(s, first).value.1 else 1;
      var rest := s[n..];
      assert s[0..] == s;
      FoundExactly(rest, false, name);
      FindOne(s, first);
      if name in FindKeys(rest, false) {
        var j :| 0 <= j < |rest| && StandsAt(rest, false, j, name);
        assert rest[j..] == s[n + j..] && StandsAt(s, first, n + j, name);
      }
      if KeyHere(s, first).Some? { assert StandsAt(s, first, 0, KeyHere(s, first).value.0); }
      forall i | 0 < i < |s| && StandsAt(s, first, i, name) ensures name in FindKeys(rest, false) {
        if i < n {
          MatchHasNoComma(s, first, i);
          NoNameWithoutComma(s[i..]);
        } else {
          assert s[i..] == rest[i - n..] && StandsAt(rest, false, i - n, name);
        }
      }
    }
  }

  lemma FindOne(s: string, first: bool)
    requires s != []
    ensures FindKeys(s, first) == match KeyHere(s, first)
                                  case Some((name, n)) => {name} + FindKeys(s[n..], false)
                                  case None => FindKeys(s[1..], false)
  {
    hide KeyHere;
  }

  lemma NoNameWithoutComma(s: string)
    requires s != [] && s[0] != ','
    ensures KeyHere(s, false).None?
  {
  }

  /** Nothing is found exactly where no comma is followed by a name and then by a
      colon, a comma or the end. */
  lemma NothingFoundExactly(v: string)
    ensures FindKeys(v, false) == {} <==> forall i :: 0 <= i < |v| ==> KeyHere(v[i..], false).None?
  {
    hide KeyHere, FindKeys;
    forall name ensures name in FindKeys(v, false) <==> exists i :: 0 <= i < |v| && StandsAt(v, false, i, name) {
      FoundExactly(v, false, name);
    }
    forall i | 0 <= i < |v| && KeyHere(v[i..], false).Some? ensures FindKeys(v, false) != {} {
      var name := KeyHere(v[i..], false).value.0;
      assert StandsAt(v, false, i, name) && name in FindKeys(v, false);
    }
    assert FindKeys(v, false) == {} <==> forall name :: name !in FindKeys(v, false);
  }

  lemma NoCommaNoKey(v: string)
    requires NoComma(v)
    ensures FindKeys(v, false) == {}
  {
    NothingFoundExactly(v);
  }

  lemma WordIsHere(name: string, right: string, rest: string)
    requires IsName(name) && AllSpace(right)
    requires rest == [] || rest[0] == ':' || rest[0] == ','
    ensures WordHere(name + (right + rest)) == Some((name, |name| + |right|))
  {
    var word := name + (right + rest);
    SpanOf(name, right + rest, IsNameChar);
    assert word[|name|..] == right + rest && word[..|name|] == name;
    SpanOf(right, rest, IsSpace);
    assert rest != [] ==> word[|name| + |right|] == rest[0];
  }

  lemma NameIsHere(p: Prop, rest: string)
    requires GoodProp(p)
    requires rest == [] || rest[0] == ':' || rest[0] == ','
    ensures NameHere(NameText(p) + rest) == Some((p.name, |NameText(p)|))
  {
    hide Balanced, NoTopComma, WordHere, Span;
    var word := p.name + (p.right + rest);
    var s := p.left + word;
    assert s == NameText(p) + rest;
    SpanOf(p.left, word, IsSpace);
    assert s[|p.left|..] == word;
    WordIsHere(p.name, p.right, rest);
  }

  /** Where a name stands, it is found, and the search goes on in its value and
      after it. */
  lemma KeyIsFound(p: Prop, value: string, rest: string, first: bool)
    requires GoodProp(p)
    requires value == [] || value[0] == ':'
    requires rest == [] || rest[0] == ','
    ensures var s := NameText(p) + (value + rest);
            FindKeys(if first then s else "," + s, first) == {p.name} + FindKeys(value, false) + FindKeys(rest, false)
  {
    hide GoodProp, NameText, NameHere, FindKeys;
    var s := NameText(p) + (value + rest);
    if value == [] { assert value + rest == rest; }
    NameIsHere(p, value + rest);
    NameTextIsSome(p);
    FindKeysSplits(value, rest);
    assert s[|NameText(p)|..] == value + rest;
    if first {
      FoundFirst(s, p.name, |NameText(p)|);
    } else {
      FoundAfterComma(s, p.name, |NameText(p)|);
    }
  }

  lemma FoundFirst(s: string, name: string, n: nat)
    requires s != [] && n <= |s| && NameHere(s) == Some((name, n))
    ensures FindKeys(s, true) == {name} + FindKeys(s[n..], false)
  {
    hide NameHere;
  }

  lemma FoundAfterComma(s: string, name: string, n: nat)
    requires n <= |s| && NameHere(s) == Some((name, n))
    ensures FindKeys("," + s, false) == {name} + FindKeys(s[n..], false)
  {
    hide NameHere;
    var t := "," + s;
    assert t[0] == ',' && t[1..] == s && t[n + 1..] == s[n..];
  }

  lemma NameTextIsSome(p: Prop)
    requires GoodProp(p)
    ensures NameText(p) != []
  {
  }

  lemma NameTextIsPlain(p: Prop)
    requires GoodProp(p)
    ensures NoBrackets(NameText(p))
  {
    hide Balanced, NoTopComma;
  }

  lemma MaskedValue(p: Prop)
    ensures var value := Mask(ValueText(p), 0);
            (value == [] <==> p.value.None?) && (value != [] ==> value[0] == ':')
  {
    hide Mask, DepthAfter;
    MaskedNothing(0);
    if p.value.Some? {
      MaskAppends(":", PiecesText(p.value.value), 0);
      MaskedChar(':', 0);
    }
  }

  lemma MaskedName(p: Prop, tail: string)
    requires GoodProp(p)
    ensures Mask(NameText(p) + tail, 0) == NameText(p) + Mask(tail, 0)
  {
    hide Mask, DepthAfter, NameText;
    NameTextIsPlain(p);
    MaskAppends(NameText(p), tail, 0);
    MaskedPlain(NameText(p));
  }

  lemma NotLevelHasValue(p: Prop, tail: string)
    requires !Level(p)
    ensures var value := Mask(ValueText(p) + tail, 0); value != [] && value[0] == ':'
  {
    hide Mask, DepthAfter;
    MaskedNothing(0);
    MaskedValue(p);
    MaskAppends(ValueText(p), tail, 0);
  }

  lemma EndIsMasked(end: string)
    requires AllSpace(end) || GoodEnd(end)
    ensures Mask(end, 0) == end && FindKeys(end, false) == {}
    ensures AllSpace(end) ==> FindKeys(end, true) == {}
  {
    hide Mask, FindKeys, KeyHere;
    MaskedPlain(end);
    NothingFoundExactly(end);
    forall i | 0 <= i < |end| ensures KeyHere(end[i..], false).None? {
      if i == 0 && end[0] == ',' {
        assert end[0..] == end;
        SpaceHoldsNoName(end[1..]);
        CommaAlone(end);
      } else {
        assert end[i..][0] == end[i];
        NoNameWithoutComma(end[i..]);
      }
    }
    if AllSpace(end) && end != [] {
      SpaceHoldsNoName(end);
      FoundAfterSpace(end);
    }
    if end == [] { FindNothing(); }
  }

  lemma SpaceHoldsNoName(s: string)
    requires AllSpace(s)
    ensures NameHere(s).None?
  {
    SpanOf(s, [], IsSpace);
    assert s + [] == s && s[|s|..] == [];
  }

  lemma CommaAlone(s: string)
    requires s != [] && s[0] == ',' && NameHere(s[1..]).None?
    ensures KeyHere(s, false).None?
  {
  }

  lemma FoundAfterSpace(s: string)
    requires AllSpace(s) && s != [] && NameHere(s).None? && FindKeys(s, false) == {}
    ensures FindKeys(s, true) == {}
  {
    hide NameHere;
  }

  lemma RestStarts(ps: seq<Prop>, end: string)
    requires GoodEnd(end)
    ensures var rest := Mask(RestText(ps, end), 0);
      && (rest == [] || rest[0] == ',')
      && (if ps == [] then FindKeys(rest, false) == {} else rest == "," + Mask(PropsText(ps, end), 0))
  {
    hide Mask, FindKeys, PropsText;
    if ps == [] {
      EndIsMasked(end);
    } else {
      MaskAppends(",", PropsText(ps, end), 0);
      MaskedComma();
    }
  }

  lemma {:induction false} FindsAllNames(ps: seq<Prop>, end: string, first: bool)
    requires ps != [] && GoodProps(ps) && GoodEnd(end)
    ensures var top := Mask(PropsText(ps, end), 0);
            FindKeys(if first then top else "," + top, first) == Found(ps, end)
    decreases |ps|
  {
    hide GoodProp, Level, Mask, FindKeys, NameText, ValueText, GoodEnd, RestText;
    var p, rest := ps[0], RestText(ps[1..], end);
    var value := Mask(ValueText(p), 0);
    MaskedName(p, ValueText(p) + rest);
    if Level(p) {
      MaskedLevel(p, rest);
      MaskedValue(p);
      RestStarts(ps[1..], end);
      KeyIsFound(p, value, Mask(rest, 0), first);
      if |ps| > 1 { FindsAllNames(ps[1..], end, false); }
    } else {
      var all := Mask(ValueText(p) + rest, 0);
      NotLevelHasValue(p, rest);
      KeyIsFound(p, all, [], first);
      FindNothing();
      assert all + [] == all;
    }
  }

  lemma MaskedLevel(p: Prop, rest: string)
    requires Level(p)
    ensures Mask(ValueText(p) + rest, 0) == Mask(ValueText(p), 0) + Mask(rest, 0)
  {
    hide Mask, DepthAfter, ValueText;
    MaskAppends(ValueText(p), rest, 0);
  }

  lemma FindNothing()
    ensures FindKeys([], false) == {} && FindKeys([], true) == {}
  {
  }

  lemma MaskedComma()
    ensures Mask(",", 0) == "," && DepthAfter(",", 0) == 0
  {
    MaskedPlain(",");
  }

  lemma {:induction false} FoundWhenLevel(ps: seq<Prop>, end: string)
    requires AllLevel(ps)
    ensures Found(ps, end) == NamesOf(ps) + MadeUp(ps)
  {
    hide Level, Mask, FindKeys;
    if ps != [] {
      assert ps[0] in ps && forall q <- ps[1..] :: q in ps;
      FoundWhenLevel(ps[1..], end);
      assert NamesOf(ps) == {ps[0].name} + NamesOf(ps[1..]) by { assert ps == [ps[0]] + ps[1..]; }
    }
  }

  /** The names read in any object literal, exactly. When every value is level they
      are those of its properties, and those its values seem to hold: none is
      missed, and none is made up exactly when what is seen of a value never shows
      a comma, a name, and then a colon, a comma or the end. */
  lemma GivenNamesExactly(ps: seq<Prop>, end: string)
    requires GoodLiteral(ps, end)
    ensures GivenNames(Some(LiteralText(ps, end))) == Names(Found(ps, end))
    ensures AllLevel(ps) ==> Found(ps, end) == NamesOf(ps) + MadeUp(ps)
    ensures MadeUp(ps) == {} <==> forall p <- ps :: ShowsNoName(p)
  {
    hide Mask, FindKeys, ShowsNoName, PropsText, Level;
    InnerText(PropsText(ps, end));
    if ps == [] { LiteralOfNothing(end); } else { FindsAllNames(ps, end, true); }
    NothingMadeUp(ps);
    if AllLevel(ps) { FoundWhenLevel(ps, end); }
  }

  lemma LiteralOfNothing(end: string)
    requires AllSpace(end)
    ensures FindKeys(Mask(PropsText([], end), 0), true) == {}
  {
    hide FindKeys, Mask;
    EndIsMasked(end);
  }

  /** Of any text between braces: a name is read if and only if it stands somewhere
      in what is left of it once nested brackets are blanked. */
  lemma NamesReadExactly(inner: string, name: string)
    ensures GivenNames(Some("{" + inner + "}")).Names?
    ensures name in GivenNames(Some("{" + inner + "}")).names <==>
            exists i :: 0 <= i < |Mask(inner, 0)| && StandsAt(Mask(inner, 0), true, i, name)
  {
    hide FindKeys, Mask, StandsAt;
    InnerText(inner);
    FoundExactly(Mask(inner, 0), true, name);
  }

  predicate ShowsNoName(p: Prop) {
    var seen := Mask(ValueText(p), 0);
    forall i :: 0 <= i < |seen| ==> KeyHere(seen[i..], false).None?
  }

  lemma {:induction false} NothingMadeUp(ps: seq<Prop>)
    ensures MadeUp(ps) == {} <==> forall p <- ps :: ShowsNoName(p)
  {
    hide Mask, FindKeys, KeyHere;
    if ps != [] {
      NothingFoundExactly(Mask(ValueText(ps[0]), 0));
      NothingMadeUp(ps[1..]);
      assert ps == [ps[0]] + ps[1..];
      assert (forall p <- ps :: ShowsNoName(p)) <==> ShowsNoName(ps[0]) && forall p <- ps[1..] :: ShowsNoName(p);
      assert MadeUp(ps) == {} <==> FindKeys(Mask(ValueText(ps[0]), 0), false) == {} && MadeUp(ps[1..]) == {};
    }
  }

  predicate TameProp(p: Prop) { p.value.Some? ==> Tame(p.value.value, true) }

  lemma TameShowsNoName(p: Prop)
    requires GoodProp(p) && TameProp(p)
    ensures Level(p) && ShowsNoName(p)
  {
    hide Mask, DepthAfter, Balanced, NoTopComma, Tame, FindKeys, KeyHere;
    MaskedNothing(0);
    if p.value.Some? {
      MaskedPieces(p.value.value, 0);
      MaskAppends(":", PiecesText(p.value.value), 0);
      MaskedChar(':', 0);
      NoCommas(":", Mask(PiecesText(p.value.value), 0));
    }
    NoCommaNoKey(Mask(ValueText(p), 0));
    NothingFoundExactly(Mask(ValueText(p), 0));
  }

  lemma {:induction false} GoodOnes(ps: seq<Prop>)
    requires GoodProps(ps)
    ensures forall p <- ps :: GoodProp(p)
  {
    hide GoodProp;
    if ps != [] {
      GoodOnes(ps[1..]);
      assert ps == [ps[0]] + ps[1..];
    }
  }

  /** In particular the names read are exactly the properties when quoted texts hold
      no bracket, and no comma outside brackets. */
  lemma GivenNamesAreTheProperties(ps: seq<Prop>, end: string)
    requires GoodLiteral(ps, end) && forall p <- ps :: TameProp(p)
    ensures AllLevel(ps) && Found(ps, end) == NamesOf(ps)
    ensures GivenNames(Some(LiteralText(ps, end))) == Names(NamesOf(ps))
  {
    hide GoodProp, TameProp, Level, ShowsNoName, GivenNames, Mask, FindKeys, PropsText;
    GoodOnes(ps);
    forall p <- ps ensures Level(p) && ShowsNoName(p) { TameShowsNoName(p); }
    GivenNamesExactly(ps, end);
  }

  // ── From the text of a call to the call the guard checks

  function Chars(s: string): seq<Piece> {
    if s == [] then [] else [Char(s[0])] + Chars(s[1..])
  }

  predicate Loose(s: string) {
    forall i :: 0 <= i < |s| ==> !IsQuote(s[i]) && !IsOpen(s[i]) && !IsClose(s[i])
  }

  lemma {:induction false} CharsSpell(s: string)
    ensures PiecesText(Chars(s)) == s
    ensures Loose(s) ==> Balanced(Chars(s))
    ensures NoComma(s) ==> NoTopComma(Chars(s))
  {
    if s != [] {
      CharsSpell(s[1..]);
      var ps := Chars(s);
      assert ps[0] == Char(s[0]) && ps[1..] == Chars(s[1..]);
      assert [s[0]] + s[1..] == s;
      assert forall i :: 0 < i < |ps| ==> ps[i] == Chars(s[1..])[i - 1];
    }
  }

  lemma {:induction false} PiecesAppend(a: seq<Piece>, b: seq<Piece>)
    ensures PiecesText(a + b) == PiecesText(a) + PiecesText(b)
    ensures Balanced(a) && Balanced(b) ==> Balanced(a + b)
    ensures NoTopComma(a) && NoTopComma(b) ==> NoTopComma(a + b)
  {
    hide PieceText, BalancedPiece;
    if a == [] {
      assert a + b == b;
    } else {
      assert (a + b)[0] == a[0] && (a + b)[1..] == a[1..] + b;
      PiecesAppend(a[1..], b);
      assert PieceText(a[0]) + (PiecesText(a[1..]) + PiecesText(b)) == PieceText(a[0]) + PiecesText(a[1..]) + PiecesText(b);
    }
  }

  function ValuePieces(p: Prop): seq<Piece> {
    match p.value
    case None => []
    case Some(v) => [Char(':')] + v
  }

  function PropsPieces(ps: seq<Prop>, end: string): seq<Piece>
    decreases |ps|, 0
  {
    if ps == [] then Chars(end) else Chars(NameText(ps[0])) + (ValuePieces(ps[0]) + RestPieces(ps[1..], end))
  }

  function RestPieces(ps: seq<Prop>, end: string): seq<Piece>
    decreases |ps|, 1
  {
    if ps == [] then Chars(end) else [Char(',')] + PropsPieces(ps, end)
  }

  lemma NameIsLoose(p: Prop)
    requires GoodProp(p)
    ensures Loose(NameText(p))
  {
    hide Balanced, NoTopComma;
  }

  lemma ValueSpelt(p: Prop)
    requires GoodProp(p)
    ensures PiecesText(ValuePieces(p)) == ValueText(p) && Balanced(ValuePieces(p))
  {
    hide NoTopComma;
    if p.value.Some? {
      OneChar(':');
      PiecesAppend([Char(':')], p.value.value);
    }
  }

  lemma OneChar(c: char)
    requires !IsQuote(c) && !IsOpen(c) && !IsClose(c)
    ensures PiecesText([Char(c)]) == [c] && Balanced([Char(c)])
  {
    var ps := [Char(c)];
    assert ps[1..] == [];
    assert PiecesText(ps) == PieceText(ps[0]) + PiecesText([]);
  }

  lemma EndIsLoose(end: string)
    requires AllSpace(end) || GoodEnd(end)
    ensures Loose(end)
  {
  }

  lemma {:induction false} PropsSpelt(ps: seq<Prop>, end: string)
    requires GoodProps(ps) && (AllSpace(end) || GoodEnd(end))
    ensures PiecesText(PropsPieces(ps, end)) == PropsText(ps, end) && Balanced(PropsPieces(ps, end))
    ensures PiecesText(RestPieces(ps, end)) == RestText(ps, end) && Balanced(RestPieces(ps, end))
    decreases |ps|
  {
    hide GoodProp, Balanced, NameText, ValueText, ValuePieces, PiecesText, Chars, Loose, GoodEnd;
    if ps == [] {
      EndIsLoose(end);
      CharsSpell(end);
    } else {
      var p := ps[0];
      NameIsLoose(p);
      CharsSpell(NameText(p));
      ValueSpelt(p);
      PropsSpelt(ps[1..], end);
      PiecesAppend(ValuePieces(p), RestPieces(ps[1..], end));
      PiecesAppend(Chars(NameText(p)), ValuePieces(p) + RestPieces(ps[1..], end));
      OneChar(',');
      PiecesAppend([Char(',')], PropsPieces(ps, end));
    }
  }

  predicate PlainKey(key: string) {
    key != [] && forall i :: 0 <= i < |key| ==> key[i] != '\'' && key[i] != '"' && key[i] != '\\'
  }

  /** The arguments of `t('key', { … })`, with space before the second. */
  function CallPieces(key: string, quote: char, gap: string, ps: seq<Prop>, end: string): seq<seq<Piece>> {
    [[Quote(quote, key)], Chars(gap) + [Group('{', PropsPieces(ps, end), '}')]]
  }

  /** The text of the call from its opening bracket on. */
  function CallText(key: string, quote: char, gap: string, ps: seq<Prop>, end: string, rest: string): string {
    "(" + ArgsText(CallPieces(key, quote, gap, ps, end)) + ([')'] + rest)
  }

  lemma {:induction false} KeyIsEnclosed(key: string, quote: char)
    requires (quote == '\'' || quote == '"') && forall i :: 0 <= i < |key| ==> key[i] != quote && key[i] != '\\'
    ensures Enclosed(key, quote)
  {
    if key != [] { KeyIsEnclosed(key[1..], quote); }
  }

  lemma KeyArgument(key: string, quote: char)
    requires PlainKey(key) && (quote == '\'' || quote == '"')
    ensures var ps := [Quote(quote, key)]; Balanced(ps) && NoTopComma(ps)
    ensures Strip(PiecesText([Quote(quote, key)])) == [quote] + key + [quote]
    ensures LiteralKey([quote] + key + [quote]) == Some(key)
  {
    KeyIsEnclosed(key, quote);
    var ps, first := [Quote(quote, key)], [quote] + key + [quote];
    assert ps[1..] == [] && PiecesText(ps) == first + [];
    assert first + [] == first == [] + first + [];
    StripPadded([], first, []);
    assert first[1..|first| - 1] == key;
  }

  lemma ObjectPiece(ps: seq<Prop>, end: string)
    requires GoodLiteral(ps, end)
    ensures var literal := [Group('{', PropsPieces(ps, end), '}')];
            Balanced(literal) && NoTopComma(literal) && PiecesText(literal) == LiteralText(ps, end)
  {
    hide GoodProps, PropsPieces, PropsText;
    var literal := [Group('{', PropsPieces(ps, end), '}')];
    PropsSpelt(ps, end);
    assert literal[1..] == [] && PiecesText(literal) == PieceText(literal[0]) + PiecesText([]);
    assert PieceText(literal[0]) == LiteralText(ps, end);
  }

  lemma ObjectArgument(gap: string, ps: seq<Prop>, end: string)
    requires AllSpace(gap) && GoodLiteral(ps, end)
    ensures var arg := Chars(gap) + [Group('{', PropsPieces(ps, end), '}')];
            Balanced(arg) && NoTopComma(arg) && Strip(PiecesText(arg)) == LiteralText(ps, end)
  {
    hide GoodLiteral, PropsPieces, PropsText, Strip, Balanced, NoTopComma, PiecesText, Chars, Loose, NoComma;
    var literal := [Group('{', PropsPieces(ps, end), '}')];
    var text := LiteralText(ps, end);
    ObjectPiece(ps, end);
    SpaceIsLoose(gap);
    CharsSpell(gap);
    PiecesAppend(Chars(gap), literal);
    assert gap + text == gap + text + [];
    StripPadded(gap, text, []);
  }

  lemma SpaceIsLoose(gap: string)
    requires AllSpace(gap)
    ensures Loose(gap) && NoComma(gap)
  {
  }

  /** Reading the text of a call with a literal key and any object literal gives its
      key and the names found. */
  lemma CallTextIsRead(key: string, quote: char, gap: string, ps: seq<Prop>, end: string, rest: string, at: nat)
    requires PlainKey(key) && (quote == '\'' || quote == '"') && AllSpace(gap) && GoodLiteral(ps, end)
    ensures var read := Scan(CallText(key, quote, gap, ps, end, rest), 0, None, [], [], at);
            read.Args? && LiteralCall(read.list) == Some(Call(WholeKey, key, Names(Found(ps, end))))
  {
    hide Scan, Strip, GoodLiteral, PropsPieces, LiteralText, PiecesText, Balanced, NoTopComma, ArgsText, GivenNames,
         LiteralKey, Found;
    var list := CallPieces(key, quote, gap, ps, end);
    KeyArgument(key, quote);
    ObjectArgument(gap, ps, end);
    assert list[1..] == [list[1]] && list[1..][1..] == [];
    assert GoodArgs(list[1..]);
    PrintedCallIsRead(list, rest, at);
    assert Stripped(list[1..]) == [Strip(PiecesText(list[1]))] + Stripped([]);
    assert Stripped(list) == [[quote] + key + [quote], LiteralText(ps, end)];
    GivenNamesExactly(ps, end);
  }

  // ── Where the reading is not to be trusted

  /** A comma inside a quoted value makes up a name: the guard believes the field
      supplied, and the brace reaches the screen. */
  lemma QuotedCommaMakesUpAName(v: map<string, string>)
    requires v == map["a" := ", b:"]
    ensures GivenNames(Some("{ a: ', b:' }")) == Names({"a", "b"})
    ensures Fields("{a}{b}") == {"a", "b"} && !BadTemplate("{a}{b}")
    ensures !NoOpen(Fill("{a}{b}", v))
  {
    hide GivenNames, Fields, Fill, BadTemplate, FieldAt, WellBraced;
    NamesMadeUp();
    TwoFields();
    assert "b" !in v;
    LeftUnfilled("{a}{b}", v);
  }

  lemma SecondNameMadeUp()
    ensures FindKeys(", b:' ", false) == {"b"}
  {
    hide FindKeys, KeyHere;
    var b := Prop(" ", "b", "", None);
    assert ", b:' " == "," + (NameText(b) + (":' " + ""));
    NoCommaNoKey(":' ");
    KeyIsFound(b, ":' ", "", false);
    FindNothing();
  }

  lemma FirstNameMadeUp()
    ensures FindKeys(" a: ', b:' ", true) == {"a"} + FindKeys(", b:' ", false)
  {
    hide FindKeys, KeyHere;
    var a := Prop(" ", "a", "", None);
    assert " a: ', b:' " == NameText(a) + (": '" + ", b:' ");
    NoCommaNoKey(": '");
    KeyIsFound(a, ": '", ", b:' ", true);
  }

  lemma NothingMasked()
    ensures Mask(" a: ', b:' ", 0) == " a: ', b:' "
  {
    hide Mask;
    MaskedPlain(" a: ', b:' ");
  }

  lemma NamesMadeUp()
    ensures GivenNames(Some("{ a: ', b:' }")) == Names({"a", "b"})
  {
    hide FindKeys, Mask;
    var inner, arg := " a: ', b:' ", "{ a: ', b:' }";
    assert arg == "{" + inner + "}";
    InnerText(inner);
    NothingMasked();
    FirstNameMadeUp();
    SecondNameMadeUp();
  }

  /** A bracket inside a quoted value hides the names after it: the guard reports
      a value that the call supplies. */
  lemma QuotedBracketHidesAName(v: map<string, string>)
    requires v == map["a" := "(", "b" := ""]
    ensures GivenNames(Some("{a:'(',b}")) == Names({"a"})
    ensures Fields("{a}{b}") <= v.Keys && NoOpen(Fill("{a}{b}", v))
  {
    hide GivenNames, Fields, Fill, BadTemplate, FieldAt, WellBraced, FindKeys, Mask;
    assert "{a:'(',b}" == "{" + "a:'(',b" + "}";
    InnerText("a:'(',b");
    MaskedToTheEnd();
    NameBeforeBracket();
    TwoFields();
    assert Fields("{a}{b}") <= v.Keys;
    LeftUnfilled("{a}{b}", v);
  }

  lemma MaskedToTheEnd()
    ensures Mask("a:'(',b", 0) == "a:'(   "
  {
    assert Mask("", 1) == "" && Mask("b", 1) == " ";
    assert ",b"[1..] == "b" && Mask(",b", 1) == "  ";
    assert "',b"[1..] == ",b" && Mask("',b", 1) == "   ";
    assert "(',b"[1..] == "',b" && Mask("(',b", 0) == "(   ";
    MaskAppends("a:'", "(',b", 0);
    MaskedPlain("a:'");
    assert "a:'" + "(',b" == "a:'(',b" && "a:'" + "(   " == "a:'(   ";
  }

  lemma NameBeforeBracket()
    ensures FindKeys("a:'(   ", true) == {"a"}
  {
    hide FindKeys, KeyHere;
    var a := Prop("", "a", "", None);
    assert "a:'(   " == NameText(a) + (":'(   " + "");
    NoCommaNoKey(":'(   ");
    KeyIsFound(a, ":'(   ", "", true);
    FindNothing();
  }

  /** So does a bracket let a name through: `a` is the one property of this literal,
      and the guard believes `b` supplied. */
  lemma QuotedBracketMakesUpAName(v: map<string, string>)
    requires v == map["a" := "x"]
    ensures var ps := [CALL_WITH_BRACKET];
      && GoodLiteral(ps, "") && LiteralText(ps, "") == "{a:f(')',b)}" && NamesOf(ps) == v.Keys
      && !Level(CALL_WITH_BRACKET) && Found(ps, "") == {"a", "b"}
    ensures GivenNames(Some("{a:f(')',b)}")) == Names({"a", "b"})
    ensures Fields("{a}{b}") == {"a", "b"} && !BadTemplate("{a}{b}") && !NoOpen(Fill("{a}{b}", v))
  {
    hide GoodProp, GivenNames, Fields, Fill, BadTemplate, FieldAt, WellBraced, FindKeys, Mask, Level;
    BracketSpelt();
    BracketIsGood();
    TwoFields();
    assert "b" !in v;
    LeftUnfilled("{a}{b}", v);
    BracketFound();
    assert [CALL_WITH_BRACKET][0] == CALL_WITH_BRACKET && [CALL_WITH_BRACKET][1..] == [];
    assert GoodProps([]) && GoodProps([CALL_WITH_BRACKET]);
    GivenNamesExactly([CALL_WITH_BRACKET], "");
  }

  const CALL_WITH_BRACKET :=
    Prop("", "a", "", Some([Char('f'), Group('(', [Quote('\'', ")"), Char(','), Char('b')], ')')]))

  lemma BracketSpelt()
    ensures ValueText(CALL_WITH_BRACKET) == ":f(')',b)"
    ensures LiteralText([CALL_WITH_BRACKET], "") == "{a:f(')',b)}"
  {
    hide PiecesText, Balanced;
    var b, inside := [Char('b')], [Char(','), Char('b')];
    var quoted := [Quote('\'', ")")] + inside;
    var group := [Group('(', quoted, ')')];
    PieceFirst(Char('b'), []);
    PieceFirst(Char(','), b);
    PieceFirst(Quote('\'', ")"), inside);
    PieceFirst(Group('(', quoted, ')'), []);
    PieceFirst(Char('f'), group);
    NothingSpelt();
    assert [Char('b')] + [] == b && [Char(',')] + b == inside && group == [group[0]] + [];
    assert quoted == [Quote('\'', ")"), Char(','), Char('b')];
    assert [Char('f')] + group == [Char('f'), Group('(', quoted, ')')];
    assert PiecesText(quoted) == "')',b" && PiecesText(group) == "(')',b)";
    assert RestText([CALL_WITH_BRACKET][1..], "") == "";
  }

  lemma BracketIsGood()
    ensures GoodProp(CALL_WITH_BRACKET)
  {
  }

  lemma PieceFirst(p: Piece, rest: seq<Piece>)
    ensures PiecesText([p] + rest) == PieceText(p) + PiecesText(rest)
  {
    assert ([p] + rest)[1..] == rest;
  }

  lemma NothingSpelt()
    ensures PiecesText([]) == ""
  {
  }

  /** The quoted bracket closes the group too early for the guard. */
  lemma BracketMasked()
    ensures Mask(":f(')',b)", 0) == ":f( )',b " && DepthAfter(":f(')',b)", 0) == -1
  {
    hide Mask, DepthAfter;
    var t := "',b";
    MaskedChar(':', 0);
    MaskedChar(')', 0);
    MaskedPlain(t);
    MaskAppends(t, ")", 0);
    MaskedChar(')', 1);
    MaskAppends(")", t + ")", 1);
    MaskedChar('\'', 1);
    MaskAppends("'", ")" + (t + ")"), 1);
    MaskedChar('(', 0);
    MaskAppends("(", "'" + (")" + (t + ")")), 0);
    MaskedPlain(":f");
    MaskAppends(":f", "(" + ("'" + (")" + (t + ")"))), 0);
    assert ":f(')',b)" == ":f" + ("(" + ("'" + (")" + (t + ")"))));
    assert ":f( )',b " == ":f" + ("(" + (" " + (")" + (t + " "))));
  }

  lemma BracketFound()
    ensures !Level(CALL_WITH_BRACKET) && Found([CALL_WITH_BRACKET], "") == {"a", "b"}
  {
    hide FindKeys, Mask, KeyHere, DepthAfter, PiecesText;
    var b := Prop("", "b", " ", None);
    BracketSpelt();
    BracketMasked();
    NoCommaNoKey(":f( )'");
    assert ":f( )',b " == ":f( )'" + ",b ";
    FindKeysSplits(":f( )'", ",b ");
    assert ",b " == "," + (NameText(b) + ("" + ""));
    KeyIsFound(b, "", "", false);
    FindNothing();
    assert [CALL_WITH_BRACKET][1..] == [] && ":f(')',b)" + "" == ":f(')',b)";
  }

  lemma InnerText(inner: string)
    ensures GivenNames(Some("{" + inner + "}")) == Names(FindKeys(Mask(inner, 0), true))
  {
    hide FindKeys, Mask;
    var arg := "{" + inner + "}";
    assert arg[0] == '{' && arg[|arg| - 1] == '}' && arg[1..|arg| - 1] == inner;
  }

  lemma TwoFields()
    ensures Fields("{a}{b}") == {"a", "b"} && !BadTemplate("{a}{b}") && WellBraced("{a}{b}")
  {
    hide FieldAt;
    var s, t := "{a}{b}", "{b}";
    FieldHere("a", "{b}");
    FieldHere("b", "");
    assert s == Pattern("a") + "{b}" && s[3..] == t == Pattern("b") + "" && t[3..] == "";
    assert Fields(t) == {"b"} + Fields("");
    NotBad();
  }

  lemma NotBad()
    ensures !BadTemplate("{a}{b}")
  {
    hide FieldAt;
    var s, t := "{a}{b}", "{b}";
    FieldHere("a", "{b}");
    FieldHere("b", "");
    assert s == Pattern("a") + "{b}" && t == Pattern("b") + "";
    assert s[1..] == "a}{b}" && "a}{b}"[1..] == "}{b}" && "}{b}"[1..] == t;
    assert t[1..] == "b}" && "b}"[1..] == "}" && "}"[1..] == "";
    assert !BadTemplate("}") && !BadTemplate("b}");
    assert !BadHere(t) && !BadTemplate(t);
    assert !BadTemplate("}{b}") && !BadTemplate("a}{b}");
    assert !BadHere(s);
  }
}
