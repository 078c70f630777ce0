/** The reader of calls: the arguments of a call, its literal key, and the names
    an object literal supplies. */
module CallReader {
  import opened Text
  import opened Templates
  import opened ReleaseGuard
  import opened ReleaseLexer

  /** The arguments and the index of the closing bracket; a call that does not
      close; or a backslash at the very end, where the source raises. */
  datatype Args = Args(list: seq<string>, close: nat) | UnclosedCall | PastTheEnd

  predicate IsOpen(c: char) { c == '(' || c == '[' || c == '{' }
  predicate IsClose(c: char) { c == ')' || c == ']' || c == '}' }

  function Scan(s: string, depth: int, quote: Option<char>, cur: string, args: seq<string>, at: nat): Args
    decreases |s|
  {
    if s == [] then UnclosedCall
    else
      var c := s[0];
      if quote.Some? then
        if c == '\\' then
          if |s| < 2 then PastTheEnd
          else Scan(s[2..], depth, quote, cur + s[..2], args, at + 2)
        else Scan(s[1..], depth, if c == quote.value then None else quote, cur + [c], args, at + 1)
      else if IsQuote(c) then Scan(s[1..], depth, Some(c), cur + [c], args, at + 1)
      else if IsOpen(c) then Scan(s[1..], depth + 1, None, if depth + 1 > 1 then cur + [c] else cur, args, at + 1)
      else if IsClose(c) then
        if depth == 1 then Args(args + [Strip(cur)], at)
        else Scan(s[1..], depth - 1, None, cur + [c], args, at + 1)
      else if c == ',' && depth == 1 then Scan(s[1..], depth, None, [], args + [Strip(cur)], at + 1)
      else Scan(s[1..], depth, None, cur + [c], args, at + 1)
  }

  /** The arguments of the call whose `(` is at `i`. */
  method ArgsOf(text: string, i: nat) returns (r: Args)
    requires i <= |text|
    ensures r == Scan(text[i..], 0, None, [], [], i)
  {
    hide Strip;
    var depth, j, args, cur := 0, i, [], [];
    var quote: Option<char> := None;
    while j < |text|
      invariant i <= j <= |text|
      invariant Scan(text[i..], 0, None, [], [], i) == Scan(text[j..], depth, quote, cur, args, j)
    {
      var c := text[j];
      ghost var here := text[j..];
      assert here[0] == c && here[1..] == text[j + 1..];
      if quote.Some? {
        if c == '\\' {
          if j + 1 >= |text| { return PastTheEnd; }
          assert here[2..] == text[j + 2..] && cur + here[..2] == cur + [c] + [text[j + 1]];
          cur := cur + [c] + [text[j + 1]];
          j := j + 2;
          continue;
        }
        cur := cur + [c];
        if c == quote.value { quote := None; }
      } else if IsQuote(c) {
        quote, cur := Some(c), cur + [c];
      } else if IsOpen(c) {
        depth := depth + 1;
        if depth > 1 { cur := cur + [c]; }
      } else if IsClose(c) {
        depth := depth - 1;
        if depth == 0 { return Args(args + [Strip(cur)], j); }
        cur := cur + [c];
      } else if c == ',' && depth == 1 {
        args, cur := args + [Strip(cur)], [];
      } else {
        cur := cur + [c];
      }
      j := j + 1;
    }
    r := UnclosedCall;
  }

  // ── Texts with balanced brackets and closed quotes

  datatype Piece = Char(c: char) | Quote(quote: char, body: string) | Group(open: char, inside: seq<Piece>, close: char)

  function PieceText(p: Piece): string {
    match p
    case Char(c) => [c]
    case Quote(q, body) => [q] + body + [q]
    case Group(open, inside, close) => [open] + PiecesText(inside) + [close]
  }

  function PiecesText(ps: seq<Piece>): string {
    if ps == [] then [] else PieceText(ps[0]) + PiecesText(ps[1..])
  }

  predicate Balanced(ps: seq<Piece>) {
    forall i :: 0 <= i < |ps| ==> BalancedPiece(ps[i])
  }

  predicate BalancedPiece(p: Piece) {
    match p
    case Char(c) => c !in {'\'', '"', '`', '(', '[', '{', ')', ']', '}'}
    case Quote(q, body) => q in {'\'', '"', '`'} && Enclosed(body, q)
    case Group(open, inside, close) =>
      open in {'(', '[', '{'} && close in {')', ']', '}'} && forall i :: 0 <= i < |inside| ==> BalancedPiece(inside[i])
  }

  predicate NoTopComma(ps: seq<Piece>) {
    forall i :: 0 <= i < |ps| ==> ps[i] != Char(',')
  }

  lemma ScanInQuote(s: string, depth: int, quote: char, cur: string, args: seq<string>, at: nat)
    requires s != []
    ensures s[0] == '\\' && |s| >= 2 ==>
              Scan(s, depth, Some(quote), cur, args, at) == Scan(s[2..], depth, Some(quote), cur + s[..2], args, at + 2)
    ensures s[0] != '\\' ==>
              Scan(s, depth, Some(quote), cur, args, at) ==
              Scan(s[1..], depth, if s[0] == quote then None else Some(quote), cur + [s[0]], args, at + 1)
  {
    hide Strip;
  }

  lemma {:induction false} ScanQuotedBody(body: string, quote: char, rest: string, depth: int, cur: string,
                                          args: seq<string>, at: nat)
    requires IsQuote(quote) && Enclosed(body, quote)
    ensures Scan(body + ([quote] + rest), depth, Some(quote), cur, args, at) ==
            Scan(rest, depth, None, cur + (body + [quote]), args, at + |body| + 1)
  {
    hide Scan;
    var s := body + ([quote] + rest);
    ScanInQuote(s, depth, quote, cur, args, at);
    if body == [] {
      assert s[0] == quote && s[1..] == rest && cur + ([] + [quote]) == cur + [quote];
    } else if body[0] == '\\' {
      assert s[..2] == body[..2] && s[2..] == body[2..] + ([quote] + rest);
      ScanQuotedBody(body[2..], quote, rest, depth, cur + body[..2], args, at + 2);
      assert cur + body[..2] + (body[2..] + [quote]) == cur + (body + [quote]);
    } else {
      assert s[0] == body[0] && s[1..] == body[1..] + ([quote] + rest);
      ScanQuotedBody(body[1..], quote, rest, depth, cur + [body[0]], args, at + 1);
      assert cur + [body[0]] + (body[1..] + [quote]) == cur + (body + [quote]);
    }
  }

  /** One character outside quotes, inside the call. */
  lemma ScanChar(c: char, rest: string, depth: int, cur: string, args: seq<string>, at: nat)
    requires depth >= 1 && !IsQuote(c)
    ensures var s := [c] + rest;
            && (IsOpen(c) ==> Scan(s, depth, None, cur, args, at) == Scan(rest, depth + 1, None, cur + [c], args, at + 1))
            && (IsClose(c) && depth > 1 ==> Scan(s, depth, None, cur, args, at) == Scan(rest, depth - 1, None, cur + [c], args, at + 1))
            && (IsClose(c) && depth == 1 ==> Scan(s, depth, None, cur, args, at) == Args(args + [Strip(cur)], at))
            && (!IsOpen(c) && !IsClose(c) && (c != ',' || depth > 1) ==>
                  Scan(s, depth, None, cur, args, at) == Scan(rest, depth, None, cur + [c], args, at + 1))
            && (c == ',' && depth == 1 ==>
                  Scan(s, depth, None, cur, args, at) == Scan(rest, depth, None, [], args + [Strip(cur)], at + 1))
  {
    hide Strip;
    var s := [c] + rest;
    assert s[0] == c && s[1..] == rest;
  }

  lemma ScanOpensQuote(q: char, rest: string, depth: int, cur: string, args: seq<string>, at: nat)
    requires IsQuote(q)
    ensures Scan([q] + rest, depth, None, cur, args, at) == Scan(rest, depth, Some(q), cur + [q], args, at + 1)
  {
    hide Strip;
    var s := [q] + rest;
    assert s[0] == q && s[1..] == rest;
  }

  /** A balanced text inside the call is copied whole. */
  lemma {:induction false} ScanPiece(p: Piece, rest: string, depth: int, cur: string, args: seq<string>, at: nat)
    requires BalancedPiece(p) && depth >= 1 && (depth == 1 ==> p != Char(','))
    ensures Scan(PieceText(p) + rest, depth, None, cur, args, at) ==
            Scan(rest, depth, None, cur + PieceText(p), args, at + |PieceText(p)|)
    decreases p, 1
  {
    hide Scan;
    match p
    case Char(c) => ScanChar(c, rest, depth, cur, args, at);
    case Quote(q, body) =>
      assert PieceText(p) + rest == [q] + (body + ([q] + rest));
      ScanOpensQuote(q, body + ([q] + rest), depth, cur, args, at);
      ScanQuotedBody(body, q, rest, depth, cur + [q], args, at + 1);
      assert cur + [q] + (body + [q]) == cur + PieceText(p);
    case Group(open, inside, close) =>
      var after := [close] + rest;
      assert PieceText(p) + rest == [open] + (PiecesText(inside) + after);
      ScanChar(open, PiecesText(inside) + after, depth, cur, args, at);
      ScanPieces(inside, after, depth + 1, cur + [open], args, at + 1);
      ScanChar(close, rest, depth + 1, cur + [open] + PiecesText(inside), args, at + 1 + |PiecesText(inside)|);
      assert cur + [open] + PiecesText(inside) + [close] == cur + PieceText(p);
  }

  lemma {:induction false} ScanPieces(ps: seq<Piece>, rest: string, depth: int, cur: string, args: seq<string>, at: nat)
    requires Balanced(ps) && depth >= 1 && (depth == 1 ==> NoTopComma(ps))
    ensures Scan(PiecesText(ps) + rest, depth, None, cur, args, at) ==
            Scan(rest, depth, None, cur + PiecesText(ps), args, at + |PiecesText(ps)|)
    decreases ps, 0
  {
    hide Scan;
    if ps == [] {
      assert [] + rest == rest && cur + [] == cur;
    } else {
      assert PiecesText(ps) + rest == PieceText(ps[0]) + (PiecesText(ps[1..]) + rest);
      ScanPiece(ps[0], PiecesText(ps[1..]) + rest, depth, cur, args, at);
      ScanPieces(ps[1..], rest, depth, cur + PieceText(ps[0]), args, at + |PieceText(ps[0])|);
      assert cur + PieceText(ps[0]) + PiecesText(ps[1..]) == cur + PiecesText(ps);
    }
  }

  /** Arguments with a comma between each and the next. */
  function ArgsText(list: seq<seq<Piece>>): string
    requires list != []
  {
    if |list| == 1 then PiecesText(list[0])
    else PiecesText(list[0]) + ([','] + ArgsText(list[1..]))
  }

  function Stripped(list: seq<seq<Piece>>): seq<string> {
    if list == [] then [] else [Strip(PiecesText(list[0]))] + Stripped(list[1..])
  }

  predicate GoodArgs(list: seq<seq<Piece>>) {
    list == [] || (Balanced(list[0]) && NoTopComma(list[0]) && GoodArgs(list[1..]))
  }

  lemma ScanOneArg(ps: seq<Piece>, end: char, more: string, done: seq<string>, at: nat)
    requires Balanced(ps) && NoTopComma(ps) && (end == ',' || end == ')')
    ensures Scan(PiecesText(ps) + ([end] + more), 1, None, [], done, at)
         == Scan([end] + more, 1, None, PiecesText(ps), done, at + |PiecesText(ps)|)
  {
    hide Scan, Balanced, NoTopComma, PiecesText;
    ScanPieces(ps, [end] + more, 1, [], done, at);
    assert [] + PiecesText(ps) == PiecesText(ps);
  }

  lemma {:induction false} ScanArgs(list: seq<seq<Piece>>, rest: string, done: seq<string>, at: nat)
    requires list != [] && GoodArgs(list)
    ensures Scan(ArgsText(list) + ([')'] + rest), 1, None, [], done, at) ==
            Args(done + Stripped(list), at + |ArgsText(list)|)
    decreases |list|
  {
    hide Scan, Strip, Balanced, NoTopComma, PiecesText;
    var first, after := PiecesText(list[0]), [')'] + rest;
    if |list| == 1 {
      ScanOneArg(list[0], ')', rest, done, at);
      ScanChar(')', rest, 1, first, done, at + |first|);
      assert Stripped(list) == [Strip(first)];
    } else {
      var more := ArgsText(list[1..]) + after;
      assert ArgsText(list) + after == first + ([','] + more);
      ScanOneArg(list[0], ',', more, done, at);
      ScanChar(',', more, 1, first, done, at + |first|);
      ScanArgs(list[1..], rest, done + [Strip(first)], at + |first| + 1);
      assert done + [Strip(first)] + Stripped(list[1..]) == done + Stripped(list);
    }
  }

  /** The arguments of a printed call are its arguments, trimmed, and the index
      found is that of its closing bracket. */
  lemma PrintedCallIsRead(list: seq<seq<Piece>>, rest: string, at: nat)
    requires list != [] && GoodArgs(list)
    ensures Scan("(" + ArgsText(list) + ([')'] + rest), 0, None, [], [], at) ==
            Args(Stripped(list), at + 1 + |ArgsText(list)|)
  {
    hide Strip, Balanced, NoTopComma;
    var s := "(" + ArgsText(list) + ([')'] + rest);
    assert s[0] == '(' && s[1..] == ArgsText(list) + ([')'] + rest);
    ScanArgs(list, rest, [], at + 1);
    assert [] + Stripped(list) == Stripped(list);
  }
}
