/** Strings as the scripts and services of the repository treat them: optional
    values, trimming, splitting on one character and joining again. */
module Text {

  datatype Option<+T> = None | Some(value: T)

  newtype byte = x: int | 0 <= x < 256
  type Bytes = seq<byte>

  /** The white space of ASCII. */
  predicate IsSpace(c: char) {
    c in {' ', '\t', '\n', '\r'} || c as int == 11 || c as int == 12
  }

  lemma SpacesByNumber(c: char)
    ensures IsSpace(c) <==> 9 <= c as int <= 13 || c as int == 32
  {
  }

  function StripLeft(s: string): string {
    if s != [] && IsSpace(s[0]) then StripLeft(s[1..]) else s
  }

  function StripRight(s: string): string {
    if s != [] && IsSpace(s[|s| - 1]) then StripRight(s[..|s| - 1]) else s
  }

  function Strip(s: string): string {
    StripRight(StripLeft(s))
  }

  predicate StartsWith(s: string, start: string) {
    |start| <= |s| && s[..|start|] == start
  }

  predicate AllSpace(s: string) { forall i :: 0 <= i < |s| ==> IsSpace(s[i]) }

  /** Nothing to trim at either end. */
  predicate Trimmed(s: string) {
    s != [] ==> !IsSpace(s[0]) && !IsSpace(s[|s| - 1])
  }

  lemma {:induction false} StripLeftPadded(pad: string, s: string)
    requires AllSpace(pad) && (s != [] ==> !IsSpace(s[0]))
    ensures StripLeft(pad + s) == s
  {
    if pad == [] {
      assert pad + s == s;
    } else {
      assert (pad + s)[0] == pad[0] && (pad + s)[1..] == pad[1..] + s;
      StripLeftPadded(pad[1..], s);
    }
  }

  lemma {:induction false} StripRightPadded(s: string, pad: string)
    requires AllSpace(pad) && (s != [] ==> !IsSpace(s[|s| - 1]))
    ensures StripRight(s + pad) == s
  {
    if pad == [] {
      assert s + pad == s;
    } else {
      var all := s + pad;
      assert all[|all| - 1] == pad[|pad| - 1] && all[..|all| - 1] == s + pad[..|pad| - 1];
      StripRightPadded(s, pad[..|pad| - 1]);
    }
  }

  /** Trimming takes away exactly the padding. */
  lemma StripPadded(left: string, s: string, right: string)
    requires AllSpace(left) && AllSpace(right) && Trimmed(s) && s != []
    ensures Strip(left + s + right) == s
  {
    hide StripLeft, StripRight;
    assert left + s + right == left + (s + right);
    assert (s + right)[0] == s[0];
    StripLeftPadded(left, s + right);
    StripRightPadded(s, right);
  }

  // ── Decimal numbers

  predicate IsDigit(c: char) { '0' <= c <= '9' }

  predicate AllDigits(s: string) { forall i :: 0 <= i < |s| ==> IsDigit(s[i]) }

  function DecimalValue(s: string): nat
    requires AllDigits(s)
  {
    if s == [] then 0 else 10 * DecimalValue(s[..|s| - 1]) + (s[|s| - 1] as nat - '0' as nat)
  }

  function Decimal(n: nat): (s: string)
    ensures s != [] && AllDigits(s)
  {
    var last := [('0' as nat + n % 10) as char];
    if n < 10 then last else Decimal(n / 10) + last
  }

  lemma {:induction false} DecimalIsRead(n: nat)
    ensures DecimalValue(Decimal(n)) == n
  {
    var s := Decimal(n);
    assert DecimalValue(s[..|s| - 1]) == n / 10 by {
      if n < 10 {
        assert s[..|s| - 1] == [];
      } else {
        assert s[..|s| - 1] == Decimal(n / 10);
        DecimalIsRead(n / 10);
      }
    }
  }

  // ── Splitting on a character

  predicate Without(s: string, c: char) { forall i :: 0 <= i < |s| ==> s[i] != c }

  /** How far the text goes before the character. */
  function Before(s: string, c: char): (n: nat)
    ensures n <= |s| && Without(s[..n], c) && (n < |s| ==> s[n] == c)
  {
    if s == [] || s[0] == c then 0 else 1 + Before(s[1..], c)
  }

  function Split(s: string, c: char): (parts: seq<string>)
    ensures parts != []
    decreases |s|
  {
    var n := Before(s, c);
    if n == |s| then [s] else [s[..n]] + Split(s[n + 1..], c)
  }

  function Join(parts: seq<string>, c: char): string
    requires parts != []
  {
    if |parts| == 1 then parts[0] else parts[0] + [c] + Join(parts[1..], c)
  }

  lemma {:induction false} BeforeIs(a: string, c: char, rest: string)
    requires Without(a, c) && (rest == [] || rest[0] == c)
    ensures Before(a + rest, c) == |a|
  {
    if a == [] {
      assert a + rest == rest;
    } else {
      assert (a + rest)[0] == a[0] && (a + rest)[1..] == a[1..] + rest;
      BeforeIs(a[1..], c, rest);
    }
  }

  lemma {:induction false} SplitUndoesJoin(parts: seq<string>, c: char)
    requires parts != [] && forall p <- parts :: Without(p, c)
    ensures Split(Join(parts, c), c) == parts
  {
    var head := parts[0];
    if |parts| == 1 {
      assert head + [] == head;
      BeforeIs(head, c, []);
    } else {
      var rest := Join(parts[1..], c);
      var all := Join(parts, c);
      assert all == head + ([c] + rest);
      BeforeIs(head, c, [c] + rest);
      assert all[..|head|] == head && all[|head| + 1..] == rest;
      SplitUndoesJoin(parts[1..], c);
    }
  }

  lemma {:induction false} JoinUndoesSplit(s: string, c: char)
    ensures Join(Split(s, c), c) == s
    ensures forall p <- Split(s, c) :: Without(p, c)
    decreases |s|
  {
    var n := Before(s, c);
    if n < |s| {
      JoinUndoesSplit(s[n + 1..], c);
      var rest := Split(s[n + 1..], c);
      assert ([s[..n]] + rest)[1..] == rest;
      assert s == s[..n] + [c] + s[n + 1..];
    }
  }

  lemma {:induction false} JoinEnds(parts: seq<string>, c: char)
    requires parts != []
    ensures parts[0] != [] ==> Join(parts, c) != [] && Join(parts, c)[0] == parts[0][0]
    ensures var last := parts[|parts| - 1]; var all := Join(parts, c);
            last != [] ==> all != [] && all[|all| - 1] == last[|last| - 1]
  {
    if |parts| > 1 {
      JoinEnds(parts[1..], c);
    }
  }
}
