/** Undoing percent-encoding in the value of a cookie (section 2.1 of RFC 3986). */
module PercentDecoding {
  import opened Text

  const PERCENT: byte := 0x25
  const PLUS: byte := 0x2b

  function Digit(b: byte): Option<byte> {
    if 0x30 <= b <= 0x39 then Some(b - 0x30)
    else if 0x41 <= b <= 0x46 then Some(b - 0x41 + 10)
    else if 0x61 <= b <= 0x66 then Some(b - 0x61 + 10)
    else None
  }

  /** Two bytes read as a number of base 16. A plus sign may stand for the first
      digit: the platform's reading of numbers takes one. */
  function Pair(a: byte, b: byte): Option<byte> {
    if a == PLUS then Digit(b)
    else if Digit(a).Some? && Digit(b).Some? then Some(16 * Digit(a).value + Digit(b).value)
    else None
  }

  predicate EscapeAt(s: Bytes, i: nat) {
    i + 2 < |s| && s[i] == PERCENT && Pair(s[i + 1], s[i + 2]).Some?
  }

  function Decoded(s: Bytes): Bytes
    decreases |s|
  {
    if s == [] then []
    else if EscapeAt(s, 0) then [Pair(s[1], s[2]).value] + Decoded(s[3..])
    else [s[0]] + Decoded(s[1..])
  }

  /** `utf8` is the platform's judgement of a byte string: what is not text gives
      the empty one. */
  function Value(s: Bytes, utf8: Bytes -> bool): Bytes {
    if utf8(Decoded(s)) then Decoded(s) else []
  }

  method Decode(bytes: Bytes, utf8: Bytes -> bool) returns (value: Bytes)
    ensures value == Value(bytes, utf8)
  {
    hide Decoded, Pair;
    var out: Bytes, i := [], 0;
    assert bytes[0..] == bytes && Decoded(bytes) == [] + Decoded(bytes);
    while i < |bytes|
      invariant 0 <= i <= |bytes|
      invariant Decoded(bytes) == out + Decoded(bytes[i..])
    {
      ghost var rest := bytes[i..];
      DecodedHere(rest);
      assert EscapeAt(rest, 0) ==> rest[1] == bytes[i + 1] && rest[2] == bytes[i + 2] && rest[3..] == bytes[i + 3..];
      assert rest[0] == bytes[i] && rest[1..] == bytes[i + 1..];
      if bytes[i] == PERCENT && i + 2 < |bytes| {
        var pair := Pair(bytes[i + 1], bytes[i + 2]);
        if pair.Some? {
          assert EscapeAt(rest, 0);
          assert out + ([pair.value] + Decoded(rest[3..])) == out + [pair.value] + Decoded(rest[3..]);
          out := out + [pair.value];
          i := i + 3;
          continue;
        }
      }
      assert out + ([bytes[i]] + Decoded(rest[1..])) == out + [bytes[i]] + Decoded(rest[1..]);
      out := out + [bytes[i]];
      i := i + 1;
    }
    DecodedNothing();
    assert bytes[i..] == [] && out + [] == out;
    value := if utf8(out) then out else [];
  }

  lemma DecodedHere(s: Bytes)
    requires s != []
    ensures Decoded(s) == if EscapeAt(s, 0) then [Pair(s[1], s[2]).value] + Decoded(s[3..])
                          else [s[0]] + Decoded(s[1..])
  {
  }

  lemma DecodedNothing()
    ensures Decoded([]) == []
  {
  }

  /** Decoding never lengthens, and changes nothing exactly when no escape stands
      anywhere; then its length is kept, and otherwise it is shorter. */
  lemma {:induction false} ChangesExactlyEscapes(s: Bytes)
    ensures |Decoded(s)| <= |s|
    ensures Decoded(s) == s <==> forall i: nat :: !EscapeAt(s, i)
    ensures (exists i: nat :: EscapeAt(s, i)) ==> |Decoded(s)| < |s|
    decreases |s|
  {
    hide Pair;
    if s != [] {
      DecodedHere(s);
      if EscapeAt(s, 0) {
        ChangesExactlyEscapes(s[3..]);
      } else {
        ChangesExactlyEscapes(s[1..]);
        assert forall i: nat :: EscapeAt(s[1..], i) ==> EscapeAt(s, i + 1);
        assert forall i: nat :: i > 0 && EscapeAt(s, i) ==> EscapeAt(s[1..], i - 1);
        if Decoded(s) == s { assert Decoded(s)[1..] == s[1..]; }
      }
    }
  }

  // ── Every way to encode

  /** A byte as an encoder writes it: itself, or two digits in either case. */
  datatype Written = Plain(of: byte) | Escaped(of: byte, upperHigh: bool, upperLow: bool)

  function HexDigit(n: byte, upper: bool): byte
    requires n < 16
  {
    if n < 10 then 0x30 + n else (if upper then 0x41 else 0x61) + (n - 10)
  }

  function Spell(w: Written): Bytes {
    match w
    case Plain(b) => [b]
    case Escaped(b, high, low) => [PERCENT, HexDigit(b / 16, high), HexDigit(b % 16, low)]
  }

  function Spelt(ws: seq<Written>): Bytes {
    if ws == [] then [] else Spell(ws[0]) + Spelt(ws[1..])
  }

  function Meant(ws: seq<Written>): Bytes {
    seq(|ws|, i requires 0 <= i < |ws| => ws[i].of)
  }

  predicate EscapesPercent(ws: seq<Written>) {
    forall w <- ws :: w.Plain? ==> w.of != PERCENT
  }

  lemma PairUndoesDigits(b: byte, high: bool, low: bool)
    ensures Pair(HexDigit(b / 16, high), HexDigit(b % 16, low)) == Some(b)
  {
  }

  /** Where an encoder left a `%` that reads as the start of an escape. */
  predicate Misleads(ws: seq<Written>, i: nat) {
    && i + 2 < |ws| && ws[i] == Plain(PERCENT) && ws[i + 1].Plain? && ws[i + 2].Plain?
    && Pair(ws[i + 1].of, ws[i + 2].of).Some?
  }

  lemma DecodesOne(ws: seq<Written>)
    requires ws != [] && !Misleads(ws, 0)
    ensures Decoded(Spelt(ws)) == [ws[0].of] + Decoded(Spelt(ws[1..]))
  {
    hide HexDigit, Decoded, Pair, Spelt;
    var rest := Spelt(ws[1..]);
    var s := Spell(ws[0]) + rest;
    SpeltHere(ws);
    DecodedHere(s);
    match ws[0]
    case Plain(b) =>
      assert s[1..] == rest;
      if b == PERCENT { NoEscape(ws); }
    case Escaped(b, high, low) =>
      PairUndoesDigits(b, high, low);
      assert s[1] == HexDigit(b / 16, high) && s[2] == HexDigit(b % 16, low) && s[3..] == rest;
  }

  lemma SpeltHere(ws: seq<Written>)
    requires ws != []
    ensures Spelt(ws) == Spell(ws[0]) + Spelt(ws[1..])
  {
  }

  lemma NoPair(b: byte)
    ensures Pair(PERCENT, b).None? && Pair(b, PERCENT).None?
  {
  }

  lemma NoEscape(ws: seq<Written>)
    requires ws != [] && ws[0] == Plain(PERCENT) && !Misleads(ws, 0)
    ensures !EscapeAt(Spelt(ws), 0)
  {
    hide Pair, HexDigit, Spelt;
    SpeltHere(ws);
    NothingSpelt();
    if |ws| == 1 {
      assert ws[1..] == [];
    } else {
      var rest := ws[1..];
      SpeltHere(rest);
      assert Spelt(ws)[1] == Spell(ws[1])[0];
      if ws[1].Escaped? {
        NoPair(Spelt(ws)[2]);
      } else if |ws| == 2 {
        assert rest[1..] == [];
      } else {
        SpeltHere(rest[1..]);
        assert Spelt(ws)[2] == Spell(ws[2])[0];
        NoPair(Spelt(ws)[1]);
      }
    }
  }

  lemma NothingSpelt()
    ensures Spelt([]) == []
  {
  }

  lemma DecodesThree(ws: seq<Written>)
    requires Misleads(ws, 0)
    ensures Decoded(Spelt(ws)) == [Pair(ws[1].of, ws[2].of).value] + Decoded(Spelt(ws[3..]))
  {
    hide Pair, HexDigit, Decoded, Spelt;
    SpeltHere(ws);
    SpeltHere(ws[1..]);
    SpeltHere(ws[1..][1..]);
    assert ws[1..][1..][1..] == ws[3..];
    var s := Spelt(ws);
    assert s == [PERCENT] + ([ws[1].of] + ([ws[2].of] + Spelt(ws[3..])));
    assert s[1] == ws[1].of && s[2] == ws[2].of && s[3..] == Spelt(ws[3..]);
    DecodedHere(s);
  }

  /** Decoding undoes a percent-encoding exactly when no `%` was left that reads
      as the start of an escape: whichever other bytes the encoder chose to
      escape, and in either case. What it gets wrong comes out shorter. */
  lemma {:induction false} DecodedUndoesExactly(ws: seq<Written>)
    ensures |Decoded(Spelt(ws))| <= |ws|
    ensures Decoded(Spelt(ws)) == Meant(ws) <==> forall i: nat :: !Misleads(ws, i)
    ensures (exists i: nat :: Misleads(ws, i)) ==> |Decoded(Spelt(ws))| < |ws|
    decreases |ws|
  {
    hide Decoded, Spelt, Pair;
    if ws == [] {
      DecodedNothing();
      NothingSpelt();
    } else if Misleads(ws, 0) {
      DecodesThree(ws);
      DecodedUndoesExactly(ws[3..]);
    } else {
      DecodesOne(ws);
      DecodedUndoesExactly(ws[1..]);
      assert Meant(ws) == [ws[0].of] + Meant(ws[1..]);
      assert forall i: nat :: Misleads(ws[1..], i) ==> Misleads(ws, i + 1);
      assert forall i: nat :: i > 0 && Misleads(ws, i) ==> Misleads(ws[1..], i - 1);
      assert Meant(ws)[1..] == Meant(ws[1..]) && Decoded(Spelt(ws))[1..] == Decoded(Spelt(ws[1..]));
    }
  }

  /** In particular it undoes every encoding of a text that escaped `%`. */
  lemma ValueUndoesEncoding(ws: seq<Written>, utf8: Bytes -> bool)
    requires EscapesPercent(ws) && utf8(Meant(ws))
    ensures Value(Spelt(ws), utf8) == Meant(ws)
  {
    hide Decoded, Spelt, Meant, Pair;
    DecodedUndoesExactly(ws);
    forall i: nat ensures !Misleads(ws, i) {
      if i < |ws| { assert ws[i] in ws; }
    }
  }

  /** Text without `%` is its own value. */
  lemma PlainTextIsItself(s: Bytes, utf8: Bytes -> bool)
    requires PERCENT !in s && utf8(s)
    ensures Value(s, utf8) == s
  {
    ChangesExactlyEscapes(s);
  }

  // ── What else is read

  /** A plus sign stands for no digit: the second one is the byte. */
  lemma PlusReadsOneDigit(d: byte, upper: bool, rest: Bytes)
    requires d < 16
    ensures Decoded([0x25, 0x2b, HexDigit(d, upper)] + rest) == [d] + Decoded(rest)
  {
    var s := [0x25, 0x2b, HexDigit(d, upper)] + rest;
    assert s[3..] == rest && s[1] == 0x2b;
    assert EscapeAt(s, 0);
    DecodedHere(s);
  }

  /** What does not come out as text is empty, and all else is what comes out. */
  lemma OnlyTextComesOut(s: Bytes, utf8: Bytes -> bool)
    ensures utf8(Decoded(s)) ==> Value(s, utf8) == Decoded(s)
    ensures !utf8(Decoded(s)) ==> Value(s, utf8) == []
  {
  }
}
