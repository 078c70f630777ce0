/** What a quoted text of a script stands for once the script runs. The readers of
    the guard keep the escapes; the interface never sees them. */
module StringLiterals {
  import opened Text

  function HexDigit(c: char): Option<nat> {
    if '0' <= c <= '9' then Some(c as nat - '0' as nat)
    else if 'a' <= c <= 'f' then Some(c as nat - 'a' as nat + 10)
    else if 'A' <= c <= 'F' then Some(c as nat - 'A' as nat + 10)
    else None
  }

  /** A number of base 16, and None when it is not one. */
  function HexValue(s: string): Option<nat> {
    if s == [] then Some(0)
    else
      match (HexValue(s[..|s| - 1]), HexDigit(s[|s| - 1]))
      case (Some(high), Some(low)) => Some(16 * high + low)
      case _ => None
  }

  predicate IsOctal(c: char) { '0' <= c <= '7' }

  /** How many octal digits an escape takes: three up to 377, otherwise two. */
  function OctalLength(s: string): (n: nat)
    requires s != [] && IsOctal(s[0])
    ensures 0 < n <= |s| && n <= 3 && forall i :: 0 <= i < n ==> IsOctal(s[i])
  {
    if |s| < 2 || !IsOctal(s[1]) then 1
    else if |s| < 3 || !IsOctal(s[2]) || s[0] > '3' then 2
    else 3
  }

  function OctalDigit(c: char): (d: nat)
    requires IsOctal(c)
    ensures d < 8
  {
    c as nat - '0' as nat
  }

  function OctalValue(s: string): (v: nat)
    requires 0 < |s| <= 3 && forall i :: 0 <= i < |s| ==> IsOctal(s[i])
    ensures v < 512
  {
    if |s| == 1 then OctalDigit(s[0])
    else if |s| == 2 then 8 * OctalDigit(s[0]) + OctalDigit(s[1])
    else 64 * OctalDigit(s[0]) + 8 * OctalDigit(s[1]) + OctalDigit(s[2])
  }

  const UNPAIRED := 0xfffd as char

  /** The character of a code; half of a pair stands for no character here. */
  function CharOf(code: nat): Option<char> {
    if code < 0xd800 || 0xe000 <= code < 0x110000 then Some(code as char)
    else if code < 0xe000 then Some(UNPAIRED)
    else None
  }

  predicate EndsScriptLine(c: char) { c == '\n' || c == '\r' || c == 0x2028 as char || c == 0x2029 as char }

  /** An escape after its backslash: what it stands for and how far it goes. None
      is an escape the language does not have. */
  function Escaped(s: string): (r: Option<(string, nat)>)
    requires s != []
    ensures r.Some? ==> 0 < r.value.1 <= |s|
  {
    var c := s[0];
    if c == 'n' then Some(("\n", 1))
    else if c == 't' then Some(("\t", 1))
    else if c == 'r' then Some(("\r", 1))
    else if c == 'b' then Some(([8 as char], 1))
    else if c == 'v' then Some(([11 as char], 1))
    else if c == 'f' then Some(([12 as char], 1))
    else if IsOctal(c) then
      var n := OctalLength(s);
      Some(([OctalValue(s[..n]) as char], n))
    else if c == 'x' then
      if |s| < 3 then None
      else
        match HexValue(s[1..3])
        case Some(code) => if CharOf(code).Some? then Some(([CharOf(code).value], 3)) else None
        case None => None
    else if c == 'u' then UnicodeEscape(s)
    else if c == '\r' && |s| > 1 && s[1] == '\n' then Some(("", 2))
    else if EndsScriptLine(c) then Some(("", 1))
    else Some(([c], 1))
  }

  /** `u` and four digits, or any number of them between braces. */
  function UnicodeEscape(s: string): (r: Option<(string, nat)>)
    requires s != []
    ensures r.Some? ==> 0 < r.value.1 <= |s|
  {
    if |s| > 1 && s[1] == '{' then
      var n := Before(s, '}');
      if n == |s| || n < 3 then None
      else
        match HexValue(s[2..n])
        case Some(code) => if CharOf(code).Some? then Some(([CharOf(code).value], n + 1)) else None
        case None => None
    else if |s| < 5 then None
    else
      match HexValue(s[1..5])
      case Some(code) => if CharOf(code).Some? then Some(([CharOf(code).value], 5)) else None
      case None => None
  }

  /** The text between quotes, as the interface holds it. None is a text that the
      script could not be loaded with. */
  function Decode(raw: string): Option<string>
    decreases |raw|
  {
    if raw == [] then Some([])
    else if raw[0] == '\\' then
      if |raw| == 1 then None
      else
        match Escaped(raw[1..])
        case None => None
        case Some((text, n)) => Preceded(text, Decode(raw[1 + n..]))
    else if raw[0] == '\n' || raw[0] == '\r' then None
    else Preceded([raw[0]], Decode(raw[1..]))
  }

  function Preceded(text: string, rest: Option<string>): Option<string> {
    match rest
    case None => None
    case Some(s) => Some(text + s)
  }

  /** Nothing in the text needs decoding. */
  predicate Verbatim(raw: string) {
    forall i :: 0 <= i < |raw| ==> raw[i] != '\\' && raw[i] != '\n' && raw[i] != '\r'
  }

  /** A text without escapes is what it says. */
  lemma {:induction false} VerbatimDecodes(raw: string)
    requires Verbatim(raw)
    ensures Decode(raw) == Some(raw)
  {
    hide Escaped;
    if raw != [] {
      VerbatimDecodes(raw[1..]);
      assert [raw[0]] + raw[1..] == raw;
    }
  }

  // ── Every way to write a character

  function HexChar(d: nat, upper: bool): char
    requires d < 16
  {
    if d < 10 then ('0' as nat + d) as char else ((if upper then 'A' as nat else 'a' as nat) + d - 10) as char
  }

  /** A number in so many digits of base 16, in either case. */
  function HexText(n: nat, digits: nat, upper: bool): (s: string)
    ensures |s| == digits
  {
    if digits == 0 then [] else HexText(n / 16, digits - 1, upper) + [HexChar(n % 16, upper)]
  }

  function Power16(digits: nat): nat { if digits == 0 then 1 else 16 * Power16(digits - 1) }

  lemma {:induction false} HexIsRead(n: nat, digits: nat, upper: bool)
    requires n < Power16(digits)
    ensures HexValue(HexText(n, digits, upper)) == Some(n)
    ensures forall i :: 0 <= i < digits ==> HexDigit(HexText(n, digits, upper)[i]).Some?
  {
    if digits > 0 {
      var s := HexText(n, digits, upper);
      assert n / 16 < Power16(digits - 1);
      HexIsRead(n / 16, digits - 1, upper);
      assert s[..digits - 1] == HexText(n / 16, digits - 1, upper) && s[digits - 1] == HexChar(n % 16, upper);
      HexCharIsRead(n % 16, upper);
    }
  }

  lemma HexCharIsRead(d: nat, upper: bool)
    requires d < 16
    ensures HexDigit(HexChar(d, upper)) == Some(d)
  {
  }

  /** A character by its number, in two digits, in four, or in any between braces. */
  lemma NumbersAreRead(code: nat, digits: nat, upper: bool, rest: string)
    requires code < Power16(digits) && CharOf(code).Some?
    ensures var hex := HexText(code, digits, upper); var c := CharOf(code).value;
      && (digits == 2 ==> Decode("\\x" + hex + rest) == Preceded([c], Decode(rest)))
      && (digits == 4 ==> Decode("\\u" + hex + rest) == Preceded([c], Decode(rest)))
      && (digits > 0 ==> Decode("\\u{" + hex + "}" + rest) == Preceded([c], Decode(rest)))
  {
    hide *;
    var hex := HexText(code, digits, upper);
    HexIsRead(code, digits, upper);
    if digits == 2 { TwoDigits(hex, code, rest); }
    if digits == 4 { FourDigits(hex, code, rest); }
    if digits > 0 { BracedDigits(hex, code, rest); }
  }

  lemma TwoDigits(hex: string, code: nat, rest: string)
    requires |hex| == 2 && HexValue(hex) == Some(code) && CharOf(code).Some?
    ensures Decode("\\x" + hex + rest) == Preceded([CharOf(code).value], Decode(rest))
  {
    hide HexValue, CharOf, Decode, UnicodeEscape;
    var t := "x" + hex + rest;
    assert "\\x" + hex + rest == "\\" + t && t[1..3] == hex && t[3..] == rest;
    EscapeIsRead(t, CharOf(code).value, 3);
  }

  lemma FourDigits(hex: string, code: nat, rest: string)
    requires |hex| == 4 && HexValue(hex) == Some(code) && CharOf(code).Some? && HexDigit(hex[0]).Some?
    ensures Decode("\\u" + hex + rest) == Preceded([CharOf(code).value], Decode(rest))
  {
    hide HexValue, HexDigit, CharOf, Decode;
    var t := "u" + hex + rest;
    assert "\\u" + hex + rest == "\\" + t && t[1..5] == hex && t[5..] == rest && t[1] == hex[0];
    OpensNoBrace(hex[0]);
    EscapeIsRead(t, CharOf(code).value, 5);
  }

  lemma BracedDigits(hex: string, code: nat, rest: string)
    requires hex != [] && HexValue(hex) == Some(code) && CharOf(code).Some?
    requires forall i :: 0 <= i < |hex| ==> HexDigit(hex[i]).Some?
    ensures Decode("\\u{" + hex + "}" + rest) == Preceded([CharOf(code).value], Decode(rest))
  {
    hide HexValue, HexDigit, CharOf, Decode;
    var digits := |hex|;
    var t := "u{" + hex + "}" + rest;
    assert "\\u{" + hex + "}" + rest == "\\" + t;
    assert t == "u{" + hex + ("}" + rest);
    forall i | 0 <= i < digits ensures hex[i] != '}' { OpensNoBrace(hex[i]); }
    assert Without("u{" + hex, '}');
    BeforeIs("u{" + hex, '}', "}" + rest);
    assert t[2..digits + 2] == hex && t[digits + 3..] == rest;
    EscapeIsRead(t, CharOf(code).value, digits + 3);
  }

  /** Numbers are characters but for the halves of pairs, up to the last there is. */
  lemma NumbersOfCharacters(code: nat)
    ensures code < 55296 || 57344 <= code <= 1114111 ==> CharOf(code).Some? && CharOf(code).value as int == code
    ensures 55296 <= code < 57344 ==> CharOf(code).Some? && CharOf(code).value as int == 65533
    ensures code > 1114111 ==> CharOf(code) == None
  {
  }

  /** What is no number of base 16, or none of a character, is refused. */
  lemma OtherNumbersAreRefused(hex: string, rest: string)
    requires HexValue(hex).None? || CharOf(HexValue(hex).value).None?
    ensures |hex| == 2 ==> Decode("\\x" + hex + rest) == None
    ensures |hex| == 4 && hex[0] != '{' ==> Decode("\\u" + hex + rest) == None
    ensures '}' !in hex ==> Decode("\\u{" + hex + "}" + rest) == None
  {
    hide *;
    if |hex| == 2 { OtherTwo(hex, rest); }
    if |hex| == 4 && hex[0] != '{' { OtherFour(hex, rest); }
    if '}' !in hex { OtherBraced(hex, rest); }
  }

  lemma OtherTwo(hex: string, rest: string)
    requires (HexValue(hex).None? || CharOf(HexValue(hex).value).None?) && |hex| == 2
    ensures Decode("\\x" + hex + rest) == None
  {
    hide HexValue, CharOf, Decode, UnicodeEscape;
    var t := "x" + hex + rest;
    assert "\\x" + hex + rest == "\\" + t && t[1..3] == hex;
    EscapeIsRefused(t);
  }

  lemma OtherFour(hex: string, rest: string)
    requires (HexValue(hex).None? || CharOf(HexValue(hex).value).None?) && |hex| == 4 && hex[0] != '{'
    ensures Decode("\\u" + hex + rest) == None
  {
    hide HexValue, CharOf, Decode;
    var t := "u" + hex + rest;
    assert "\\u" + hex + rest == "\\" + t && t[1..5] == hex && t[1] == hex[0];
    EscapeIsRefused(t);
  }

  lemma OtherBraced(hex: string, rest: string)
    requires (HexValue(hex).None? || CharOf(HexValue(hex).value).None?) && '}' !in hex
    ensures Decode("\\u{" + hex + "}" + rest) == None
  {
    hide HexValue, CharOf, Decode;
    var t := "u{" + hex + "}" + rest;
    assert "\\u{" + hex + "}" + rest == "\\" + t;
    assert t == "u{" + hex + ("}" + rest);
    assert Without("u{" + hex, '}');
    BeforeIs("u{" + hex, '}', "}" + rest);
    assert t[2..|hex| + 2] == hex;
    EscapeIsRefused(t);
  }

  lemma EscapeIsRefused(t: string)
    requires t != [] && Escaped(t) == None
    ensures Decode("\\" + t) == None
  {
    hide Escaped;
    var s := "\\" + t;
    assert s[0] == '\\' && s[1..] == t;
  }

  /** A number that is cut short by the end of the text is refused, and so is a
      backslash that ends it. */
  lemma CutShortIsRefused(hex: string)
    requires '{' !in hex
    ensures |hex| < 2 ==> Decode("\\x" + hex) == None
    ensures |hex| < 4 ==> Decode("\\u" + hex) == None
    ensures '}' !in hex ==> Decode("\\u{" + hex) == None
    ensures Decode("\\") == None
  {
    hide *;
    if |hex| < 2 { ShortTwo(hex); }
    if |hex| < 4 { ShortFour(hex); }
    if '}' !in hex { NotBraced(hex); }
    BackslashAlone();
  }

  lemma ShortTwo(hex: string)
    requires |hex| < 2
    ensures Decode("\\x" + hex) == None
  {
    hide HexValue, CharOf, Decode, UnicodeEscape;
    var t := "x" + hex;
    assert "\\x" + hex == "\\" + t;
    EscapeIsRefused(t);
  }

  lemma ShortFour(hex: string)
    requires |hex| < 4 && '{' !in hex
    ensures Decode("\\u" + hex) == None
  {
    hide HexValue, CharOf, Decode;
    var t := "u" + hex;
    assert "\\u" + hex == "\\" + t && (|t| > 1 ==> t[1] == hex[0]);
    EscapeIsRefused(t);
  }

  lemma NotBraced(hex: string)
    requires '}' !in hex
    ensures Decode("\\u{" + hex) == None
  {
    hide HexValue, CharOf, Decode;
    var t := "u{" + hex;
    assert "\\u{" + hex == "\\" + t && t + [] == t && Without(t, '}');
    BeforeIs(t, '}', []);
    EscapeIsRefused(t);
  }

  /** Braces with nothing between them are no number. */
  lemma EmptyBracesAreRefused(rest: string)
    ensures Decode("\\u{}" + rest) == None
  {
    hide HexValue, CharOf, Decode;
    var t := "u{}" + rest;
    assert "\\u{}" + rest == "\\" + t && t == "u{" + ("}" + rest) && Without("u{", '}');
    BeforeIs("u{", '}', "}" + rest);
    EscapeIsRefused(t);
  }

  lemma BackslashAlone()
    ensures Decode("\\") == None
  {
  }

  lemma OpensNoBrace(c: char)
    requires HexDigit(c).Some?
    ensures c != '{' && c != '}'
  {
  }

  lemma EscapeIsRead(t: string, c: char, n: nat)
    requires t != [] && Escaped(t) == Some(([c], n))
    ensures Decode("\\" + t) == Preceded([c], Decode(t[n..]))
  {
    hide Escaped;
    var s := "\\" + t;
    assert s[0] == '\\' && s[1..] == t && s[1 + n..] == t[n..];
  }

  /** The characters that a backslash and a letter stand for. */
  const LETTERS: map<char, nat> := map['n' := 10, 't' := 9, 'r' := 13, 'b' := 8, 'v' := 11, 'f' := 12]

  lemma LettersAreRead(letter: char, rest: string)
    requires letter in LETTERS
    ensures Decode("\\" + [letter] + rest) == Preceded([LETTERS[letter] as char], Decode(rest))
  {
    hide Decode;
    var t := [letter] + rest;
    assert "\\" + [letter] + rest == "\\" + t && t[1..] == rest && t[0] == letter;
    assert Escaped(t) == Some(([LETTERS[letter] as char], 1));
    EscapeIsRead(t, LETTERS[letter] as char, 1);
  }

  /** A backslash before any other character but a digit of base 8, an `x`, a `u` or
      a line end stands for nothing. */
  lemma OthersAreThemselves(c: char, rest: string)
    requires c !in LETTERS && !(48 <= c as int <= 55) && c != 'x' && c != 'u'
    requires c as int != 10 && c as int != 13 && c as int != 0x2028 && c as int != 0x2029
    ensures Decode("\\" + [c] + rest) == Preceded([c], Decode(rest))
  {
    hide Decode;
    var t := [c] + rest;
    assert "\\" + [c] + rest == "\\" + t && t[1..] == rest && t[0] == c;
    assert 'n' in LETTERS && 't' in LETTERS && 'r' in LETTERS && 'b' in LETTERS && 'v' in LETTERS && 'f' in LETTERS;
    EscapeIsRead(t, c, 1);
  }

  /** A backslash before a line end takes it out; a line end without one is refused. */
  lemma LineEndsAreTakenOut(c: char, rest: string)
    requires c as int == 10 || c as int == 13 || c as int == 0x2028 || c as int == 0x2029
    ensures !(c as int == 13 && rest != [] && rest[0] as int == 10) ==> Decode("\\" + [c] + rest) == Preceded("", Decode(rest))
    ensures Decode("\\\r\n" + rest) == Preceded("", Decode(rest))
    ensures c as int == 10 || c as int == 13 ==> Decode([c] + rest) == None
  {
    hide Decode, Escaped;
    LineEndAlone(c, rest);
    ReturnAndFeed(rest);
    BareLineEnd([c] + rest);
  }

  lemma LineEndAlone(c: char, rest: string)
    requires c as int == 10 || c as int == 13 || c as int == 0x2028 || c as int == 0x2029
    ensures !(c as int == 13 && rest != [] && rest[0] as int == 10) ==> Decode("\\" + [c] + rest) == Preceded("", Decode(rest))
  {
    hide Decode, UnicodeEscape, OctalValue, OctalLength;
    var t := [c] + rest;
    assert "\\" + [c] + rest == "\\" + t && t[1..] == rest && t[0] == c;
    if !(c as int == 13 && rest != [] && rest[0] as int == 10) {
      assert |t| > 1 ==> t[1] == rest[0];
      NothingIsRead(t, 1);
    }
  }

  lemma ReturnAndFeed(rest: string)
    ensures Decode("\\\r\n" + rest) == Preceded("", Decode(rest))
  {
    hide Decode, UnicodeEscape, OctalValue, OctalLength;
    var u := "\r\n" + rest;
    assert "\\\r\n" + rest == "\\" + u && u[2..] == rest && u[0] == '\r' && u[1] == '\n';
    NothingIsRead(u, 2);
  }

  lemma NothingIsRead(t: string, n: nat)
    requires t != [] && Escaped(t) == Some(("", n))
    ensures Decode("\\" + t) == Preceded("", Decode(t[n..]))
  {
    hide Escaped;
    var s := "\\" + t;
    assert s[0] == '\\' && s[1..] == t && s[1 + n..] == t[n..];
  }

  lemma BareLineEnd(t: string)
    requires t != []
    ensures t[0] as int == 10 || t[0] as int == 13 ==> Decode(t) == None
  {
  }

  function OctalChar(d: nat): char
    requires d < 8
  {
    ('0' as nat + d) as char
  }

  /** Digits of base 8: three up to 377, and two or one where no further digit
      follows or would go beyond. */
  lemma OctalsAreRead(high: nat, middle: nat, low: nat, rest: string)
    requires high < 8 && middle < 8 && low < 8
    ensures high < 4 ==>
              Decode("\\" + [OctalChar(high), OctalChar(middle), OctalChar(low)] + rest)
                == Preceded([(64 * high + 8 * middle + low) as char], Decode(rest))
    ensures high >= 4 || rest == [] || !(48 <= rest[0] as int <= 55) ==>
              Decode("\\" + [OctalChar(high), OctalChar(middle)] + rest) == Preceded([(8 * high + middle) as char], Decode(rest))
    ensures rest == [] || !(48 <= rest[0] as int <= 55) ==>
              Decode("\\" + [OctalChar(high)] + rest) == Preceded([high as char], Decode(rest))
  {
    hide Decode;
    ThreeOctals(high, middle, low, rest);
    TwoOctals(high, middle, rest);
    OneOctal(high, rest);
  }

  lemma OctalHere(t: string, n: nat)
    requires t != [] && IsOctal(t[0]) && n == OctalLength(t)
    ensures Decode("\\" + t) == Preceded([OctalValue(t[..n]) as char], Decode(t[n..]))
  {
    hide Decode, OctalLength, OctalValue;
    assert Escaped(t) == Some(([OctalValue(t[..n]) as char], n));
    EscapeIsRead(t, OctalValue(t[..n]) as char, n);
  }

  lemma ThreeOctals(high: nat, middle: nat, low: nat, rest: string)
    requires high < 8 && middle < 8 && low < 8
    ensures high < 4 ==>
              Decode("\\" + [OctalChar(high), OctalChar(middle), OctalChar(low)] + rest)
                == Preceded([(64 * high + 8 * middle + low) as char], Decode(rest))
  {
    hide Decode;
    if high < 4 {
      var t := [OctalChar(high), OctalChar(middle), OctalChar(low)] + rest;
      assert "\\" + [OctalChar(high), OctalChar(middle), OctalChar(low)] + rest == "\\" + t;
      assert t[..3] == [OctalChar(high), OctalChar(middle), OctalChar(low)] && t[3..] == rest;
      OctalHere(t, 3);
    }
  }

  lemma TwoOctals(high: nat, middle: nat, rest: string)
    requires high < 8 && middle < 8
    ensures high >= 4 || rest == [] || !(48 <= rest[0] as int <= 55) ==>
              Decode("\\" + [OctalChar(high), OctalChar(middle)] + rest) == Preceded([(8 * high + middle) as char], Decode(rest))
  {
    hide Decode;
    if high >= 4 || rest == [] || !(48 <= rest[0] as int <= 55) {
      var t := [OctalChar(high), OctalChar(middle)] + rest;
      assert "\\" + [OctalChar(high), OctalChar(middle)] + rest == "\\" + t;
      assert t[..2] == [OctalChar(high), OctalChar(middle)] && t[2..] == rest && (|t| > 2 ==> t[2] == rest[0]);
      OctalHere(t, 2);
    }
  }

  lemma OneOctal(high: nat, rest: string)
    requires high < 8
    ensures rest == [] || !(48 <= rest[0] as int <= 55) ==>
              Decode("\\" + [OctalChar(high)] + rest) == Preceded([high as char], Decode(rest))
  {
    hide Decode;
    if rest == [] || !(48 <= rest[0] as int <= 55) {
      var t := [OctalChar(high)] + rest;
      assert "\\" + [OctalChar(high)] + rest == "\\" + t;
      assert t[..1] == [OctalChar(high)] && t[1..] == rest && (|t| > 1 ==> t[1] == rest[0]);
      OctalHere(t, 1);
    }
  }

  /** Text without escapes and what is decoded after it stand one after the other. */
  lemma {:induction false} PlainThenDecoded(plain: string, rest: string)
    requires Verbatim(plain)
    ensures Decode(plain + rest) == Preceded(plain, Decode(rest))
  {
    hide Escaped;
    if plain == [] {
      assert plain + rest == rest;
      if Decode(rest).Some? { assert [] + Decode(rest).value == Decode(rest).value; }
    } else {
      var s := plain + rest;
      assert s[0] == plain[0] && s[1..] == plain[1..] + rest;
      PlainThenDecoded(plain[1..], rest);
      if Decode(rest).Some? { assert [plain[0]] + (plain[1..] + Decode(rest).value) == plain + Decode(rest).value; }
    }
  }
}
