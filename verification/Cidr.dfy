/** Blocks of addresses of trusted proxies: reading one, and whether it holds an
    address, by masking in the width of the family. */
module Cidr {
  import opened Powers
  import opened Text
  import IE = InstallerEngine

  datatype Address = V4(bits: nat) | V6(bits: nat) {
    function Width(): nat { if V4? then 32 else 128 }

    predicate Valid() { bits < Pow2(Width()) }
  }

  datatype Cidr = Cidr(network: Address, prefix: nat) {
    predicate Valid() { network.Valid() && prefix <= network.Width() }
  }

  datatype Result<+T> = Ok(value: T) | BadAddress | BadPrefix

  // ── Reading

  /** A number of eight bits: digits, with an optional plus. */
  function ReadU8(s: string): Option<nat> {
    var digits := if s != [] && s[0] == '+' then s[1..] else s;
    if digits != [] && AllDigits(digits) && DecimalValue(digits) <= 255 then Some(DecimalValue(digits)) else None
  }

  /** `readAddress` is the platform's reading of an address. */
  function Parse(raw: string, readAddress: string -> Option<Address>): Result<Cidr> {
    var s := Strip(raw);
    var n := Before(s, '/');
    match readAddress(s[..n])
    case None => BadAddress
    case Some(network) =>
      if n == |s| then Ok(Cidr(network, network.Width()))
      else
        match ReadU8(s[n + 1..])
        case Some(p) => if p <= network.Width() then Ok(Cidr(network, p)) else BadPrefix
        case None => BadPrefix
  }

  /** Reading undoes writing, with or without a prefix and whatever white space
      is around, and every block read has a prefix its family allows. */
  lemma ParseUndoesPrinting(left: string, name: string, prefix: Option<nat>, right: string,
                            readAddress: string -> Option<Address>)
    requires AllSpace(left) && AllSpace(right) && Trimmed(name) && name != [] && Without(name, '/')
    requires readAddress(name).Some?
    requires prefix.Some? ==> prefix.value <= readAddress(name).value.Width()
    ensures var a := readAddress(name).value;
            var text := if prefix.Some? then name + "/" + Decimal(prefix.value) else name;
            Parse(left + text + right, readAddress)
              == Ok(Cidr(a, if prefix.Some? then prefix.value else a.Width()))
  {
    hide Strip, DecimalValue, Decimal, Before, ReadU8;
    if prefix.Some? {
      var digits := Decimal(prefix.value);
      var text := name + "/" + digits;
      assert text[|text| - 1] == digits[|digits| - 1];
      LastDigit(digits);
      StripPadded(left, text, right);
      assert text == name + ("/" + digits);
      BeforeIs(name, '/', "/" + digits);
      assert text[..|name|] == name && text[|name| + 1..] == digits;
      WidthIsSmall(readAddress(name).value);
      U8IsRead(prefix.value);
    } else {
      StripPadded(left, name, right);
      assert name + [] == name;
      BeforeIs(name, '/', []);
      assert name[..|name|] == name;
    }
  }

  lemma LastDigit(digits: string)
    requires digits != [] && AllDigits(digits)
    ensures !IsSpace(digits[|digits| - 1])
  {
    assert IsDigit(digits[|digits| - 1]);
  }

  lemma WidthIsSmall(a: Address)
    ensures a.Width() <= 255
  {
  }

  lemma U8IsRead(n: nat)
    requires n <= 255
    ensures ReadU8(Decimal(n)) == Some(n)
  {
    hide DecimalValue, Decimal;
    assert IsDigit(Decimal(n)[0]);
    DecimalIsRead(n);
  }

  lemma ParsedIsValid(raw: string, readAddress: string -> Option<Address>)
    requires forall s :: readAddress(s).Some? ==> readAddress(s).value.Valid()
    ensures var r := Parse(raw, readAddress); r.Ok? ==> r.value.Valid()
  {
    hide Strip;
    assert forall s :: readAddress(s).Some? ==> readAddress(s).value.Valid();
  }

  /** Zeros before a number. */
  function Zeros(n: nat): string { if n == 0 then [] else ['0'] + Zeros(n - 1) }

  lemma {:induction false} ZerosCountNothing(n: nat, digits: string)
    requires AllDigits(digits)
    ensures AllDigits(Zeros(n) + digits) && DecimalValue(Zeros(n) + digits) == DecimalValue(digits)
    decreases |digits|, n
  {
    var s := Zeros(n) + digits;
    ZerosAreDigits(n);
    if digits != [] {
      var front := digits[..|digits| - 1];
      ZerosCountNothing(n, front);
      assert s[..|s| - 1] == Zeros(n) + front;
    } else {
      assert s == Zeros(n);
      OnlyZeros(n);
    }
  }

  lemma {:induction false} ZerosAreDigits(n: nat)
    ensures forall i :: 0 <= i < |Zeros(n)| ==> Zeros(n)[i] == '0'
    ensures |Zeros(n)| == n
  {
    if n > 0 { ZerosAreDigits(n - 1); }
  }

  lemma {:induction false} OnlyZeros(n: nat)
    ensures AllDigits(Zeros(n)) && DecimalValue(Zeros(n)) == 0
  {
    ZerosAreDigits(n);
    if n > 0 {
      ZerosAreDigits(n - 1);
      OnlyZeros(n - 1);
      assert Zeros(n)[..n - 1] == Zeros(n - 1);
    }
  }

  /** A text of digits is the number it stands for, after some zeros. */
  lemma {:induction false} DigitsAreANumber(s: string) returns (n: nat)
    requires s != [] && AllDigits(s)
    ensures s == Zeros(n) + Decimal(DecimalValue(s))
  {
    var front, last := s[..|s| - 1], s[|s| - 1];
    var v := DecimalValue(s);
    assert v / 10 == DecimalValue(front) && v % 10 == last as nat - '0' as nat;
    if DecimalValue(front) == 0 {
      n := |front|;
      NothingButZeros(front);
      assert Decimal(v) == [last];
      assert s == front + [last];
    } else {
      n := DigitsAreANumber(front);
      assert Decimal(v) == Decimal(v / 10) + [last];
      assert s == front + [last] == Zeros(n) + (Decimal(v / 10) + [last]);
    }
  }

  lemma {:induction false} NothingButZeros(s: string)
    requires AllDigits(s) && DecimalValue(s) == 0
    ensures s == Zeros(|s|)
  {
    ZerosAreDigits(|s|);
    if s != [] {
      NothingButZeros(s[..|s| - 1]);
      ZerosAreDigits(|s| - 1);
      forall i | 0 <= i < |s| ensures s[i] == '0' {
        if i < |s| - 1 { assert s[i] == s[..|s| - 1][i] == Zeros(|s| - 1)[i]; }
      }
    }
  }

  /** A prefix as it may be written: a plus or none, zeros or none, the number. */
  ghost predicate Writes(t: string, p: nat) { exists zeros: nat :: WritesSo(t, p, zeros) }

  predicate WritesSo(t: string, p: nat, zeros: nat) {
    t == Zeros(zeros) + Decimal(p) || t == "+" + (Zeros(zeros) + Decimal(p))
  }

  lemma ReadsWhatIsWritten(t: string, p: nat)
    requires p <= 255
    ensures ReadU8(t) == Some(p) <==> Writes(t, p)
  {
    hide DecimalValue, Decimal, Zeros;
    if ReadU8(t) == Some(p) {
      var n := DigitsAreANumber(if t[0] == '+' then t[1..] else t);
      assert t[0] == '+' ==> t == "+" + t[1..];
      assert WritesSo(t, p, n);
    }
    if zeros: nat :| WritesSo(t, p, zeros) {
      var digits := Zeros(zeros) + Decimal(p);
      ZerosCountNothing(zeros, Decimal(p));
      DecimalIsRead(p);
      assert IsDigit(digits[0]);
      if t != digits { assert t[0] == '+' && t[1..] == digits; }
    }
  }

  /** A block is read exactly when its address is one the platform reads, and what
      follows a slash, if there is one, writes a prefix that its family allows. */
  lemma ParsesExactly(left: string, name: string, slash: bool, t: string, right: string,
                      readAddress: string -> Option<Address>, c: Cidr)
    requires AllSpace(left) && AllSpace(right) && Without(name, '/') && name != [] && !IsSpace(name[0])
    requires if slash then t == [] || !IsSpace(t[|t| - 1]) else t == [] && !IsSpace(name[|name| - 1])
    ensures Parse(left + (name + (if slash then "/" + t else "")) + right, readAddress) == Ok(c) <==>
            && readAddress(name) == Some(c.network) && c.prefix <= c.network.Width()
            && (if slash then Writes(t, c.prefix) else c.prefix == c.network.Width())
  {
    hide Strip, Before, ReadU8, Writes;
    var text := name + (if slash then "/" + t else "");
    assert text[|text| - 1] == if slash then (if t == [] then '/' else t[|t| - 1]) else name[|name| - 1];
    StripPadded(left, text, right);
    BeforeIs(name, '/', if slash then "/" + t else "");
    assert text[..|name|] == name;
    if slash { assert text[|name| + 1..] == t; }
    if readAddress(name).Some? {
      WidthIsSmall(readAddress(name).value);
      if c.prefix <= 255 { ReadsWhatIsWritten(t, c.prefix); }
    }
  }

  // ── Masking

  function And(a: nat, b: nat): nat {
    if a == 0 || b == 0 then 0 else 2 * And(a / 2, b / 2) + (a % 2) * (b % 2)
  }

  /** Shifting in a word: what leaves at the top is lost, and a shift by the whole
      width is not allowed. */
  function ShiftLeft(x: nat, places: nat, width: nat): nat
    requires places < width
  {
    (x * Pow2(places)) % Pow2(width)
  }

  function Mask(prefix: nat, width: nat): nat
    requires prefix <= width
  {
    if prefix == 0 then 0 else ShiftLeft(Pow2(width) - 1, width - prefix, width)
  }

  predicate Contains(c: Cidr, ip: Address)
    requires c.Valid()
  {
    if c.network.V4? == ip.V4? then
      var mask := Mask(c.prefix, c.network.Width());
      And(c.network.bits, mask) == And(ip.bits, mask)
    else false
  }

  /** The shifted ones are the top bits. */
  lemma MaskIs(prefix: nat, width: nat)
    requires prefix <= width
    ensures Mask(prefix, width) == Pow2(width) - Pow2(width - prefix) >= 0
  {
    if prefix > 0 {
      var all, low := Pow2(width), Pow2(width - prefix);
      Pow2Splits(prefix, width - prefix);
      assert Pow2(prefix) >= 2 * Pow2(prefix - 1) >= 1;
      TopBits(all, low, Pow2(prefix));
    }
  }

  lemma TopBits(all: nat, low: nat, high: nat)
    requires all == high * low && high > 0 && low > 0
    ensures ((all - 1) * low) % all == all - low >= 0
  {
    assert all - low == (high - 1) * low;
    assert (all - 1) * low == all * (low - 1) + (all - low);
    Remainder(all, low - 1, all - low);
  }

  /** Masking keeps the bits above the cut. */
  lemma {:induction false} AndWithMask(n: nat, width: nat, cut: nat)
    requires n < Pow2(width) && cut <= width
    ensures Pow2(cut) <= Pow2(width)
    ensures And(n, Pow2(width) - Pow2(cut)) == n / Pow2(cut) * Pow2(cut)
  {
    hide And;
    BelowPower(cut, width);
    if cut > 0 {
      AndWithMask(n / 2, width - 1, cut - 1);
      AndStep(n, Pow2(width - 1), Pow2(cut - 1));
    } else {
      AndWithOnes(n, width);
      assert Pow2(0) == 1;
    }
  }

  lemma AndStep(n: nat, all: nat, low: nat)
    requires 0 < low <= all && And(n / 2, all - low) == n / 2 / low * low
    ensures And(n, 2 * all - 2 * low) == n / (2 * low) * (2 * low)
  {
    hide And;
    var half := all - low;
    AndOfEven(n, half);
    assert 2 * all - 2 * low == 2 * half;
    DivideTwice(n, 2, low);
    Twice(n / (2 * low), low);
  }

  lemma Twice(q: nat, low: nat)
    ensures 2 * (q * low) == q * (2 * low)
  {
  }

  lemma AndOfEven(n: nat, half: nat)
    ensures And(n, 2 * half) == 2 * And(n / 2, half)
  {
    hide And;
    AndUnfolds(n, 2 * half);
    AndUnfolds(n / 2, half);
    assert 2 * half / 2 == half && 2 * half % 2 == 0;
  }

  lemma AndUnfolds(a: nat, b: nat)
    ensures And(a, b) == if a == 0 || b == 0 then 0 else 2 * And(a / 2, b / 2) + (a % 2) * (b % 2)
  {
  }

  lemma {:induction false} AndWithOnes(n: nat, width: nat)
    requires n < Pow2(width)
    ensures And(n, Pow2(width) - 1) == n
  {
    if width > 0 && n > 0 {
      AndWithOnes(n / 2, width - 1);
      assert (Pow2(width) - 1) / 2 == Pow2(width - 1) - 1 && (Pow2(width) - 1) % 2 == 1;
    }
  }

  /** The addresses of a block share what is above the cut. */
  lemma ContainsIsDivision(c: Cidr, ip: Address)
    requires c.Valid() && ip.Valid()
    ensures var size := Pow2(c.network.Width() - c.prefix);
            Contains(c, ip) <==> c.network.V4? == ip.V4? && c.network.bits / size == ip.bits / size
    ensures c.network.V4? && ip.V4? ==>
              (Contains(c, ip) <==> c.network.bits / Pow2(32 - c.prefix) == ip.bits / Pow2(32 - c.prefix))
    ensures c.network.V6? && ip.V6? ==>
              (Contains(c, ip) <==> c.network.bits / Pow2(128 - c.prefix) == ip.bits / Pow2(128 - c.prefix))
  {
    hide And, Mask, Pow2;
    if c.network.V4? == ip.V4? {
      MaskedAlike(c.network.bits, ip.bits, c.prefix, c.network.Width());
    }
  }

  lemma MaskedAlike(a: nat, b: nat, prefix: nat, width: nat)
    requires prefix <= width && a < Pow2(width) && b < Pow2(width)
    ensures And(a, Mask(prefix, width)) == And(b, Mask(prefix, width))
       <==> a / Pow2(width - prefix) == b / Pow2(width - prefix)
  {
    hide And, Mask, Pow2;
    var size := Pow2(width - prefix);
    MaskIs(prefix, width);
    AndWithMask(a, width, width - prefix);
    AndWithMask(b, width, width - prefix);
    SameMultiple(a / size, b / size, size);
  }

  /** A block is a run of consecutive addresses, as many as the bits below the
      prefix can count. */
  lemma BlockIsARange(c: Cidr, ip: Address)
    requires c.Valid() && ip.Valid()
    ensures var size := Pow2(c.network.Width() - c.prefix);
            var first := c.network.bits / size * size;
            Contains(c, ip) <==> c.network.V4? == ip.V4? && first <= ip.bits < first + size
  {
    hide Contains, Pow2;
    ContainsIsDivision(c, ip);
    var size := Pow2(c.network.Width() - c.prefix);
    QuotientIsARange(ip.bits, c.network.bits / size, size);
  }

  /** Of two blocks of one family, the one with the longer prefix lies inside the
      other or apart from it (section 3.1 of RFC 4632). */
  lemma BlocksNestOrAreApart(outer: Cidr, inner: Cidr)
    requires outer.Valid() && inner.Valid() && outer.prefix <= inner.prefix
    requires outer.network.V4? == inner.network.V4?
    ensures if Contains(outer, inner.network)
            then forall ip: Address :: ip.Valid() && Contains(inner, ip) ==> Contains(outer, ip)
            else forall ip: Address :: ip.Valid() ==> !(Contains(inner, ip) && Contains(outer, ip))
  {
    hide Contains, Pow2;
    var width := outer.network.Width();
    var small, large := Pow2(width - inner.prefix), Pow2(width - outer.prefix);
    var times := Pow2(inner.prefix - outer.prefix);
    Pow2Splits(width - inner.prefix, inner.prefix - outer.prefix);
    ContainsIsDivision(outer, inner.network);
    DivideTwice(inner.network.bits, small, times);
    forall ip: Address | ip.Valid() && Contains(inner, ip)
      ensures Contains(outer, ip) <==> Contains(outer, inner.network)
    {
      ContainsIsDivision(inner, ip);
      ContainsIsDivision(outer, ip);
      DivideTwice(ip.bits, small, times);
    }
  }

  /** The installer's test of a gateway, by division, is membership of the block
      of the machine's own address. */
  lemma GatewayTestIsMembership(address: nat, gateway: nat, prefix: nat)
    requires address < Pow2(32) && gateway < Pow2(32) && prefix <= 32
    ensures IE.SameNetwork(address, gateway, prefix) <==> Contains(Cidr(V4(address), prefix), V4(gateway))
  {
    ContainsIsDivision(Cidr(V4(address), prefix), V4(gateway));
  }
}
