/** The keys by which the advisory gate compares versions, and the precedence that
    section 11 of Semantic Versioning 2.0.0 gives them. */
module SemVer {
  import opened Text

  datatype Result<+T> = Ok(value: T) | Raised(why: string)

  /** A pre-release identifier as it is compared: numbers before texts. */
  datatype Part = Part(kind: nat, number: nat, text: string)

  datatype Key = Key(numbers: seq<nat>, release: nat, parts: seq<Part>)

  // ── Reading

  predicate IsNumber(s: string) { s != [] && AllDigits(s) }

  function NumbersOf(texts: seq<string>): seq<nat>
    requires forall t <- texts :: IsNumber(t)
  {
    if texts == [] then []
    else
      assert IsNumber(texts[0]);
      [DecimalValue(texts[0])] + NumbersOf(texts[1..])
  }

  function PartRead(s: string): Part {
    if IsNumber(s) then Part(0, DecimalValue(s), "") else Part(1, 0, s)
  }

  function PartsOf(texts: seq<string>): seq<Part> {
    if texts == [] then [] else [PartRead(texts[0])] + PartsOf(texts[1..])
  }

  /** The first three numbers, with zeros for those not given. */
  function FirstThree(numbers: seq<nat>): (three: seq<nat>)
    ensures |three| == 3
  {
    if |numbers| < 3 then numbers + seq(3 - |numbers|, _ => 0) else numbers[..3]
  }

  function WithoutBuild(text: string): string {
    var s := Strip(text);
    s[..Before(s, '+')]
  }

  function CoreOf(s: string): string { s[..Before(s, '-')] }

  function PreOf(s: string): string {
    if Before(s, '-') == |s| then [] else s[Before(s, '-') + 1..]
  }

  predicate AllNumbers(texts: seq<string>) { forall t <- texts :: IsNumber(t) }

  function ParseVersion(text: string): Result<Key> {
    var s := WithoutBuild(text);
    var numbers := Split(CoreOf(s), '.');
    if !AllNumbers(numbers) then Raised("unreadable version: " + s)
    else if PreOf(s) == [] then Ok(Key(FirstThree(NumbersOf(numbers)), 1, []))
    else Ok(Key(FirstThree(NumbersOf(numbers)), 0, PartsOf(Split(PreOf(s), '.'))))
  }

  method Parse(text: string) returns (r: Result<Key>)
    ensures r == ParseVersion(text)
  {
    hide NumbersOf, PartsOf, Strip, Split, DecimalValue;
    var s := Strip(text);
    s := s[..Before(s, '+')];
    var n := Before(s, '-');
    var core, pre := s[..n], if n == |s| then [] else s[n + 1..];
    var numbers, texts := [], Split(core, '.');
    NoNumbers();
    assert texts[..0] == [];
    for i := 0 to |texts|
      invariant AllNumbers(texts[..i]) && numbers == NumbersOf(texts[..i])
    {
      if !IsNumber(texts[i]) {
        return Raised("unreadable version: " + s);
      }
      OneMoreNumber(texts[..i], texts[i]);
      assert texts[..i + 1] == texts[..i] + [texts[i]];
      numbers := numbers + [DecimalValue(texts[i])];
    }
    assert texts[..|texts|] == texts;
    ghost var read := numbers;
    while |numbers| < 3
      invariant |read| <= |numbers| && numbers == read + seq(|numbers| - |read|, _ => 0)
      invariant |numbers| <= 3 || numbers == read
    {
      numbers := numbers + [0];
    }
    numbers := numbers[..3];
    assert numbers == FirstThree(read);
    if pre == [] {
      return Ok(Key(numbers, 1, []));
    }
    var parts, ids := [], Split(pre, '.');
    NoParts();
    assert ids[..0] == [];
    for i := 0 to |ids|
      invariant parts == PartsOf(ids[..i])
    {
      OneMorePart(ids[..i], ids[i]);
      assert ids[..i + 1] == ids[..i] + [ids[i]];
      if IsNumber(ids[i]) {
        parts := parts + [Part(0, DecimalValue(ids[i]), "")];
      } else {
        parts := parts + [Part(1, 0, ids[i])];
      }
    }
    assert ids[..|ids|] == ids;
    return Ok(Key(numbers, 0, parts));
  }

  lemma NoNumbers()
    ensures NumbersOf([]) == []
  {
  }

  lemma NoParts()
    ensures PartsOf([]) == []
  {
  }

  lemma {:induction false} OneMoreNumber(texts: seq<string>, t: string)
    requires AllNumbers(texts) && IsNumber(t)
    ensures AllNumbers(texts + [t]) && NumbersOf(texts + [t]) == NumbersOf(texts) + [DecimalValue(t)]
  {
    if texts == [] {
      assert texts + [t] == [t] && [t][1..] == [];
    } else {
      assert (texts + [t])[0] == texts[0] && (texts + [t])[1..] == texts[1..] + [t];
      assert forall u <- texts[1..] :: u in texts;
      OneMoreNumber(texts[1..], t);
    }
  }

  lemma {:induction false} OneMorePart(texts: seq<string>, t: string)
    ensures PartsOf(texts + [t]) == PartsOf(texts) + [PartRead(t)]
  {
    hide PartRead;
    if texts == [] {
      assert texts + [t] == [t] && [t][1..] == [];
    } else {
      assert (texts + [t])[0] == texts[0] && (texts + [t])[1..] == texts[1..] + [t];
      OneMorePart(texts[1..], t);
    }
  }

  // ── Comparing, as tuples compare

  /** Element by element from the left; a proper prefix comes first. */
  predicate Lex<T(==)>(less: (T, T) -> bool, a: seq<T>, b: seq<T>) {
    b != [] && (a == [] || less(a[0], b[0]) || (a[0] == b[0] && Lex(less, a[1..], b[1..])))
  }

  predicate CharLess(a: char, b: char) { a < b }

  predicate NatLess(a: nat, b: nat) { a < b }

  predicate PartLess(a: Part, b: Part) {
    || a.kind < b.kind
    || (a.kind == b.kind && a.number < b.number)
    || (a.kind == b.kind && a.number == b.number && Lex(CharLess, a.text, b.text))
  }

  predicate KeyLess(a: Key, b: Key) {
    || Lex(NatLess, a.numbers, b.numbers)
    || (a.numbers == b.numbers && a.release < b.release)
    || (a.numbers == b.numbers && a.release == b.release && Lex(PartLess, a.parts, b.parts))
  }

  ghost predicate StrictOrder<T(!new)>(less: (T, T) -> bool) {
    && (forall a :: !less(a, a))
    && (forall a, b, c :: less(a, b) && less(b, c) ==> less(a, c))
    && (forall a, b :: less(a, b) || a == b || less(b, a))
  }

  lemma {:induction false} LexIrreflexive<T(!new)>(less: (T, T) -> bool, a: seq<T>)
    requires StrictOrder(less)
    ensures !Lex(less, a, a)
  {
    if a != [] { LexIrreflexive(less, a[1..]); }
  }

  lemma {:induction false} LexTransitive<T(!new)>(less: (T, T) -> bool, a: seq<T>, b: seq<T>, c: seq<T>)
    requires StrictOrder(less) && Lex(less, a, b) && Lex(less, b, c)
    ensures Lex(less, a, c)
  {
    if a != [] && a[0] == b[0] && b[0] == c[0] {
      LexTransitive(less, a[1..], b[1..], c[1..]);
    }
  }

  lemma {:induction false} LexTotal<T(!new)>(less: (T, T) -> bool, a: seq<T>, b: seq<T>)
    requires StrictOrder(less)
    ensures Lex(less, a, b) || a == b || Lex(less, b, a)
  {
    if a != [] && b != [] {
      LexTotal(less, a[1..], b[1..]);
      if a[0] == b[0] && a[1..] == b[1..] {
        assert a == [a[0]] + a[1..] && b == [b[0]] + b[1..];
      }
    }
  }

  lemma LexIsStrict<T(!new)>(less: (T, T) -> bool)
    requires StrictOrder(less)
    ensures forall a :: !Lex(less, a, a)
    ensures forall a, b, c :: Lex(less, a, b) && Lex(less, b, c) ==> Lex(less, a, c)
    ensures forall a, b :: Lex(less, a, b) || a == b || Lex(less, b, a)
  {
    hide StrictOrder;
    forall a ensures !Lex(less, a, a) { LexIrreflexive(less, a); }
    forall a, b, c | Lex(less, a, b) && Lex(less, b, c) ensures Lex(less, a, c) { LexTransitive(less, a, b, c); }
    forall a, b ensures Lex(less, a, b) || a == b || Lex(less, b, a) { LexTotal(less, a, b); }
  }

  lemma PartsAreOrdered()
    ensures StrictOrder(PartLess)
  {
    hide Lex;
    assert StrictOrder(CharLess);
    LexIsStrict(CharLess);
  }

  /** The keys are in a strict total order. */
  lemma KeysAreOrdered()
    ensures StrictOrder(KeyLess)
  {
    hide Lex, PartLess;
    PartsAreOrdered();
    assert StrictOrder(NatLess);
    LexIsStrict(NatLess);
    LexIsStrict(PartLess);
  }

  // ── The precedence of Semantic Versioning 2.0.0, section 11

  datatype Identifier = Numeric(n: nat) | Alphanumeric(text: string)

  /** A version; no pre-release is the empty list, and build metadata is kept as
      text. */
  datatype Version = Version(major: nat, minor: nat, patch: nat, pre: seq<Identifier>, build: Option<string>)

  /** Somewhere, after equal fields, `a` ends or has the lower field. */
  ghost predicate FirstDifferenceBelow<T>(below: (T, T) -> bool, a: seq<T>, b: seq<T>) {
    exists k: nat :: DiffersAt(below, a, b, k)
  }

  predicate DiffersAt<T(==)>(below: (T, T) -> bool, a: seq<T>, b: seq<T>, k: nat) {
    k <= |a| && k < |b| && a[..k] == b[..k] && (k == |a| || below(a[k], b[k]))
  }

  /** Clauses 4.1 to 4.3: numbers by size, texts in ASCII order, numbers first. */
  ghost predicate IdentifierBelow(x: Identifier, y: Identifier) {
    match (x, y)
    case (Numeric(m), Numeric(n)) => m < n
    case (Numeric(_), Alphanumeric(_)) => true
    case (Alphanumeric(_), Numeric(_)) => false
    case (Alphanumeric(s), Alphanumeric(t)) => FirstDifferenceBelow(CharLess, s, t)
  }

  /** Clause 4.4: a larger set of fields is higher if all before are equal. */
  ghost predicate PreBelow(a: seq<Identifier>, b: seq<Identifier>) {
    exists k: nat :: PreDiffersAt(a, b, k)
  }

  ghost predicate PreDiffersAt(a: seq<Identifier>, b: seq<Identifier>, k: nat) {
    k <= |a| && k < |b| && a[..k] == b[..k] && (k == |a| || IdentifierBelow(a[k], b[k]))
  }

  ghost predicate Precedes(a: Version, b: Version) {
    if a.major != b.major then a.major < b.major
    else if a.minor != b.minor then a.minor < b.minor
    else if a.patch != b.patch then a.patch < b.patch
    else if a.pre == [] then false
    else if b.pre == [] then true
    else PreBelow(a.pre, b.pre)
  }

  function PartFor(id: Identifier): Part {
    match id
    case Numeric(n) => Part(0, n, "")
    case Alphanumeric(text) => Part(1, 0, text)
  }

  function PartsFor(pre: seq<Identifier>): seq<Part> {
    seq(|pre|, i requires 0 <= i < |pre| => PartFor(pre[i]))
  }

  function KeyFor(v: Version): Key {
    Key([v.major, v.minor, v.patch], if v.pre == [] then 1 else 0, PartsFor(v.pre))
  }

  lemma {:induction false} LexIsFirstDifference<T(!new)>(less: (T, T) -> bool, a: seq<T>, b: seq<T>)
    requires StrictOrder(less)
    ensures Lex(less, a, b) <==> FirstDifferenceBelow(less, a, b)
  {
    if b == [] {
    } else if a == [] {
      assert DiffersAt(less, a, b, 0);
    } else {
      LexIsFirstDifference(less, a[1..], b[1..]);
      if less(a[0], b[0]) {
        assert DiffersAt(less, a, b, 0);
      }
      if a[0] == b[0] {
        ShiftedDifference(less, a, b);
      } else {
        assert forall k: nat :: DiffersAt(less, a, b, k) && k > 0 ==> a[..k][0] == b[..k][0];
      }
    }
  }

  lemma ShiftedDifference<T(!new)>(less: (T, T) -> bool, a: seq<T>, b: seq<T>)
    requires StrictOrder(less) && a != [] && b != [] && a[0] == b[0]
    ensures FirstDifferenceBelow(less, a[1..], b[1..]) <==> FirstDifferenceBelow(less, a, b)
  {
    if k: nat :| DiffersAt(less, a[1..], b[1..], k) {
      assert a[..k + 1] == [a[0]] + a[1..][..k] && b[..k + 1] == [b[0]] + b[1..][..k];
      assert DiffersAt(less, a, b, k + 1);
    }
    if k: nat :| DiffersAt(less, a, b, k) {
      assert k > 0;
      assert a[1..][..k - 1] == a[..k][1..] && b[1..][..k - 1] == b[..k][1..];
      assert DiffersAt(less, a[1..], b[1..], k - 1);
    }
  }

  lemma PartsCompareAsIdentifiers(x: Identifier, y: Identifier)
    ensures PartLess(PartFor(x), PartFor(y)) <==> IdentifierBelow(x, y)
    ensures PartFor(x) == PartFor(y) <==> x == y
  {
    hide Lex, FirstDifferenceBelow;
    if x.Alphanumeric? && y.Alphanumeric? {
      assert StrictOrder(CharLess);
      LexIsFirstDifference(CharLess, x.text, y.text);
    } else {
      assert !Lex(CharLess, "", "") by { assert StrictOrder(CharLess); LexIrreflexive(CharLess, ""); }
    }
  }

  lemma PreComparesAsParts(a: seq<Identifier>, b: seq<Identifier>)
    ensures Lex(PartLess, PartsFor(a), PartsFor(b)) <==> PreBelow(a, b)
  {
    hide Lex, PartLess, IdentifierBelow, StrictOrder, PartFor;
    PartsAreOrdered();
    LexIsFirstDifference(PartLess, PartsFor(a), PartsFor(b));
    forall k: nat
      ensures DiffersAt(PartLess, PartsFor(a), PartsFor(b), k) <==> PreDiffersAt(a, b, k)
    {
      if k <= |a| && k < |b| {
        SamePrefix(a, b, k);
        if k < |a| { PartsCompareAsIdentifiers(a[k], b[k]); }
      }
    }
  }

  lemma SamePrefix(a: seq<Identifier>, b: seq<Identifier>, k: nat)
    requires k <= |a| && k <= |b|
    ensures PartsFor(a)[..k] == PartsFor(b)[..k] <==> a[..k] == b[..k]
  {
    hide PartFor;
    forall i | 0 <= i < k ensures PartsFor(a)[i] == PartsFor(b)[i] <==> a[i] == b[i] {
      PartsCompareAsIdentifiers(a[i], b[i]);
    }
    if PartsFor(a)[..k] == PartsFor(b)[..k] {
      forall i | 0 <= i < k ensures a[i] == b[i] {
        assert PartsFor(a)[..k][i] == PartsFor(b)[..k][i];
      }
    }
    if a[..k] == b[..k] {
      forall i | 0 <= i < k ensures PartsFor(a)[i] == PartsFor(b)[i] {
        assert a[..k][i] == b[..k][i];
      }
    }
  }

  lemma ThreeCompare(a: Version, b: Version)
    ensures Lex(NatLess, [a.major, a.minor, a.patch], [b.major, b.minor, b.patch])
       <==> a.major < b.major || (a.major == b.major && (a.minor < b.minor || (a.minor == b.minor && a.patch < b.patch)))
  {
    hide Lex, NatLess;
    LexCons(a.major, [a.minor, a.patch], b.major, [b.minor, b.patch]);
    LexCons(a.minor, [a.patch], b.minor, [b.patch]);
    LexCons(a.patch, [], b.patch, []);
    assert [a.major] + [a.minor, a.patch] == [a.major, a.minor, a.patch];
    assert [b.major] + [b.minor, b.patch] == [b.major, b.minor, b.patch];
    assert [a.minor] + [a.patch] == [a.minor, a.patch] && [b.minor] + [b.patch] == [b.minor, b.patch];
    assert [a.patch] + [] == [a.patch] && [b.patch] + [] == [b.patch];
    NotBelowNothing();
  }

  lemma LexCons(x: nat, a: seq<nat>, y: nat, b: seq<nat>)
    ensures Lex(NatLess, [x] + a, [y] + b) <==> x < y || (x == y && Lex(NatLess, a, b))
  {
    assert ([x] + a)[1..] == a && ([y] + b)[1..] == b;
  }

  lemma NotBelowNothing()
    ensures !Lex(NatLess, [], [])
  {
  }

  /** Keys compare as section 11 says versions do; build metadata, which is not in
      the key, makes no difference (section 10). */
  lemma KeysComparePrecedence(a: Version, b: Version)
    ensures KeyLess(KeyFor(a), KeyFor(b)) <==> Precedes(a, b)
    ensures KeyFor(a) == KeyFor(b) <==> a.(build := None) == b.(build := None)
  {
    hide Lex, PartLess, PreBelow, PartFor;
    ThreeCompare(a, b);
    PreComparesAsParts(a.pre, b.pre);
    var m := |a.pre|;
    if |a.pre| == |b.pre| {
      SamePrefix(a.pre, b.pre, m);
      assert a.pre[..m] == a.pre && b.pre[..m] == b.pre;
      assert PartsFor(a.pre)[..m] == PartsFor(a.pre) && PartsFor(b.pre)[..m] == PartsFor(b.pre);
    }
    assert KeyFor(a).numbers == KeyFor(b).numbers <==> a.major == b.major && a.minor == b.minor && a.patch == b.patch by {
      assert KeyFor(a).numbers[0] == a.major && KeyFor(a).numbers[1] == a.minor && KeyFor(a).numbers[2] == a.patch;
    }
    if a.pre == [] && b.pre == [] {
      PartsAreOrdered();
      LexIrreflexive(PartLess, PartsFor(a.pre));
    }
  }

  // ── Reading what a version prints as

  predicate IdentifierChar(c: char) {
    IsDigit(c) || 'A' <= c <= 'Z' || 'a' <= c <= 'z' || c == '-'
  }

  predicate WellFormed(v: Version) {
    && (forall id <- v.pre :: id.Alphanumeric? ==>
          !IsNumber(id.text) && id.text != [] && forall i :: 0 <= i < |id.text| ==> IdentifierChar(id.text[i]))
    && (v.build.Some? ==>
          v.build.value != [] && forall i :: 0 <= i < |v.build.value| ==> IdentifierChar(v.build.value[i]) || v.build.value[i] == '.')
  }

  function IdentifierText(id: Identifier): string {
    match id
    case Numeric(n) => Decimal(n)
    case Alphanumeric(text) => text
  }

  function IdentifierTexts(pre: seq<Identifier>): (texts: seq<string>)
    ensures |texts| == |pre|
  {
    if pre == [] then [] else [IdentifierText(pre[0])] + IdentifierTexts(pre[1..])
  }

  function Core(v: Version): seq<string> { [Decimal(v.major), Decimal(v.minor), Decimal(v.patch)] }

  function Print(v: Version): string {
    Join(Core(v), '.')
    + (if v.pre == [] then "" else "-" + Join(IdentifierTexts(v.pre), '.'))
    + (if v.build.None? then "" else "+" + v.build.value)
  }

  lemma NumberIsPlain(s: string, c: char)
    requires AllDigits(s) && !IsDigit(c)
    ensures Without(s, c)
  {
  }

  lemma {:induction false} JoinWithout(parts: seq<string>, c: char, sep: char)
    requires parts != [] && c != sep && forall p <- parts :: Without(p, c)
    ensures Without(Join(parts, sep), c)
  {
    assert parts[0] in parts;
    if |parts| > 1 {
      assert forall p <- parts[1..] :: p in parts;
      JoinWithout(parts[1..], c, sep);
    }
  }

  lemma CoreIsRead(v: Version)
    ensures Split(Join(Core(v), '.'), '.') == Core(v) && AllNumbers(Core(v))
    ensures FirstThree(NumbersOf(Core(v))) == [v.major, v.minor, v.patch]
    ensures Without(Join(Core(v), '.'), '-') && Without(Join(Core(v), '.'), '+')
  {
    hide Split, Join, DecimalValue, Decimal, NumbersOf;
    var core := Core(v);
    forall p <- core ensures Without(p, '.') && Without(p, '-') && Without(p, '+') {
      NumberIsPlain(p, '.');
      NumberIsPlain(p, '-');
      NumberIsPlain(p, '+');
    }
    SplitUndoesJoin(core, '.');
    JoinWithout(core, '-', '.');
    JoinWithout(core, '+', '.');
    DecimalIsRead(v.major);
    DecimalIsRead(v.minor);
    DecimalIsRead(v.patch);
    NoNumbers();
    OneMoreNumber([], core[0]);
    OneMoreNumber([core[0]], core[1]);
    OneMoreNumber([core[0], core[1]], core[2]);
    assert [] + [core[0]] == [core[0]] && [core[0]] + [core[1]] == [core[0], core[1]];
    assert [core[0], core[1]] + [core[2]] == core;
    assert NumbersOf(core) == [v.major, v.minor, v.patch];
    assert NumbersOf(core)[..3] == NumbersOf(core);
  }

  predicate GoodIdentifier(id: Identifier) {
    id.Alphanumeric? ==>
      !IsNumber(id.text) && id.text != [] && forall i :: 0 <= i < |id.text| ==> IdentifierChar(id.text[i])
  }

  lemma IdentifierIsRead(id: Identifier)
    requires GoodIdentifier(id)
    ensures PartRead(IdentifierText(id)) == PartFor(id)
    ensures Without(IdentifierText(id), '.') && Without(IdentifierText(id), '+')
    ensures IdentifierText(id) != []
  {
    hide Decimal, DecimalValue;
    match id
    case Numeric(n) =>
      DecimalIsRead(n);
    case Alphanumeric(text) =>
  }

  lemma {:induction false} IdentifiersAreRead(pre: seq<Identifier>)
    requires forall id <- pre :: GoodIdentifier(id)
    ensures PartsOf(IdentifierTexts(pre)) == PartsFor(pre)
    ensures forall t <- IdentifierTexts(pre) :: Without(t, '.') && Without(t, '+') && t != []
  {
    hide GoodIdentifier, IdentifierText, PartRead, PartFor, Without;
    if pre != [] {
      assert pre[0] in pre && forall id <- pre[1..] :: id in pre;
      IdentifierIsRead(pre[0]);
      IdentifiersAreRead(pre[1..]);
      assert PartsFor(pre) == [PartFor(pre[0])] + PartsFor(pre[1..]);
    }
  }

  /** What comes before the build metadata. */
  function Numbered(v: Version): string {
    Join(Core(v), '.') + (if v.pre == [] then "" else "-" + Join(IdentifierTexts(v.pre), '.'))
  }

  lemma NumberedIsRead(v: Version)
    requires forall id <- v.pre :: GoodIdentifier(id)
    ensures var s := Numbered(v);
      && Without(s, '+')
      && CoreOf(s) == Join(Core(v), '.')
      && PreOf(s) == (if v.pre == [] then [] else Join(IdentifierTexts(v.pre), '.'))
      && (v.pre != [] ==> PreOf(s) != [])
  {
    hide Join, Core, IdentifierTexts, GoodIdentifier;
    CoreIsRead(v);
    IdentifiersAreRead(v.pre);
    var core := Join(Core(v), '.');
    if v.pre == [] {
      assert core + [] == core;
      BeforeIs(core, '-', []);
    } else {
      var texts := IdentifierTexts(v.pre);
      var pre := Join(texts, '.');
      JoinWithout(texts, '+', '.');
      BeforeIs(core, '-', "-" + pre);
      assert Numbered(v)[..|core|] == core && Numbered(v)[|core| + 1..] == pre;
      assert texts[0] in texts;
      JoinNotEmpty(texts);
    }
  }

  lemma JoinNotEmpty(texts: seq<string>)
    requires texts != [] && texts[0] != []
    ensures Join(texts, '.') != []
  {
  }

  lemma VersionText(v: Version, left: string, right: string)
    requires WellFormed(v) && AllSpace(left) && AllSpace(right)
    ensures WithoutBuild(left + Print(v) + right) == Numbered(v)
  {
    hide Join, Core, IdentifierTexts, Strip, WellFormed;
    GoodIdentifiers(v);
    NumberedIsRead(v);
    PrintIsTrimmed(v);
    StripPadded(left, Print(v), right);
    var s := Numbered(v);
    if v.build.None? {
      assert Print(v) == s + [];
      BeforeIs(s, '+', []);
    } else {
      assert Print(v) == s + ("+" + v.build.value);
      BeforeIs(s, '+', "+" + v.build.value);
      assert Print(v)[..|s|] == s;
    }
  }

  lemma GoodIdentifiers(v: Version)
    requires WellFormed(v)
    ensures forall id <- v.pre :: GoodIdentifier(id)
  {
  }

  lemma PrintIsTrimmed(v: Version)
    requires WellFormed(v)
    ensures Trimmed(Print(v)) && Print(v) != []
  {
    hide Join, IdentifierTexts, WellFormed, Decimal;
    var core, all := Join(Core(v), '.'), Print(v);
    JoinEnds(Core(v), '.');
    assert core[0] == Core(v)[0][0] && core[|core| - 1] == Core(v)[2][|Core(v)[2]| - 1];
    assert IsDigit(core[0]) && IsDigit(core[|core| - 1]);
    assert all[0] == core[0];
    if v.build.Some? {
      BuildEnds(v);
      assert all[|all| - 1] == v.build.value[|v.build.value| - 1];
    } else if v.pre != [] {
      var texts := IdentifierTexts(v.pre);
      PreEnds(v);
      JoinEnds(texts, '.');
      assert all[|all| - 1] == Join(texts, '.')[|Join(texts, '.')| - 1];
    }
  }

  lemma BuildEnds(v: Version)
    requires WellFormed(v) && v.build.Some?
    ensures v.build.value != [] && !IsSpace(v.build.value[|v.build.value| - 1])
  {
    assert IdentifierChar(v.build.value[|v.build.value| - 1]) || v.build.value[|v.build.value| - 1] == '.';
  }

  lemma PreEnds(v: Version)
    requires WellFormed(v) && v.pre != []
    ensures var texts := IdentifierTexts(v.pre); var last := texts[|texts| - 1];
            last != [] && !IsSpace(last[|last| - 1])
  {
    hide Decimal;
    LastText(v.pre);
    var id := v.pre[|v.pre| - 1];
    assert id in v.pre;
    var last := IdentifierText(id);
    match id
    case Numeric(n) => assert IsDigit(last[|last| - 1]);
    case Alphanumeric(text) => assert IdentifierChar(last[|last| - 1]);
  }

  lemma {:induction false} LastText(pre: seq<Identifier>)
    requires pre != []
    ensures IdentifierTexts(pre)[|pre| - 1] == IdentifierText(pre[|pre| - 1])
  {
    if |pre| > 1 { LastText(pre[1..]); }
  }

  /** Reading a printed version gives its key, with any space around it. */
  lemma PrintedVersionIsRead(v: Version, left: string, right: string)
    requires WellFormed(v) && AllSpace(left) && AllSpace(right)
    ensures ParseVersion(left + Print(v) + right) == Ok(KeyFor(v))
  {
    hide Join, Core, IdentifierTexts, WithoutBuild, WellFormed, NumbersOf, PartsOf, Split, CoreOf, PreOf, Print;
    GoodIdentifiers(v);
    VersionText(v, left, right);
    NumberedIsRead(v);
    CoreIsRead(v);
    IdentifiersAreRead(v.pre);
    if v.pre != [] {
      SplitUndoesJoin(IdentifierTexts(v.pre), '.');
    }
  }

  /** So the order of the texts' keys is the precedence of the versions. */
  lemma TextsComparePrecedence(a: Version, b: Version)
    requires WellFormed(a) && WellFormed(b)
    ensures var x, y := ParseVersion(Print(a)), ParseVersion(Print(b));
      && x.Ok? && y.Ok?
      && (KeyLess(x.value, y.value) <==> Precedes(a, b))
      && (x.value == y.value <==> a.(build := None) == b.(build := None))
  {
    hide ParseVersion, Print, WellFormed, KeyLess, KeyFor, Precedes;
    PrintedVersionIsRead(a, [], []);
    PrintedVersionIsRead(b, [], []);
    assert [] + Print(a) + [] == Print(a) && [] + Print(b) + [] == Print(b);
    KeysComparePrecedence(a, b);
  }

  // ── Other texts

  function Decimals(numbers: seq<nat>): (texts: seq<string>)
    ensures |texts| == |numbers|
  {
    if numbers == [] then [] else [Decimal(numbers[0])] + Decimals(numbers[1..])
  }

  lemma {:induction false} DecimalsAreRead(numbers: seq<nat>)
    ensures AllNumbers(Decimals(numbers)) && NumbersOf(Decimals(numbers)) == numbers
    ensures forall c: char, t <- Decimals(numbers) :: !IsDigit(c) ==> Without(t, c)
  {
    hide Decimal, DecimalValue;
    if numbers != [] {
      DecimalsAreRead(numbers[1..]);
      DecimalIsRead(numbers[0]);
      forall c: char | !IsDigit(c) ensures Without(Decimal(numbers[0]), c) { NumberIsPlain(Decimal(numbers[0]), c); }
      assert numbers == [numbers[0]] + numbers[1..];
    }
  }

  /** The number at a place, or zero. */
  function At(numbers: seq<nat>, i: nat): nat { if i < |numbers| then numbers[i] else 0 }

  /** A version of fewer than three numbers has zeros for the rest, and of more than
      three only the first three count. */
  lemma NumbersAreRead(numbers: seq<nat>)
    requires numbers != []
    ensures ParseVersion(Join(Decimals(numbers), '.')) == Ok(Key([At(numbers, 0), At(numbers, 1), At(numbers, 2)], 1, []))
  {
    hide Join, Split, Decimals, NumbersOf, Strip, FirstThree;
    var texts := Decimals(numbers);
    var s := Join(texts, '.');
    DecimalsAreRead(numbers);
    SplitUndoesJoin(texts, '.');
    assert !IsDigit('+') && !IsDigit('-') && !IsDigit('.');
    JoinWithout(texts, '+', '.');
    JoinWithout(texts, '-', '.');
    DecimalsAreTrimmed(numbers);
    assert [] + s + [] == s && s + [] == s;
    StripPadded([], s, []);
    BeforeIs(s, '+', []);
    BeforeIs(s, '-', []);
    assert s[..|s|] == s;
    ThreeAre(numbers);
  }

  lemma ThreeAre(numbers: seq<nat>)
    ensures FirstThree(numbers) == [At(numbers, 0), At(numbers, 1), At(numbers, 2)]
  {
  }

  lemma DecimalsAreTrimmed(numbers: seq<nat>)
    requires numbers != []
    ensures Trimmed(Join(Decimals(numbers), '.')) && Join(Decimals(numbers), '.') != []
  {
    hide Join, Decimal, NumbersOf;
    var texts := Decimals(numbers);
    DecimalsAreRead(numbers);
    assert texts[0] in texts && texts[|texts| - 1] in texts;
    assert IsNumber(texts[0]) && IsNumber(texts[|texts| - 1]);
    JoinEnds(texts, '.');
    assert IsDigit(texts[0][0]) && IsDigit(texts[|texts| - 1][|texts[|texts| - 1]| - 1]);
  }

  /** A core that is not numbers between points is refused, whatever follows it. */
  lemma OnlyNumbersAreRead(core: string, rest: string)
    requires Without(core, '+') && Without(core, '-')
    requires rest == [] || rest[0] == '-' || rest[0] == '+'
    requires Trimmed(core + rest) && core + rest != []
    ensures ParseVersion(core + rest).Ok? <==>
            exists texts: seq<string> :: texts != [] && AllNumbers(texts) && core == Join(texts, '.')
  {
    hide Strip, Split, Join, NumbersOf, PartsOf, Before;
    var all := core + rest;
    assert [] + all + [] == all;
    StripPadded([], all, []);
    BeforePast(core, rest, '+');
    var cut := rest[..Before(rest, '+')];
    var s := WithoutBuild(all);
    assert s == core + cut;
    assert cut != [] ==> cut[0] == rest[0] != '+';
    BeforeIs(core, '-', cut);
    assert CoreOf(s) == core;
    JoinUndoesSplit(core, '.');
    if texts: seq<string> :| texts != [] && AllNumbers(texts) && core == Join(texts, '.') {
      forall t <- texts ensures Without(t, '.') { NumberIsPlain(t, '.'); }
      SplitUndoesJoin(texts, '.');
    }
  }

  /** What is refused is named without its build metadata. */
  lemma RefusedIsNamed(text: string, build: string)
    requires Trimmed(text + build) && text + build != [] && Without(text, '+') && (build == [] || build[0] == '+')
    ensures ParseVersion(text + build).Raised? ==> ParseVersion(text + build).why == "unreadable version: " + text
  {
    hide Strip, Split, NumbersOf, PartsOf, Before;
    var all := text + build;
    assert [] + all + [] == all;
    StripPadded([], all, []);
    BeforeIs(text, '+', build);
    assert all[..|text|] == text;
  }

  lemma {:induction false} BeforePast(a: string, b: string, c: char)
    requires Without(a, c)
    ensures Before(a + b, c) == |a| + Before(b, c)
  {
    if a == [] {
      assert a + b == b;
    } else {
      assert (a + b)[0] == a[0] && (a + b)[1..] == a[1..] + b;
      BeforePast(a[1..], b, c);
    }
  }
}
