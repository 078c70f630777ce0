/** The guard over one graphical surface: its catalogue against its calls. */
module ReleaseGuard {
  import opened Text
  import opened Templates
  import opened TextRuntime

  datatype Entry = Entry(key: string, texts: seq<string>)

  /** What the second argument of a call supplies: nothing, something the guard
      cannot read, or these names. */
  datatype Given = NoValues | Unread | Names(names: set<string>)

  datatype Kind = WholeKey | KeyPrefix

  datatype Call = Call(kind: Kind, key: string, given: Given)

  datatype Fail =
    | NotThreeTexts(key: string)
    | OtherTemplate(key: string, lang: nat)
    | FieldsDiffer(key: string)
    | WithoutValues(key: string, need: set<string>)
    | LeavesOut(key: string, left: set<string>)
    | MayArriveBare(key: string, need: set<string>)
    | Unproven(key: string, need: set<string>)

  type FieldsOf = map<string, set<string>>

  predicate Blank(s: string) { forall i :: 0 <= i < |s| ==> IsSpace(s[i]) }

  predicate ThreeTexts(e: Entry) {
    |e.texts| == 3 && !Blank(e.texts[0]) && !Blank(e.texts[1]) && !Blank(e.texts[2])
  }

  predicate GoodEntry(e: Entry) {
    && ThreeTexts(e)
    && !BadTemplate(e.texts[0]) && !BadTemplate(e.texts[1]) && !BadTemplate(e.texts[2])
    && Fields(e.texts[0]) == Fields(e.texts[1]) == Fields(e.texts[2])
  }

  predicate AllGood(entries: seq<Entry>) {
    forall e :: e in entries ==> GoodEntry(e)
  }

  predicate DistinctKeys(entries: seq<Entry>) {
    forall i, j :: 0 <= i < j < |entries| ==> entries[i].key != entries[j].key
  }

  /** The fields of every key whose entry has its three texts. */
  function Table(entries: seq<Entry>): (fields: FieldsOf)
    requires DistinctKeys(entries)
    ensures forall e :: e in entries && ThreeTexts(e) ==> e.key in fields && fields[e.key] == Fields(e.texts[0])
    ensures forall k :: k in fields ==> exists e :: e in entries && e.key == k && ThreeTexts(e)
  {
    if entries == [] then map[]
    else
      var last := entries[|entries| - 1];
      var before := Table(entries[..|entries| - 1]);
      if ThreeTexts(last) then before[last.key := Fields(last.texts[0])] else before
  }

  predicate Reaches(c: Call, k: string) {
    match c.kind
    case WholeKey => c.key == k
    case KeyPrefix => StartsWith(k, c.key)
  }

  /** This call is refused on account of this key. */
  predicate BadCall(c: Call, k: string, need: set<string>) {
    && Reaches(c, k) && need != {}
    && ((c.given.NoValues? && c.kind == WholeKey) || (c.given.Names? && !(need <= c.given.names)))
  }

  predicate Fills(c: Call, k: string, need: set<string>) {
    Reaches(c, k) && need != {} && c.given.Names? && need <= c.given.names
  }

  predicate Waits(c: Call, k: string, need: set<string>) {
    Reaches(c, k) && need != {} && c.given.NoValues? && c.kind == KeyPrefix
  }

  predicate CallsAreGood(fields: FieldsOf, calls: seq<Call>) {
    forall c, k :: c in calls && k in fields ==> !BadCall(c, k, fields[k])
  }

  function FilledKeys(fields: FieldsOf, calls: seq<Call>): set<string> {
    set k | k in fields && exists c :: c in calls && Fills(c, k, fields[k])
  }

  function WaitingKeys(fields: FieldsOf, calls: seq<Call>): set<string> {
    set k | k in fields && exists c :: c in calls && Waits(c, k, fields[k])
  }

  /** What the guard promises when it says nothing. `mentioned` are the keys
      quoted somewhere in the callers, `declared` those listed as filled by a
      caller no scanner can follow. */
  predicate Passes(entries: seq<Entry>, calls: seq<Call>, mentioned: set<string>, declared: set<string>)
    requires DistinctKeys(entries)
  {
    var fields := Table(entries);
    && AllGood(entries)
    && CallsAreGood(fields, calls)
    && WaitingKeys(fields, calls) <= FilledKeys(fields, calls)
    && (forall k :: k in fields && fields[k] != {} && k !in FilledKeys(fields, calls) && k !in declared ==> k !in mentioned)
  }

  // ── Which complaints there are

  /** A complaint about the texts of an entry. */
  predicate TextFail(e: Entry, f: Fail) {
    match f
    case NotThreeTexts(k) => k == e.key && !ThreeTexts(e)
    case OtherTemplate(k, lang) => k == e.key && ThreeTexts(e) && lang < 3 && BadTemplate(e.texts[lang])
    case FieldsDiffer(k) =>
      k == e.key && ThreeTexts(e) && !(Fields(e.texts[0]) == Fields(e.texts[1]) == Fields(e.texts[2]))
    case _ => false
  }

  /** A complaint about a call, of one key that it reaches. */
  predicate CallFail(fields: FieldsOf, c: Call, f: Fail) {
    match f
    case WithoutValues(k, need) => k in fields && fields[k] == need && BadCall(c, k, need) && c.given.NoValues?
    case LeavesOut(k, left) =>
      k in fields && BadCall(c, k, fields[k]) && c.given.Names? && left == fields[k] - c.given.names
    case _ => false
  }

  /** A complaint about a key that waits in vain. */
  predicate WaitFail(fields: FieldsOf, waiting: set<string>, filled: set<string>, f: Fail) {
    f.MayArriveBare? && f.key in waiting && f.key in fields && f.key !in filled && f.need == fields[f.key]
  }

  /** A complaint about a key that nothing is known to fill. */
  predicate ProofFail(fields: FieldsOf, filled: set<string>, mentioned: set<string>, declared: set<string>, f: Fail) {
    && f.Unproven? && f.key in fields && f.need == fields[f.key] && f.need != {}
    && f.key !in filled && f.key !in declared && f.key in mentioned
  }

  method CheckTexts(e: Entry) returns (fails: seq<Fail>)
    ensures forall f :: f in fails <==> TextFail(e, f)
    ensures fails == [] <==> GoodEntry(e)
  {
    fails := [];
    if |e.texts| != 3 || Blank(e.texts[0]) || Blank(e.texts[1]) || Blank(e.texts[2]) {
      fails := [NotThreeTexts(e.key)];
      assert TextFail(e, fails[0]);
      return;
    }
    var lang := 0;
    while lang < 3
      invariant 0 <= lang <= 3
      invariant fails == [] <==> forall l :: 0 <= l < lang ==> !BadTemplate(e.texts[l])
      invariant forall f :: f in fails <==> f.OtherTemplate? && TextFail(e, f) && f.lang < lang
    {
      if BadTemplate(e.texts[lang]) {
        fails := fails + [OtherTemplate(e.key, lang)];
      }
      lang := lang + 1;
    }
    if !(Fields(e.texts[0]) == Fields(e.texts[1]) == Fields(e.texts[2])) {
      fails := fails + [FieldsDiffer(e.key)];
    }
  }

  method CheckEntries(entries: seq<Entry>) returns (fails: seq<Fail>, fields: FieldsOf)
    requires DistinctKeys(entries)
    ensures forall f :: f in fails <==> exists e <- entries :: TextFail(e, f)
    ensures fails == [] <==> AllGood(entries)
    ensures fields == Table(entries)
  {
    hide TextFail, BadTemplate, Fields, Blank, Table, AllGood, GoodEntry;
    NoEntries();
    fails, fields := [], map[];
    var i := 0;
    while i < |entries|
      invariant 0 <= i <= |entries|
      invariant fails == [] <==> AllGood(entries[..i])
      invariant forall f :: f in fails <==> exists e <- entries[..i] :: TextFail(e, f)
      invariant fields == Table(entries[..i])
    {
      var e := entries[i];
      assert entries[..i + 1] == entries[..i] + [e];
      OneMoreEntry(entries[..i], e);
      var more := CheckTexts(e);
      MoreTextFails(entries[..i], e, fails, more);
      fails := fails + more;
      if |e.texts| == 3 && !Blank(e.texts[0]) && !Blank(e.texts[1]) && !Blank(e.texts[2]) {
        fields := fields[e.key := Fields(e.texts[0])];
      }
      i := i + 1;
    }
    assert entries[..|entries|] == entries;
  }

  lemma NoEntries()
    ensures AllGood([]) && Table([]) == map[]
  {
  }

  lemma MoreTextFails(entries: seq<Entry>, e: Entry, fails: seq<Fail>, more: seq<Fail>)
    requires forall f :: f in fails <==> exists d <- entries :: TextFail(d, f)
    requires forall f :: f in more <==> TextFail(e, f)
    ensures forall f :: f in fails + more <==> exists d <- entries + [e] :: TextFail(d, f)
  {
    hide TextFail;
    assert e in entries + [e] && forall d :: d in entries + [e] <==> d in entries || d == e;
  }

  lemma OneMoreEntry(entries: seq<Entry>, e: Entry)
    requires DistinctKeys(entries + [e])
    ensures AllGood(entries + [e]) <==> AllGood(entries) && GoodEntry(e)
    ensures DistinctKeys(entries)
    ensures Table(entries + [e]) == if ThreeTexts(e) then Table(entries)[e.key := Fields(e.texts[0])] else Table(entries)
  {
    hide GoodEntry, ThreeTexts, Fields;
    var more := entries + [e];
    assert more[..|more| - 1] == entries;
    forall i, j | 0 <= i < j < |entries| ensures entries[i].key != entries[j].key {
      assert more[i].key != more[j].key;
    }
    assert e in more;
    assert forall d :: d in more <==> d in entries || d == e;
  }

  /** One call against every key it reaches. */
  method CheckCall(fields: FieldsOf, c: Call) returns (fails: seq<Fail>, filled: set<string>, waiting: set<string>)
    ensures forall f :: f in fails <==> CallFail(fields, c, f)
    ensures fails == [] <==> forall k :: k in fields ==> !BadCall(c, k, fields[k])
    ensures filled == set k | k in fields && Fills(c, k, fields[k])
    ensures waiting == set k | k in fields && Waits(c, k, fields[k])
  {
    fails, filled, waiting := [], {}, {};
    var todo := fields.Keys;
    while todo != {}
      invariant todo <= fields.Keys
      invariant fails == [] <==> forall k :: k in fields && k !in todo ==> !BadCall(c, k, fields[k])
      invariant forall f :: f in fails <==> CallFail(fields, c, f) && f.key !in todo
      invariant filled == set k | k in fields && k !in todo && Fills(c, k, fields[k])
      invariant waiting == set k | k in fields && k !in todo && Waits(c, k, fields[k])
      decreases todo
    {
      var k :| k in todo;
      todo := todo - {k};
      if !Reaches(c, k) { continue; }
      var need := fields[k];
      if need == {} { continue; }
      match c.given {
        case NoValues =>
          if c.kind == KeyPrefix {
            waiting := waiting + {k};
          } else {
            assert BadCall(c, k, need);
            fails := fails + [WithoutValues(k, need)];
          }
        case Unread =>
        case Names(names) =>
          NothingLeft(need, names);
          if need - names != {} {
            assert BadCall(c, k, need);
            fails := fails + [LeavesOut(k, need - names)];
          } else {
            filled := filled + {k};
          }
      }
    }
  }

  lemma NothingLeft(need: set<string>, names: set<string>)
    ensures need - names == {} <==> need <= names
  {
    if need - names == {} {
      forall x | x in need ensures x in names { assert x !in need - names; }
    }
  }

  method CheckCalls(fields: FieldsOf, calls: seq<Call>) returns (fails: seq<Fail>, filled: set<string>, waiting: set<string>)
    ensures forall f :: f in fails <==> exists c <- calls :: CallFail(fields, c, f)
    ensures fails == [] <==> CallsAreGood(fields, calls)
    ensures filled == FilledKeys(fields, calls)
    ensures waiting == WaitingKeys(fields, calls)
  {
    hide CallFail;
    fails, filled, waiting := [], {}, {};
    var i := 0;
    while i < |calls|
      invariant 0 <= i <= |calls|
      invariant fails == [] <==> CallsAreGood(fields, calls[..i])
      invariant forall f :: f in fails <==> exists c <- calls[..i] :: CallFail(fields, c, f)
      invariant filled == FilledKeys(fields, calls[..i])
      invariant waiting == WaitingKeys(fields, calls[..i])
    {
      var f, done, w := CheckCall(fields, calls[i]);
      assert calls[..i + 1] == calls[..i] + [calls[i]];
      OneMoreCall(fields, calls[..i], calls[i]);
      MoreCallFails(fields, calls[..i], calls[i], fails, f);
      fails, filled, waiting := fails + f, filled + done, waiting + w;
      i := i + 1;
    }
    assert calls[..|calls|] == calls;
  }

  lemma MoreCallFails(fields: FieldsOf, calls: seq<Call>, c: Call, fails: seq<Fail>, more: seq<Fail>)
    requires forall f :: f in fails <==> exists d <- calls :: CallFail(fields, d, f)
    requires forall f :: f in more <==> CallFail(fields, c, f)
    ensures forall f :: f in fails + more <==> exists d <- calls + [c] :: CallFail(fields, d, f)
  {
    hide CallFail;
    assert c in calls + [c] && forall d :: d in calls + [c] <==> d in calls || d == c;
  }

  lemma OneMoreCall(fields: FieldsOf, calls: seq<Call>, c: Call)
    ensures CallsAreGood(fields, calls + [c]) <==>
            CallsAreGood(fields, calls) && forall k :: k in fields ==> !BadCall(c, k, fields[k])
    ensures FilledKeys(fields, calls + [c]) == FilledKeys(fields, calls) + set k | k in fields && Fills(c, k, fields[k])
    ensures WaitingKeys(fields, calls + [c]) == WaitingKeys(fields, calls) + set k | k in fields && Waits(c, k, fields[k])
  {
    hide BadCall, Fills, Waits;
    assert c in calls + [c];
    forall d | d in calls ensures d in calls + [c] {}
    assert forall d :: d in calls + [c] <==> d in calls || d == c;
  }

  /** Everything the guard has to say of one surface. */
  predicate Complaint(entries: seq<Entry>, calls: seq<Call>, mentioned: set<string>, declared: set<string>, f: Fail)
    requires DistinctKeys(entries)
  {
    var fields := Table(entries);
    || (exists e <- entries :: TextFail(e, f))
    || (exists c <- calls :: CallFail(fields, c, f))
    || WaitFail(fields, WaitingKeys(fields, calls), FilledKeys(fields, calls), f)
    || ProofFail(fields, FilledKeys(fields, calls), mentioned, declared, f)
  }

  /** The whole check of one surface: it says all there is to complain of and nothing
      else, and so nothing exactly when the surface passes. */
  method Check(entries: seq<Entry>, calls: seq<Call>, mentioned: set<string>, declared: set<string>) returns (fails: seq<Fail>)
    requires DistinctKeys(entries)
    ensures forall f :: f in fails <==> Complaint(entries, calls, mentioned, declared, f)
    ensures fails == [] <==> Passes(entries, calls, mentioned, declared)
  {
    hide TextFail, CallFail, WaitFail, ProofFail, Table, FilledKeys, WaitingKeys;
    var fields, filled, waiting, more;
    fails, fields := CheckEntries(entries);
    more, filled, waiting := CheckCalls(fields, calls);
    fails := fails + more;
    WaitingAreKeys(fields, calls);
    more := CheckWaiting(fields, waiting, filled);
    fails := fails + more;
    more := CheckUnproven(fields, filled, mentioned, declared);
    fails := fails + more;
  }

  lemma WaitingAreKeys(fields: FieldsOf, calls: seq<Call>)
    ensures WaitingKeys(fields, calls) <= fields.Keys
  {
  }

  method CheckWaiting(fields: FieldsOf, waiting: set<string>, filled: set<string>) returns (fails: seq<Fail>)
    requires waiting <= fields.Keys
    ensures forall f :: f in fails <==> WaitFail(fields, waiting, filled, f)
    ensures fails == [] <==> waiting <= filled
  {
    fails := [];
    var todo := waiting;
    while todo != {}
      invariant todo <= waiting
      invariant forall f :: f in fails <==> WaitFail(fields, waiting, filled, f) && f.key !in todo
      invariant fails == [] <==> waiting - todo <= filled
      decreases todo
    {
      var k :| k in todo;
      todo := todo - {k};
      if k !in filled {
        fails := fails + [MayArriveBare(k, fields[k])];
      }
    }
  }

  method CheckUnproven(fields: FieldsOf, filled: set<string>, mentioned: set<string>, declared: set<string>) returns (fails: seq<Fail>)
    ensures forall f :: f in fails <==> ProofFail(fields, filled, mentioned, declared, f)
    ensures fails == [] <==>
            forall k :: k in fields && fields[k] != {} && k !in filled && k !in declared ==> k !in mentioned
  {
    fails := [];
    var todo := fields.Keys;
    while todo != {}
      invariant todo <= fields.Keys
      invariant forall f :: f in fails <==> ProofFail(fields, filled, mentioned, declared, f) && f.key !in todo
      invariant fails == [] <==>
                forall k :: k in fields && k !in todo && fields[k] != {} && k !in filled && k !in declared ==> k !in mentioned
      decreases todo
    {
      var k :| k in todo;
      todo := todo - {k};
      if fields[k] == {} || k in filled || k in declared { continue; }
      if k in mentioned {
        fails := fails + [Unproven(k, fields[k])];
      }
    }
  }

  /** There is something to complain of exactly when the surface does not pass. */
  lemma ComplaintsAreFailures(entries: seq<Entry>, calls: seq<Call>, mentioned: set<string>, declared: set<string>)
    requires DistinctKeys(entries)
    ensures Passes(entries, calls, mentioned, declared) <==> forall f: Fail :: !Complaint(entries, calls, mentioned, declared, f)
  {
    hide Table, TextFail, CallFail, WaitFail, ProofFail, GoodEntry, BadCall, FilledKeys, WaitingKeys;
    var fields := Table(entries);
    var (filled, waiting) := (FilledKeys(fields, calls), WaitingKeys(fields, calls));
    WaitingAreKeys(fields, calls);
    forall e <- entries ensures GoodEntry(e) <==> forall f: Fail :: !TextFail(e, f) { GoodHasNoFail(e); }
    forall c <- calls
      ensures (forall k <- fields :: !BadCall(c, k, fields[k])) <==> forall f: Fail :: !CallFail(fields, c, f)
    {
      GoodCallHasNoFail(fields, c);
    }
    WaitsOrNot(fields, waiting, filled);
    ProvedOrNot(fields, filled, mentioned, declared);
    if Passes(entries, calls, mentioned, declared) {
      forall f: Fail ensures !Complaint(entries, calls, mentioned, declared, f) { }
    }
    if forall f: Fail :: !Complaint(entries, calls, mentioned, declared, f) {
      forall e <- entries ensures GoodEntry(e) {
        forall f: Fail ensures !TextFail(e, f) { assert !Complaint(entries, calls, mentioned, declared, f); }
      }
      forall c, k | c in calls && k in fields ensures !BadCall(c, k, fields[k]) {
        forall f: Fail ensures !CallFail(fields, c, f) { assert !Complaint(entries, calls, mentioned, declared, f); }
      }
      forall f: Fail ensures !WaitFail(fields, waiting, filled, f) && !ProofFail(fields, filled, mentioned, declared, f) {
        assert !Complaint(entries, calls, mentioned, declared, f);
      }
    }
  }

  lemma GoodHasNoFail(e: Entry)
    ensures GoodEntry(e) <==> forall f: Fail :: !TextFail(e, f)
  {
    hide BadTemplate, Fields, Blank;
    if forall f: Fail :: !TextFail(e, f) {
      assert !TextFail(e, NotThreeTexts(e.key)) && !TextFail(e, FieldsDiffer(e.key));
      assert !TextFail(e, OtherTemplate(e.key, 0)) && !TextFail(e, OtherTemplate(e.key, 1)) && !TextFail(e, OtherTemplate(e.key, 2));
    }
  }

  lemma GoodCallHasNoFail(fields: FieldsOf, c: Call)
    ensures (forall k <- fields :: !BadCall(c, k, fields[k])) <==> forall f: Fail :: !CallFail(fields, c, f)
  {
    hide Reaches;
    if forall f: Fail :: !CallFail(fields, c, f) {
      forall k <- fields ensures !BadCall(c, k, fields[k]) {
        assert !CallFail(fields, c, WithoutValues(k, fields[k]));
        if c.given.Names? { assert !CallFail(fields, c, LeavesOut(k, fields[k] - c.given.names)); }
      }
    }
  }

  lemma WaitsOrNot(fields: FieldsOf, waiting: set<string>, filled: set<string>)
    requires waiting <= fields.Keys
    ensures waiting <= filled <==> forall f: Fail :: !WaitFail(fields, waiting, filled, f)
  {
    if forall f: Fail :: !WaitFail(fields, waiting, filled, f) {
      forall k | k in waiting ensures k in filled { assert !WaitFail(fields, waiting, filled, MayArriveBare(k, fields[k])); }
    }
  }

  lemma ProvedOrNot(fields: FieldsOf, filled: set<string>, mentioned: set<string>, declared: set<string>)
    ensures (forall k :: k in fields && fields[k] != {} && k !in filled && k !in declared ==> k !in mentioned)
       <==> forall f: Fail :: !ProofFail(fields, filled, mentioned, declared, f)
  {
    if forall f: Fail :: !ProofFail(fields, filled, mentioned, declared, f) {
      forall k | k in fields && fields[k] != {} && k !in filled && k !in declared ensures k !in mentioned {
        assert !ProofFail(fields, filled, mentioned, declared, Unproven(k, fields[k]));
      }
    }
  }

  // ── What silence means, entry by entry

  /** A call reaches the key and fills it with values the guard can read. */
  predicate ProvedBy(calls: seq<Call>, key: string, need: set<string>) {
    exists c <- calls ::
      (if c.kind.WholeKey? then c.key == key else |c.key| <= |key| && key[..|c.key|] == c.key)
      && c.given.Names? && need <= c.given.names
  }

  predicate GoodTexts(e: Entry) {
    |e.texts| == 3 && forall s <- e.texts ::
      (exists i :: 0 <= i < |s| && !IsSpace(s[i])) && !BadTemplate(s) && Fields(s) == Fields(e.texts[0])
  }

  /** The guard is silent exactly when every entry has three texts with something in
      them, well formed and with the same fields; and, of each key with fields, every
      call for it hands over values for all of them or some that cannot be read; a
      call by a prefix of it hands over all, or some that cannot be read, or none,
      and then some other call fills it; and if no call is known to fill it, it is
      declared or quoted nowhere. */
  lemma SilentExactly(entries: seq<Entry>, calls: seq<Call>, mentioned: set<string>, declared: set<string>)
    requires DistinctKeys(entries)
    ensures Passes(entries, calls, mentioned, declared) <==>
      && (forall e <- entries :: GoodTexts(e))
      && (forall e <- entries :: Fields(e.texts[0]) != {} ==> Cared(calls, mentioned, declared, e.key, Fields(e.texts[0])))
  {
    hide Fields, BadTemplate, Cared;
    forall e <- entries ensures GoodEntry(e) <==> GoodTexts(e) { GoodIsGoodTexts(e); }
    if AllGood(entries) {
      hide GoodEntry, GoodTexts, Table, ThreeTexts;
      var fields := Table(entries);
      TableIsTheEntries(entries);
      forall k | k in fields && fields[k] != {}
        ensures Cared(calls, mentioned, declared, k, fields[k]) <==> KeyPasses(fields, calls, mentioned, declared, k)
      {
        CaredMeans(fields, calls, mentioned, declared, k);
      }
      PassesByKey(entries, calls, mentioned, declared);
    }
  }

  /** What the calls and the callers do for a key with fields. */
  predicate Cared(calls: seq<Call>, mentioned: set<string>, declared: set<string>, key: string, need: set<string>) {
    && (forall c <- calls :: c.kind.WholeKey? && c.key == key ==>
          c.given.Unread? || (c.given.Names? && need <= c.given.names))
    && (forall c <- calls :: c.kind.KeyPrefix? && |c.key| <= |key| && key[..|c.key|] == c.key ==>
          c.given.Unread? || (c.given.Names? && need <= c.given.names) || (c.given.NoValues? && ProvedBy(calls, key, need)))
    && (ProvedBy(calls, key, need) || key in declared || key !in mentioned)
  }

  lemma GoodIsGoodTexts(e: Entry)
    ensures GoodEntry(e) <==> GoodTexts(e)
  {
    hide Fields, BadTemplate;
    if |e.texts| == 3 {
      assert forall s :: s in e.texts <==> s == e.texts[0] || s == e.texts[1] || s == e.texts[2];
    }
  }

  lemma TableIsTheEntries(entries: seq<Entry>)
    requires DistinctKeys(entries) && AllGood(entries)
    ensures forall e <- entries :: |e.texts| == 3 && e.key in Table(entries) && Table(entries)[e.key] == Fields(e.texts[0])
    ensures forall k <- Table(entries) :: exists e <- entries :: e.key == k && |e.texts| == 3 && Table(entries)[k] == Fields(e.texts[0])
  {
    hide Fields, BadTemplate, Table;
    forall k <- Table(entries) ensures exists e <- entries :: e.key == k && |e.texts| == 3 && Table(entries)[k] == Fields(e.texts[0]) {
      var e :| e in entries && e.key == k && ThreeTexts(e);
    }
  }

  lemma CaredMeans(fields: FieldsOf, calls: seq<Call>, mentioned: set<string>, declared: set<string>, k: string)
    requires k in fields && fields[k] != {}
    ensures Cared(calls, mentioned, declared, k, fields[k]) <==> KeyPasses(fields, calls, mentioned, declared, k)
  {
    var need := fields[k];
    assert k in FilledKeys(fields, calls) <==> ProvedBy(calls, k, need) by {
      forall c <- calls
        ensures Fills(c, k, need) <==>
                (if c.kind.WholeKey? then c.key == k else |c.key| <= |k| && k[..|c.key|] == c.key)
                && c.given.Names? && need <= c.given.names
      {
      }
    }
    hide ProvedBy, FilledKeys;
    forall c <- calls
      ensures Waits(c, k, need) <==> c.kind.KeyPrefix? && |c.key| <= |k| && k[..|c.key|] == c.key && c.given.NoValues?
    {
    }
    assert k in WaitingKeys(fields, calls) <==> exists c <- calls :: Waits(c, k, need);
  }

  predicate KeyPasses(fields: FieldsOf, calls: seq<Call>, mentioned: set<string>, declared: set<string>, k: string)
    requires k in fields
  {
    && (forall c <- calls :: !BadCall(c, k, fields[k]))
    && (k in WaitingKeys(fields, calls) ==> k in FilledKeys(fields, calls))
    && (k !in FilledKeys(fields, calls) && k !in declared ==> k !in mentioned)
  }

  predicate AllKeysPass(fields: FieldsOf, calls: seq<Call>, mentioned: set<string>, declared: set<string>) {
    forall k <- fields :: fields[k] != {} ==> KeyPasses(fields, calls, mentioned, declared, k)
  }

  lemma PassesByKey(entries: seq<Entry>, calls: seq<Call>, mentioned: set<string>, declared: set<string>)
    requires DistinctKeys(entries) && AllGood(entries)
    ensures var fields := Table(entries);
      Passes(entries, calls, mentioned, declared) <==>
      AllKeysPass(fields, calls, mentioned, declared)
  {
    hide Table, AllGood, BadCall, FilledKeys, WaitingKeys;
    var fields := Table(entries);
    NothingIsBad(fields, calls);
    if AllKeysPass(fields, calls, mentioned, declared) {
      assert CallsAreGood(fields, calls);
      assert WaitingKeys(fields, calls) <= FilledKeys(fields, calls);
      assert Passes(entries, calls, mentioned, declared);
    }
  }

  lemma NothingIsBad(fields: FieldsOf, calls: seq<Call>)
    ensures forall c: Call, k <- fields :: fields[k] == {} ==> !BadCall(c, k, fields[k])
    ensures forall k <- WaitingKeys(fields, calls) :: k in fields && fields[k] != {}
  {
    hide Reaches;
  }

  // ── What a silent guard is worth on the screen

  /** What a call the guard can read hands to `t` has at least the names it read. */
  ghost predicate CallSupplies(c: Call, names: seq<string>, v: Values) {
    && !c.given.Unread?
    && Supplies(names, v)
    && (c.given.Names? ==> c.given.names <= v.Keys)
  }

  lemma FieldsAreSupplied(entries: seq<Entry>, calls: seq<Call>, mentioned: set<string>, declared: set<string>,
                          e: Entry, c: Call, lang: nat, names: seq<string>, v: Values)
    requires DistinctKeys(entries) && Passes(entries, calls, mentioned, declared)
    requires e in entries && c in calls && c.kind == WholeKey && c.key == e.key && lang < 3
    requires CallSupplies(c, names, v)
    ensures |e.texts| == 3 && !BadTemplate(e.texts[lang]) && Fields(e.texts[lang]) <= v.Keys
  {
    hide BadTemplate, Fields, Table;
    assert GoodEntry(e);
    var fields := Table(entries);
    assert e.key in fields && fields[e.key] == Fields(e.texts[0]) == Fields(e.texts[lang]);
    assert !BadCall(c, e.key, fields[e.key]);
  }
}
