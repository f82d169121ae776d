/** What the chain relies on about `canonical_json`: its output is ASCII, a reader
    undoes it, and two values print alike exactly when they are the same value. */
module Canonical {
  import opened Base
  import opened JsonText
  import opened Json
  import Text

  // ---- a reader undoes the printer ---------------------------------------------

  /** Reading a rendered value gives it back, whatever follows it. */
  lemma {:induction false} RenderRoundTrip(v: Json, rest: string)
    requires NoDigitFirst(rest)
    ensures ParseValue(Render(v) + rest) == Good(v, rest)
    decreases v, 1
  {
    match v
    case Int(n) => IntValueRoundTrip(n, rest);
    case Str(t) => StrValueRoundTrip(t, rest);
    case Arr(items) =>
      if items != [] { ItemsRoundTrip(items, rest); }
      ArrValueRoundTrip(items, rest);
    case Obj(ms) =>
      if ms != [] { MembersRoundTrip(ms, rest); }
      ObjValueRoundTrip(ms, rest);
    case _ => WordRoundTrip(v, rest);
  }

  lemma WordRoundTrip(v: Json, rest: string)
    requires v.Null? || v.Bool?
    ensures ParseValue(Render(v) + rest) == Good(v, rest)
  {
    var s := Render(v) + rest;
    assert s[..|Render(v)|] == Render(v) && s[|Render(v)|..] == rest;
  }

  lemma IntValueRoundTrip(n: int, rest: string)
    requires NoDigitFirst(rest)
    ensures ParseValue(Decimal(n) + rest) == Good(Int(n), rest)
  {
    IntRoundTrip(n, rest);
    DecimalFirst(n);
    assert (Decimal(n) + rest)[0] == Decimal(n)[0];
  }

  lemma StrValueRoundTrip(t: string, rest: string)
    ensures ParseValue(Quote(t) + rest) == Good(Str(t), rest)
  {
    QuotedRoundTrip(t, rest);
  }

  lemma QuotedRoundTrip(t: string, rest: string)
    ensures var s := Quote(t) + rest;
            s != "" && s[0] == '"' && ParseString(s[1..]) == Good(t, rest)
  {
    StringRoundTrip(t, rest);
    Opened('"', Escape(t), "\"", rest);
  }

  /** A bracketed text without its first character. */
  lemma Opened(open: char, body: string, close: string, rest: string)
    ensures var s := [open] + body + close + rest;
            s[0] == open && s[1..] == body + close + rest
  {}

  lemma Grouped(a: string, b: string, c: string)
    ensures a + b + c == a + (b + c) && (b + c)[|b|..] == c
  {}

  lemma Joined(a: string, sep: string, b: string, rest: string)
    ensures a + sep + b + rest == a + (sep + (b + rest))
  {}

  lemma Closed(a: string, sep: string, b: string, close: string, rest: string)
    ensures a + sep + b + close + rest == a + (sep + (b + close + rest))
  {}

  lemma ArrValueRoundTrip(items: seq<Json>, rest: string)
    requires items != [] ==> ParseItems(RenderItems(items) + "]" + rest) == Good(items, rest)
    ensures ParseValue("[" + RenderItems(items) + "]" + rest) == Good(Arr(items), rest)
  {
    ItemsFirst(items);
    ArrTextRoundTrip(items, RenderItems(items), rest);
  }

  lemma ArrTextRoundTrip(items: seq<Json>, body: string, rest: string)
    requires if items == [] then body == "" else body != "" && body[0] != ']'
    requires items != [] ==> ParseItems(body + "]" + rest) == Good(items, rest)
    ensures ParseValue("[" + body + "]" + rest) == Good(Arr(items), rest)
  {
    var s := "[" + body + "]" + rest;
    Opened('[', body, "]", rest);
    if items == [] { assert s[1] == ']' && s[2..] == rest; } else { assert s[1] == body[0]; }
  }

  lemma ObjValueRoundTrip(ms: seq<Member>, rest: string)
    requires ms != [] ==> ParseMembers(RenderMembers(ms) + "}" + rest) == Good(ms, rest)
    ensures ParseValue("{" + RenderMembers(ms) + "}" + rest) == Good(Obj(ms), rest)
  {
    MembersFirst(ms);
    ObjTextRoundTrip(ms, RenderMembers(ms), rest);
  }

  lemma ObjTextRoundTrip(ms: seq<Member>, body: string, rest: string)
    requires if ms == [] then body == "" else body != "" && body[0] == '"'
    requires ms != [] ==> ParseMembers(body + "}" + rest) == Good(ms, rest)
    ensures ParseValue("{" + body + "}" + rest) == Good(Obj(ms), rest)
  {
    var s := "{" + body + "}" + rest;
    Opened('{', body, "}", rest);
    if ms == [] { assert s[1] == '}' && s[2..] == rest; } else { assert s[1] == body[0]; }
  }

  lemma MembersFirst(ms: seq<Member>)
    ensures if ms == [] then RenderMembers(ms) == "" else RenderMembers(ms) != "" && RenderMembers(ms)[0] == '"'
  {
    if ms != [] {
      assert RenderMember(ms[0])[0] == Quote(ms[0].key)[0] == '"';
    }
  }

  lemma {:induction false} ItemsRoundTrip(items: seq<Json>, rest: string)
    requires items != []
    ensures ParseItems(RenderItems(items) + "]" + rest) == Good(items, rest)
    decreases items, 0
  {
    if |items| == 1 {
      assert items == [items[0]];
      RenderRoundTrip(items[0], "]" + rest);
      LastItem(items[0], Render(items[0]), rest);
    } else {
      assert items == [items[0]] + items[1..];
      var next := RenderItems(items[1..]);
      ItemsRoundTrip(items[1..], rest);
      RenderRoundTrip(items[0], "," + (next + "]" + rest));
      NextItem(items[0], Render(items[0]), items[1..], next, rest);
    }
  }

  lemma LastItem(item: Json, text: string, rest: string)
    requires ParseValue(text + ("]" + rest)) == Good(item, "]" + rest)
    ensures ParseItems(text + "]" + rest) == Good([item], rest)
  {
    Grouped(text, "]", rest);
  }

  lemma NextItem(item: Json, text: string, tail: seq<Json>, next: string, rest: string)
    requires ParseValue(text + ("," + (next + "]" + rest))) == Good(item, "," + (next + "]" + rest))
    requires ParseItems(next + "]" + rest) == Good(tail, rest)
    ensures ParseItems(text + "," + next + "]" + rest) == Good([item] + tail, rest)
  {
    Closed(text, ",", next, "]", rest);
    assert ("," + (next + "]" + rest))[1..] == next + "]" + rest;
  }

  lemma {:induction false} MemberRoundTrip(m: Member, rest: string)
    requires NoDigitFirst(rest)
    ensures ParseMember(RenderMember(m) + rest) == Good(m, rest)
    decreases m, 0
  {
    RenderRoundTrip(m.value, rest);
    MemberText(m, Quote(m.key), Render(m.value), rest);
  }

  lemma MemberText(m: Member, key: string, value: string, rest: string)
    requires key == Quote(m.key) && ParseValue(value + rest) == Good(m.value, rest)
    ensures ParseMember(key + ":" + value + rest) == Good(m, rest)
  {
    QuotedRoundTrip(m.key, ":" + (value + rest));
    Joined(key, ":", value, rest);
    assert (":" + (value + rest))[1..] == value + rest;
  }

  lemma {:induction false} MembersRoundTrip(ms: seq<Member>, rest: string)
    requires ms != []
    ensures ParseMembers(RenderMembers(ms) + "}" + rest) == Good(ms, rest)
    decreases ms, 0
  {
    if |ms| == 1 {
      assert ms == [ms[0]];
      MemberRoundTrip(ms[0], "}" + rest);
      LastMember(ms[0], RenderMember(ms[0]), rest);
    } else {
      assert ms == [ms[0]] + ms[1..];
      var next := RenderMembers(ms[1..]);
      MembersRoundTrip(ms[1..], rest);
      MemberRoundTrip(ms[0], "," + (next + "}" + rest));
      NextMember(ms[0], RenderMember(ms[0]), ms[1..], next, rest);
    }
  }

  lemma LastMember(m: Member, text: string, rest: string)
    requires ParseMember(text + ("}" + rest)) == Good(m, "}" + rest)
    ensures ParseMembers(text + "}" + rest) == Good([m], rest)
  {
    Grouped(text, "}", rest);
  }

  lemma NextMember(m: Member, text: string, tail: seq<Member>, next: string, rest: string)
    requires ParseMember(text + ("," + (next + "}" + rest))) == Good(m, "," + (next + "}" + rest))
    requires ParseMembers(next + "}" + rest) == Good(tail, rest)
    ensures ParseMembers(text + "," + next + "}" + rest) == Good([m] + tail, rest)
  {
    Closed(text, ",", next, "}", rest);
    assert ("," + (next + "}" + rest))[1..] == next + "}" + rest;
  }

  lemma DecimalFirst(n: int)
    ensures Decimal(n) != "" && (Decimal(n)[0] == '-' || IsDigit(Decimal(n)[0]))
  {
    DigitsValue(if n < 0 then -n else n);
  }

  /** No value starts like a closing bracket. */
  lemma {:induction false} ItemsFirst(items: seq<Json>)
    ensures if items == [] then RenderItems(items) == "" else RenderItems(items) != "" && RenderItems(items)[0] != ']'
  {
    if items != [] {
      if items[0].Int? { DecimalFirst(items[0].n); }
      assert Render(items[0]) != "" && Render(items[0])[0] != ']';
    }
  }

  // ---- ASCII output ------------------------------------------------------------

  lemma {:induction false} RenderPrintable(v: Json)
    ensures Printable(Render(v))
    decreases v, 1
  {
    match v
    case Int(n) => DecimalPrintable(n);
    case Str(s) => QuotePrintable(s);
    case Arr(items) => ItemsPrintable(items);
    case Obj(ms) => MembersPrintable(ms);
    case _ =>
  }

  lemma {:induction false} ItemsPrintable(items: seq<Json>)
    ensures Printable(RenderItems(items))
    decreases items, 0
  {
    if items == [] {
    } else {
      RenderPrintable(items[0]);
      ItemsPrintable(items[1..]);
    }
  }

  lemma {:induction false} MembersPrintable(ms: seq<Member>)
    ensures Printable(RenderMembers(ms))
    decreases ms, 0
  {
    if ms == [] {
    } else {
      QuotePrintable(ms[0].key);
      RenderPrintable(ms[0].value);
      MembersPrintable(ms[1..]);
    }
  }

  /** Canonical text holds only printable ASCII characters. */
  lemma CanonicalIsAscii(v: Json)
    ensures forall i | 0 <= i < |CanonicalJson(v)| :: ' ' <= CanonicalJson(v)[i] <= '~'
  {
    RenderPrintable(Canon(v));
  }

  // ---- sorting by key ----------------------------------------------------------

  ghost predicate Sorted(ms: seq<Member>) {
    forall i, j | 0 <= i < j < |ms| :: Text.Less(ms[i].key, ms[j].key)
  }

  lemma {:induction false} InsertKeeps(m: Member, sorted: seq<Member>)
    ensures forall x :: x in InsertMember(m, sorted) <==> x == m || x in sorted
  {
    if sorted == [] || Text.Less(m.key, sorted[0].key) {
    } else {
      InsertKeeps(m, sorted[1..]);
      assert sorted == [sorted[0]] + sorted[1..];
    }
  }

  lemma {:induction false} InsertSorted(m: Member, sorted: seq<Member>)
    requires Sorted(sorted) && forall x | x in sorted :: x.key != m.key
    ensures Sorted(InsertMember(m, sorted))
  {
    if sorted == [] {
    } else if Text.Less(m.key, sorted[0].key) {
      forall j | 0 <= j < |sorted| ensures Text.Less(m.key, sorted[j].key) {
        if j > 0 { Text.LessTransitive(m.key, sorted[0].key, sorted[j].key); }
      }
    } else {
      var tail := InsertMember(m, sorted[1..]);
      InsertSorted(m, sorted[1..]);
      InsertKeeps(m, sorted[1..]);
      assert sorted[0] in sorted;
      Text.LessTotal(m.key, sorted[0].key);
      forall j | 0 <= j < |tail| ensures Text.Less(sorted[0].key, tail[j].key) {
        assert tail[j] in tail;
      }
    }
  }

  lemma {:induction false} SortKeeps(ms: seq<Member>)
    ensures forall x :: x in SortMembers(ms) <==> x in ms
  {
    if ms == [] {
    } else {
      SortKeeps(ms[1..]);
      InsertKeeps(ms[0], SortMembers(ms[1..]));
      assert ms == [ms[0]] + ms[1..];
    }
  }

  lemma {:induction false} SortSorts(ms: seq<Member>)
    requires DistinctKeys(ms)
    ensures Sorted(SortMembers(ms))
  {
    if ms == [] {
    } else {
      SortSorts(ms[1..]);
      SortKeeps(ms[1..]);
      InsertSorted(ms[0], SortMembers(ms[1..]));
    }
  }

  /** A sorted list is determined by what it holds. */
  lemma {:induction false} SortedUnique(a: seq<Member>, b: seq<Member>)
    requires Sorted(a) && Sorted(b) && forall x :: x in a <==> x in b
    ensures a == b
  {
    assert |b| > 0 ==> b[0] in b;
    if a == [] {
    } else {
      assert a[0] in a && a[0] in b && b[0] in b && b[0] in a;
      Text.LessIrreflexive(a[0].key);
      if a[0] != b[0] {
        assert Text.Less(b[0].key, a[0].key) && Text.Less(a[0].key, b[0].key);
        Text.LessTransitive(a[0].key, b[0].key, a[0].key);
        assert false;
      }
      SortedTail(a);
      SortedTail(b);
      SortedUnique(a[1..], b[1..]);
    }
  }

  lemma SortedTail(a: seq<Member>)
    requires Sorted(a) && a != []
    ensures Sorted(a[1..]) && a == [a[0]] + a[1..]
    ensures forall x :: x in a[1..] <==> x in a && x != a[0]
  {
    Text.LessIrreflexive(a[0].key);
    forall x | x in a && x != a[0] ensures x in a[1..] {
      var i :| 0 <= i < |a| && a[i] == x;
      assert a[1..][i - 1] == x;
    }
  }

  // ---- same value, same text ---------------------------------------------------

  lemma CanonMembersDistinct(ms: seq<Member>)
    requires DistinctKeys(ms)
    ensures DistinctKeys(CanonMembers(ms))
  {}

  /** Two lists that hold the same members sort to the same list. */
  lemma SortAlike(cs: seq<Member>, ds: seq<Member>)
    requires DistinctKeys(cs) && DistinctKeys(ds) && forall x :: x in cs <==> x in ds
    ensures SortMembers(cs) == SortMembers(ds)
  {
    SortKeeps(cs);
    SortKeeps(ds);
    SortSorts(cs);
    SortSorts(ds);
    SortedUnique(SortMembers(cs), SortMembers(ds));
  }

  /** Sorting forgets the insertion order. */
  lemma {:induction false} SameCanon(a: Json, b: Json)
    requires WellFormed(a) && WellFormed(b) && Same(a, b)
    ensures Canon(a) == Canon(b)
    decreases a, 1
  {
    match (a, b)
    case (Arr(xs), Arr(ys)) =>
      forall i | 0 <= i < |xs| ensures Canon(xs[i]) == Canon(ys[i]) {
        SameCanon(xs[i], ys[i]);
      }
      assert CanonItems(xs) == CanonItems(ys);
    case (Obj(ms), Obj(ns)) => SameMembersCanon(ms, ns);
    case _ =>
  }

  lemma {:induction false} SameMembersCanon(ms: seq<Member>, ns: seq<Member>)
    requires DistinctKeys(ms) && forall i | 0 <= i < |ms| :: WellFormed(ms[i].value)
    requires DistinctKeys(ns) && forall j | 0 <= j < |ns| :: WellFormed(ns[j].value)
    requires forall i | 0 <= i < |ms| :: HasTwin(ms[i], ns)
    requires forall j | 0 <= j < |ns| :: HasSource(ms, ns[j])
    ensures SortMembers(CanonMembers(ms)) == SortMembers(CanonMembers(ns))
    decreases ms, 0
  {
    var (cs, ds) := (CanonMembers(ms), CanonMembers(ns));
    forall i | 0 <= i < |ms| ensures cs[i] in ds {
      assert HasTwin(ms[i], ns);
      var j :| 0 <= j < |ns| && ms[i].key == ns[j].key && Same(ms[i].value, ns[j].value);
      SameCanon(ms[i].value, ns[j].value);
      assert ds[j] in ds;
    }
    forall j | 0 <= j < |ns| ensures ds[j] in cs {
      assert HasSource(ms, ns[j]);
      var i :| 0 <= i < |ms| && ms[i].key == ns[j].key && Same(ms[i].value, ns[j].value);
      SameCanon(ms[i].value, ns[j].value);
      assert cs[i] in cs;
    }
    CanonMembersDistinct(ms);
    CanonMembersDistinct(ns);
    SortAlike(cs, ds);
  }

  lemma {:induction false} CanonSame(a: Json, b: Json)
    requires Canon(a) == Canon(b)
    ensures Same(a, b)
    decreases a, 1
  {
    match (a, b)
    case (Arr(xs), Arr(ys)) =>
      forall i | 0 <= i < |xs| ensures Same(xs[i], ys[i]) {
        assert CanonItems(xs)[i] == CanonItems(ys)[i];
        CanonSame(xs[i], ys[i]);
      }
    case (Obj(ms), Obj(ns)) =>
      SortKeeps(CanonMembers(ms));
      SortKeeps(CanonMembers(ns));
      CanonSameMembers(ms, ns);
    case _ =>
  }

  lemma {:induction false} CanonSameMembers(ms: seq<Member>, ns: seq<Member>)
    requires forall x :: x in CanonMembers(ms) <==> x in CanonMembers(ns)
    ensures forall i | 0 <= i < |ms| :: HasTwin(ms[i], ns)
    ensures forall j | 0 <= j < |ns| :: HasSource(ms, ns[j])
    decreases ms, 0
  {
    var (cs, ds) := (CanonMembers(ms), CanonMembers(ns));
    forall i | 0 <= i < |ms| ensures HasTwin(ms[i], ns) {
      assert cs[i] in cs;
      var j :| 0 <= j < |ds| && ds[j] == cs[i];
      CanonSame(ms[i].value, ns[j].value);
    }
    forall j | 0 <= j < |ns| ensures HasSource(ms, ns[j]) {
      assert ds[j] in ds;
      var i :| 0 <= i < |cs| && cs[i] == ds[j];
      CanonSame(ms[i].value, ns[j].value);
    }
  }

  /** Canonicalising changes nothing but the order of the members. */
  lemma {:induction false} CanonIsSame(v: Json)
    ensures Same(Canon(v), v)
    decreases v, 1
  {
    match v
    case Arr(items) =>
      forall i | 0 <= i < |items| ensures Same(Canon(items[i]), items[i]) {
        CanonIsSame(items[i]);
      }
    case Obj(ms) =>
      SortKeeps(CanonMembers(ms));
      CanonMembersSame(ms, SortMembers(CanonMembers(ms)));
    case _ =>
  }

  lemma {:induction false} CanonMembersSame(ms: seq<Member>, sorted: seq<Member>)
    requires forall x :: x in sorted <==> x in CanonMembers(ms)
    ensures forall k | 0 <= k < |sorted| :: HasTwin(sorted[k], ms)
    ensures forall i | 0 <= i < |ms| :: HasSource(sorted, ms[i])
    decreases ms, 0
  {
    var cs := CanonMembers(ms);
    forall k | 0 <= k < |sorted| ensures HasTwin(sorted[k], ms) {
      assert sorted[k] in sorted;
      var i :| 0 <= i < |cs| && cs[i] == sorted[k];
      CanonIsSame(ms[i].value);
    }
    forall i | 0 <= i < |ms| ensures HasSource(sorted, ms[i]) {
      assert cs[i] in cs;
      var k :| 0 <= k < |sorted| && sorted[k] == cs[i];
      CanonIsSame(ms[i].value);
    }
  }

  /** Two well-formed values have the same canonical text exactly when they are the same
      value: the printer is injective and blind to insertion order. */
  lemma CanonicalIffSame(a: Json, b: Json)
    requires WellFormed(a) && WellFormed(b)
    ensures CanonicalJson(a) == CanonicalJson(b) <==> Same(a, b)
  {
    if CanonicalJson(a) == CanonicalJson(b) {
      RenderRoundTrip(Canon(a), "");
      RenderRoundTrip(Canon(b), "");
      assert Render(Canon(a)) + "" == Render(Canon(a)) && Render(Canon(b)) + "" == Render(Canon(b));
      CanonSame(a, b);
    } else if Same(a, b) {
      SameCanon(a, b);
    }
  }

  /** Reading canonical text gives the value that was printed, and printing what was
      read gives the text again. */
  lemma LoadsCanonical(v: Json)
    requires WellFormed(v)
    ensures var r := Loads(CanonicalJson(v));
            r.Some? && Same(r.value, v) && CanonicalJson(r.value) == CanonicalJson(v)
  {
    var s := CanonicalJson(v);
    RenderRoundTrip(Canon(v), "");
    assert s + "" == s;
    CanonIsSame(v);
    CanonWellFormed(v);
    CanonicalIffSame(Canon(v), v);
  }

  lemma {:induction false} CanonWellFormed(v: Json)
    requires WellFormed(v)
    ensures WellFormed(Canon(v))
  {
    match v
    case Arr(items) =>
      forall i | 0 <= i < |items| ensures WellFormed(Canon(items[i])) {
        CanonWellFormed(items[i]);
      }
    case Obj(ms) =>
      var cs := CanonMembers(ms);
      var sorted := SortMembers(cs);
      CanonMembersDistinct(ms);
      SortKeeps(cs);
      SortSorts(cs);
      forall i, j | 0 <= i < j < |sorted| ensures sorted[i].key != sorted[j].key {
        Text.LessIrreflexive(sorted[i].key);
      }
      forall k | 0 <= k < |sorted| ensures WellFormed(sorted[k].value) {
        assert sorted[k] in sorted && sorted[k] in cs;
        var i :| 0 <= i < |cs| && cs[i] == sorted[k];
        CanonWellFormed(ms[i].value);
      }
    case _ =>
  }

  /** When equal keys can only stand at equal positions, equal dicts are equal position
      by position. */
  lemma SameByPosition(ms: seq<Member>, ns: seq<Member>)
    requires forall i, j | 0 <= i < |ms| && 0 <= j < |ns| :: ms[i].key == ns[j].key ==> i == j
    requires Same(Obj(ms), Obj(ns))
    ensures |ms| == |ns|
    ensures forall i | 0 <= i < |ms| :: Same(ms[i].value, ns[i].value)
  {
    forall i | 0 <= i < |ms| ensures i < |ns| && Same(ms[i].value, ns[i].value) {
      assert HasTwin(ms[i], ns);
    }
    assert |ms| > 0 ==> HasTwin(ms[|ms| - 1], ns);
    assert |ns| > 0 ==> HasSource(ms, ns[|ns| - 1]);
  }

  // ---- the text, independently of how it is made ---------------------------------

  /** The keys of every dict in the value stand in ascending order of code points. */
  ghost predicate KeysAscend(v: Json) {
    match v
    case Arr(items) => forall i | 0 <= i < |items| :: KeysAscend(items[i])
    case Obj(ms) => Sorted(ms) && forall i | 0 <= i < |ms| :: KeysAscend(ms[i].value)
    case _ => true
  }

  lemma {:induction false} CanonKeysAscend(v: Json)
    requires WellFormed(v)
    ensures KeysAscend(Canon(v))
  {
    match v
    case Arr(items) =>
      forall i | 0 <= i < |items| ensures KeysAscend(Canon(items[i])) {
        CanonKeysAscend(items[i]);
      }
    case Obj(ms) =>
      var cs := CanonMembers(ms);
      CanonMembersDistinct(ms);
      SortSorts(cs);
      SortKeeps(cs);
      var sorted := SortMembers(cs);
      forall k | 0 <= k < |sorted| ensures KeysAscend(sorted[k].value) {
        assert sorted[k] in sorted && sorted[k] in cs;
        var i :| 0 <= i < |cs| && cs[i] == sorted[k];
        CanonKeysAscend(ms[i].value);
      }
    case _ =>
  }

  lemma PrintableRest(t: string, i: nat)
    requires Printable(t) && i <= |t|
    ensures Printable(t[i..])
  {}

  /** No printable text of a value is shorter than the rendered one. */
  lemma {:induction false} ValueIsShortest(t: string)
    requires Printable(t) && ParseValue(t).Good?
    ensures Printable(ParseValue(t).rest) && |Render(ParseValue(t).value)| + |ParseValue(t).rest| <= |t|
    decreases |t|, 1
  {
    PrintableRest(t, 1);
    match t[0]
    case '"' => StringIsShortest(t[1..]);
    case '[' => if |t| > 1 && t[1] == ']' { PrintableRest(t, 2); } else { ItemsAreShortest(t[1..]); }
    case '{' => if |t| > 1 && t[1] == '}' { PrintableRest(t, 2); } else { MembersAreShortest(t[1..]); }
    case 'n' => PrintableRest(t, 4);
    case 't' => PrintableRest(t, 4);
    case 'f' => PrintableRest(t, 5);
    case _ => IntIsShortest(t);
  }

  lemma {:induction false} ItemsAreShortest(t: string)
    requires Printable(t) && ParseItems(t).Good?
    ensures Printable(ParseItems(t).rest) && |RenderItems(ParseItems(t).value)| + 1 + |ParseItems(t).rest| <= |t|
    decreases |t|, 2
  {
    var v := ParseValue(t);
    ValueIsShortest(t);
    PrintableRest(v.rest, 1);
    if v.rest[0] == ']' {
      assert RenderItems([v.value]) == Render(v.value);
    } else {
      var tail := ParseItems(v.rest[1..]);
      ItemsAreShortest(v.rest[1..]);
      JoinedLength(v.value, tail.value);
    }
  }

  lemma JoinedLength(item: Json, tail: seq<Json>)
    ensures |RenderItems([item] + tail)| <= |Render(item)| + 1 + |RenderItems(tail)|
  {
    assert ([item] + tail)[1..] == tail;
  }

  lemma {:induction false} MemberIsShortest(t: string)
    requires Printable(t) && ParseMember(t).Good?
    ensures Printable(ParseMember(t).rest) && |RenderMember(ParseMember(t).value)| + |ParseMember(t).rest| <= |t|
    decreases |t|, 2
  {
    PrintableRest(t, 1);
    var k := ParseString(t[1..]);
    StringIsShortest(t[1..]);
    PrintableRest(k.rest, 1);
    ValueIsShortest(k.rest[1..]);
  }

  lemma {:induction false} MembersAreShortest(t: string)
    requires Printable(t) && ParseMembers(t).Good?
    ensures Printable(ParseMembers(t).rest) && |RenderMembers(ParseMembers(t).value)| + 1 + |ParseMembers(t).rest| <= |t|
    decreases |t|, 3
  {
    var m := ParseMember(t);
    MemberIsShortest(t);
    PrintableRest(m.rest, 1);
    if m.rest[0] == '}' {
      assert RenderMembers([m.value]) == RenderMember(m.value);
    } else {
      var tail := ParseMembers(m.rest[1..]);
      MembersAreShortest(m.rest[1..]);
      JoinedMembersLength(m.value, tail.value);
    }
  }

  lemma JoinedMembersLength(m: Member, tail: seq<Member>)
    ensures |RenderMembers([m] + tail)| <= |RenderMember(m)| + 1 + |RenderMembers(tail)|
  {
    assert ([m] + tail)[1..] == tail;
  }

  /** Canonical text loads as the value with all keys ascending, and no printable text that
      loads so is shorter. */
  lemma CanonicalIsShortest(v: Json, t: string)
    requires WellFormed(v)
    ensures Loads(CanonicalJson(v)) == Some(Canon(v)) && KeysAscend(Canon(v)) && Same(Canon(v), v)
    ensures Printable(t) && Loads(t) == Some(Canon(v)) ==> |CanonicalJson(v)| <= |t|
  {
    RenderRoundTrip(Canon(v), "");
    assert CanonicalJson(v) + "" == CanonicalJson(v);
    CanonKeysAscend(v);
    CanonIsSame(v);
    if Printable(t) && Loads(t) == Some(Canon(v)) { ValueIsShortest(t); }
  }
}
