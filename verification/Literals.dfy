/** The fixed texts and tables of the source, spelled out, and the shape of canonical text. */
module Literals {
  import opened Base
  import opened Clock
  import opened JsonText
  import opened Json
  import opened Canonical
  import opened EntryChain
  import opened HashText

  lemma {:induction false} ZerosAreZeros(n: nat)
    ensures |Zeros(n)| == n && forall i | 0 <= i < n :: Zeros(n)[i] == '0'
  {
    if n == 0 {
    } else {
      ZerosAreZeros(n - 1);
    }
  }

  /** The genesis value is sixty-four zeros. */
  lemma GenesisIsZeros()
    ensures |GENESIS| == 64 && forall i | 0 <= i < 64 :: GENESIS[i] == '0'
  {
    ZerosAreZeros(64);
  }

  /** The digits of bytes and of integers. */
  lemma DigitTable(n: int)
    requires 0 <= n < 16
    ensures HexDigit(n) == "0123456789abcdef"[n]
    ensures n < 10 ==> Decimal(n) == ["0123456789"[n]]
  {
    if n < 10 { assert Digits(n) == [(n % 10 + '0' as int) as char]; }
  }

  /** A decimal text grows by its last digit. */
  lemma DecimalGrows(n: int, d: int)
    requires n > 0 && 0 <= d < 10
    ensures Decimal(10 * n + d) == Decimal(n) + Decimal(d) && Decimal(-n) == "-" + Decimal(n)
  {
    assert (10 * n + d) / 10 == n && (10 * n + d) % 10 == d;
  }

  /** The seven short escapes, and characters that are never escaped. */
  lemma ShortEscapes(c: char)
    ensures EscapeChar('"') == "\\\"" && EscapeChar('\\') == "\\\\"
    ensures EscapeChar('\n') == "\\n" && EscapeChar('\r') == "\\r" && EscapeChar('\t') == "\\t"
    ensures EscapeChar(12 as char) == "\\f" && EscapeChar(8 as char) == "\\b"
    ensures EscapeChar(c) == [c] <==> ' ' <= c <= '~' && c != '"' && c != '\\'
  {
    CharPrintable(c);
    assert |EscapeChar(c)| > 0 && ' ' <= EscapeChar(c)[0] <= '~';
  }

  /** The days of the months, and one fixed day of the time line. */
  lemma CalendarTable(y: nat, m: nat)
    requires 1 <= m <= 12
    ensures DaysInMonth(y, m) ==
              [31, if y % 4 == 0 && (y % 100 != 0 || y % 400 == 0) then 29 else 28,
               31, 30, 31, 30, 31, 31, 30, 31, 30, 31][m - 1]
    ensures Ordinal(1970, 1, 1) == 719_163
  {}

  // ---- the shape of canonical text -------------------------------------------------------

  lemma ScalarText(text: string, n: int)
    ensures CanonicalJson(Null) == "null" && CanonicalJson(Bool(true)) == "true" && CanonicalJson(Bool(false)) == "false"
    ensures CanonicalJson(Int(n)) == Decimal(n) && CanonicalJson(Str(text)) == "\"" + Escape(text) + "\""
    ensures CanonicalJson(Arr([])) == "[]" && CanonicalJson(Obj([])) == "{}"
  {
    assert Canon(Arr([])) == Arr([]) && Canon(Obj([])) == Obj([]);
    assert "[" + "" + "]" == "[]" && "{" + "" + "}" == "{}";
  }

  /** Text is escaped character by character. */
  lemma EscapeConcat(c: char, rest: string)
    ensures Escape([c] + rest) == EscapeChar(c) + Escape(rest)
  {
    assert ([c] + rest)[1..] == rest;
  }

  lemma {:induction false} ItemsText(items: seq<Json>, texts: seq<string>)
    requires |items| == |texts| > 0 && forall i | 0 <= i < |items| :: texts[i] == Render(items[i])
    ensures RenderItems(items) == CommaJoined(texts)
    decreases |items|
  {
    if |items| == 1 {
    } else {
      ItemsText(items[1..], texts[1..]);
    }
  }

  /** A list is printed as its items, in order, joined by commas. */
  lemma ArrayText(items: seq<Json>, texts: seq<string>)
    requires |items| == |texts| > 0 && forall i | 0 <= i < |items| :: texts[i] == CanonicalJson(items[i])
    ensures CanonicalJson(Arr(items)) == "[" + CommaJoined(texts) + "]"
  {
    ItemsText(CanonItems(items), texts);
  }

  lemma {:induction false} MembersJoined(ms: seq<Member>, lines: seq<string>)
    requires |ms| == |lines| > 0
    requires forall i | 0 <= i < |ms| :: lines[i] == Quote(ms[i].key) + ":" + Render(ms[i].value)
    ensures RenderMembers(ms) == CommaJoined(lines)
    decreases |ms|
  {
    if |ms| == 1 {
    } else {
      MembersJoined(ms[1..], lines[1..]);
    }
  }

  lemma CanonIncludes(ms: seq<Member>, ns: seq<Member>)
    requires forall x :: x in ms ==> x in ns
    ensures forall x :: x in CanonMembers(ms) ==> x in CanonMembers(ns)
  {
    var (cs, ds) := (CanonMembers(ms), CanonMembers(ns));
    forall i | 0 <= i < |cs| ensures cs[i] in ds {
      assert ms[i] in ns;
      var j :| 0 <= j < |ns| && ns[j] == ms[i];
      assert ds[j] == cs[i];
    }
  }

  lemma CanonSorted(ms: seq<Member>)
    requires Sorted(ms)
    ensures Sorted(CanonMembers(ms))
  {}

  /** A dict is printed as its members in ascending order of their keys, joined by commas. */
  lemma ObjectText(ms: seq<Member>, sorted: seq<Member>, lines: seq<string>)
    requires DistinctKeys(ms) && Sorted(sorted) && forall x :: x in ms <==> x in sorted
    requires |sorted| == |lines| > 0
    requires forall i | 0 <= i < |sorted| :: lines[i] == Quote(sorted[i].key) + ":" + CanonicalJson(sorted[i].value)
    ensures CanonicalJson(Obj(ms)) == "{" + CommaJoined(lines) + "}"
  {
    var (cs, ds) := (CanonMembers(ms), CanonMembers(sorted));
    CanonMembersDistinct(ms);
    SortKeeps(cs);
    SortSorts(cs);
    CanonIncludes(ms, sorted);
    CanonIncludes(sorted, ms);
    CanonSorted(sorted);
    SortedUnique(SortMembers(cs), ds);
    MembersJoined(ds, lines);
  }
}
