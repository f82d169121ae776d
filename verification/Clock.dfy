/** UTC timestamps and the fixed-width text in which every table stores them. */
module Clock {
  import opened Base
  import Text

  datatype DateTime = DateTime(
    year: nat, month: nat, day: nat, hour: nat, minute: nat, second: nat, micro: nat)

  predicate IsLeap(y: nat) {
    y % 4 == 0 && (y % 100 != 0 || y % 400 == 0)
  }

  function DaysInMonth(y: nat, m: nat): nat {
    if m == 2 then (if IsLeap(y) then 29 else 28)
    else if m == 4 || m == 6 || m == 9 || m == 11 then 30
    else 31
  }

  /** A date and time of day of the proleptic Gregorian calendar, in a year that is
      written with four digits. */
  predicate Valid(d: DateTime) {
    && 1000 <= d.year <= 9999
    && 1 <= d.month <= 12
    && 1 <= d.day <= DaysInMonth(d.year, d.month)
    && d.hour < 24 && d.minute < 60 && d.second < 60 && d.micro < 1_000_000
  }

  type UtcTime = d: DateTime | Valid(d) witness DateTime(1970, 1, 1, 0, 0, 0, 0)

  // ---- the time line -----------------------------------------------------------

  function DaysBeforeYear(y: nat): int
    requires y >= 1
  {
    var p := y - 1;
    365 * p + p / 4 - p / 100 + p / 400
  }

  function DaysBeforeMonth(y: nat, m: nat): nat
    requires 1 <= m <= 12
  {
    if m == 1 then 0 else DaysBeforeMonth(y, m - 1) + DaysInMonth(y, m - 1)
  }

  function Ordinal(y: nat, m: nat, d: nat): int
    requires y >= 1 && 1 <= m <= 12
  {
    DaysBeforeYear(y) + DaysBeforeMonth(y, m) + d
  }

  const DAY := 86_400_000_000

  function MicroOfDay(d: DateTime): nat {
    ((d.hour * 60 + d.minute) * 60 + d.second) * 1_000_000 + d.micro
  }

  /** Microseconds on one time line: 86400 seconds to a day, leap years counted. */
  function Instant(d: DateTime): int
    requires Valid(d)
  {
    Ordinal(d.year, d.month, d.day) * DAY + MicroOfDay(d)
  }

  lemma YearLength(y: nat)
    requires y >= 1
    ensures DaysBeforeYear(y + 1) == DaysBeforeYear(y) + (if IsLeap(y) then 366 else 365)
  {
    By4(y);
    By100(y);
    By400(y);
    if y % 400 == 0 { FourHundreds(y); }
  }

  lemma By4(y: nat)
    requires y >= 1
    ensures y / 4 == (y - 1) / 4 + if y % 4 == 0 then 1 else 0
  {}

  lemma By100(y: nat)
    requires y >= 1
    ensures y / 100 == (y - 1) / 100 + if y % 100 == 0 then 1 else 0
    ensures y % 100 == 0 ==> y % 4 == 0
  {}

  lemma By400(y: nat)
    requires y >= 1
    ensures y / 400 == (y - 1) / 400 + if y % 400 == 0 then 1 else 0
  {}

  lemma FourHundreds(y: nat)
    requires y % 400 == 0
    ensures y % 100 == 0
  {
    Hundreds(4 * (y / 400));
  }

  lemma Hundreds(k: nat)
    ensures 100 * k % 100 == 0
  {}

  lemma {:induction false} YearsAscend(a: nat, b: nat)
    requires 1 <= a < b
    ensures DaysBeforeYear(a) + (if IsLeap(a) then 366 else 365) <= DaysBeforeYear(b)
    decreases b - a
  {
    YearLength(a);
    if a + 1 == b {
    } else {
      YearsAscend(a + 1, b);
    }
  }

  lemma {:induction false} MonthsAscend(y: nat, a: nat, b: nat)
    requires 1 <= a < b <= 12
    ensures DaysBeforeMonth(y, a) + DaysInMonth(y, a) <= DaysBeforeMonth(y, b)
  {
    if a == b - 1 {
    } else {
      MonthsAscend(y, a, b - 1);
    }
  }

  lemma YearHoldsMonths(y: nat, m: nat)
    requires 1 <= m <= 12
    ensures DaysBeforeMonth(y, m) + DaysInMonth(y, m) <= if IsLeap(y) then 366 else 365
  {
    if m < 12 { MonthsAscend(y, m, 12); }
    assert DaysBeforeMonth(y, 12) == if IsLeap(y) then 335 else 334 by {
      assert DaysBeforeMonth(y, 4) == if IsLeap(y) then 91 else 90;
      assert DaysBeforeMonth(y, 8) == if IsLeap(y) then 213 else 212;
    }
  }

  /** Comparison field by field, from the year down. */
  predicate FieldsLess(a: DateTime, b: DateTime) {
    if a.year != b.year then a.year < b.year
    else if a.month != b.month then a.month < b.month
    else if a.day != b.day then a.day < b.day
    else if a.hour != b.hour then a.hour < b.hour
    else if a.minute != b.minute then a.minute < b.minute
    else if a.second != b.second then a.second < b.second
    else a.micro < b.micro
  }

  lemma FieldsAreChronological(a: DateTime, b: DateTime)
    requires Valid(a) && Valid(b) && FieldsLess(a, b)
    ensures Instant(a) < Instant(b)
  {
    var (p, q) := (Ordinal(a.year, a.month, a.day), Ordinal(b.year, b.month, b.day));
    if a.year != b.year {
      YearsAscend(a.year, b.year);
      YearHoldsMonths(a.year, a.month);
    } else if a.month != b.month {
      MonthsAscend(a.year, a.month, b.month);
    }
    assert p < q || (p == q && MicroOfDay(a) < MicroOfDay(b));
    assert 0 <= MicroOfDay(a) < DAY && 0 <= MicroOfDay(b) < DAY;
    if p < q { assert p * DAY + DAY <= q * DAY; }
  }

  // ---- fixed-width text ----------------------------------------------------------

  function Power10(w: nat): nat {
    if w == 0 then 1 else 10 * Power10(w - 1)
  }

  /** The last `w` decimal digits, with leading zeros. */
  function Pad(n: nat, w: nat): (s: string)
    ensures |s| == w
  {
    if w == 0 then "" else Pad(n / 10, w - 1) + [(n % 10 + '0' as int) as char]
  }

  /** `strftime("%Y-%m-%dT%H:%M:%S.%fZ")` */
  function Format(d: DateTime): (s: string)
    ensures |s| == 27
  {
    Pad(d.year, 4) + ("-" + (Pad(d.month, 2) + ("-" + (Pad(d.day, 2) + ("T" + (
    Pad(d.hour, 2) + (":" + (Pad(d.minute, 2) + (":" + (Pad(d.second, 2) + ("." + (
    Pad(d.micro, 6) + "Z"))))))))))))
  }

  function Digit(c: char): Option<nat> {
    if '0' <= c <= '9' then Some(c as int - '0' as int) else None
  }

  function Number(s: string): Option<nat> {
    if s == "" then Some(0)
    else
      match (Number(s[..|s| - 1]), Digit(s[|s| - 1]))
      case (Some(n), Some(k)) => Some(n * 10 + k)
      case _ => None
  }

  /** `fromisoformat` on text of the written form. */
  function Parse(s: string): Option<DateTime> {
    if |s| != 27 then None
    else
      var s1 := s[5..];
      var s2 := s1[3..];
      var s3 := s2[3..];
      var s4 := s3[3..];
      var s5 := s4[3..];
      var s6 := s5[3..];
      if [s[4], s1[2], s2[2], s3[2], s4[2], s5[2], s6[6]] != "--T::.Z" then None
      else
        match (Number(s[..4]), Number(s1[..2]), Number(s2[..2]), Number(s3[..2]),
               Number(s4[..2]), Number(s5[..2]), Number(s6[..6]))
        case (Some(y), Some(mo), Some(d), Some(h), Some(mi), Some(sec), Some(us)) =>
          var dt := DateTime(y, mo, d, h, mi, sec, us);
          if Valid(dt) then Some(dt) else None
        case _ => None
  }

  lemma {:induction false} PadNumber(n: nat, w: nat)
    requires n < Power10(w)
    ensures Number(Pad(n, w)) == Some(n)
  {
    if w == 0 {
    } else {
      PadNumber(n / 10, w - 1);
      assert Pad(n, w)[..w - 1] == Pad(n / 10, w - 1);
    }
  }

  /** Text of equal width orders like the numbers. */
  lemma {:induction false} PadOrder(a: nat, b: nat, w: nat)
    requires a < Power10(w) && b < Power10(w)
    ensures Text.Less(Pad(a, w), Pad(b, w)) <==> a < b
    ensures Pad(a, w) == Pad(b, w) <==> a == b
  {
    PadNumber(a, w);
    PadNumber(b, w);
    if w == 0 {
    } else {
      PadOrder(a / 10, b / 10, w - 1);
      var (x, y) := ((a % 10 + '0' as int) as char, (b % 10 + '0' as int) as char);
      Text.LessBlocks(Pad(a / 10, w - 1), Pad(b / 10, w - 1), [x], [y]);
      OneChar(x, y);
    }
  }

  lemma OneChar(x: char, y: char)
    ensures Text.Less([x], [y]) <==> x < y
  {}

  lemma Powers()
    ensures Power10(2) == 100 && Power10(4) == 10000 && Power10(6) == 1_000_000
  {}

  /** A field, its separator and the rest, taken apart again. */
  lemma Cut(field: string, sep: string, rest: string)
    requires |sep| == 1
    ensures var s := field + (sep + rest);
            s[..|field|] == field && s[|field|] == sep[0] && s[|field| + 1..] == rest
  {}

  /** Parsing recovers what was written. */
  lemma ParseFormat(d: DateTime)
    requires Valid(d)
    ensures Parse(Format(d)) == Some(d)
  {
    var s := Format(d);
    Powers();
    PadNumber(d.year, 4);
    PadNumber(d.month, 2);
    PadNumber(d.day, 2);
    PadNumber(d.hour, 2);
    PadNumber(d.minute, 2);
    PadNumber(d.second, 2);
    PadNumber(d.micro, 6);
    var s6 := Pad(d.micro, 6) + ("Z" + "");
    var s5 := Pad(d.second, 2) + ("." + s6);
    var s4 := Pad(d.minute, 2) + (":" + s5);
    var s3 := Pad(d.hour, 2) + (":" + s4);
    var s2 := Pad(d.day, 2) + ("T" + s3);
    var s1 := Pad(d.month, 2) + ("-" + s2);
    assert "Z" + "" == "Z";
    Cut(Pad(d.micro, 6), "Z", "");
    Cut(Pad(d.second, 2), ".", s6);
    Cut(Pad(d.minute, 2), ":", s5);
    Cut(Pad(d.hour, 2), ":", s4);
    Cut(Pad(d.day, 2), "T", s3);
    Cut(Pad(d.month, 2), "-", s2);
    Cut(Pad(d.year, 4), "-", s1);
  }

  /** One field and the separator before the rest of the text. */
  lemma FieldOrder(a: nat, b: nat, w: nat, sep: char, x: string, y: string)
    requires a < Power10(w) && b < Power10(w)
    ensures Text.Less(Pad(a, w) + ([sep] + x), Pad(b, w) + ([sep] + y)) <==>
            a < b || (a == b && Text.Less(x, y))
  {
    PadOrder(a, b, w);
    Text.LessBlocks(Pad(a, w), Pad(b, w), [sep] + x, [sep] + y);
    Text.LessBlocks([sep], [sep], x, y);
    Text.LessIrreflexive([sep]);
  }

  function TimeText(d: DateTime): string {
    Pad(d.hour, 2) + (":" + (Pad(d.minute, 2) + (":" + (Pad(d.second, 2) + ("." + (
    Pad(d.micro, 6) + "Z"))))))
  }

  lemma TimeOrder(a: DateTime, b: DateTime)
    requires Valid(a) && Valid(b)
    ensures Text.Less(TimeText(a), TimeText(b)) <==> MicroOfDay(a) < MicroOfDay(b)
  {
    Powers();
    var (fa, fb) := (Pad(a.micro, 6) + "Z", Pad(b.micro, 6) + "Z");
    var (sa, sb) := (Pad(a.second, 2) + ("." + fa), Pad(b.second, 2) + ("." + fb));
    var (ma, mb) := (Pad(a.minute, 2) + (":" + sa), Pad(b.minute, 2) + (":" + sb));
    FieldOrder(a.hour, b.hour, 2, ':', ma, mb);
    FieldOrder(a.minute, b.minute, 2, ':', sa, sb);
    FieldOrder(a.second, b.second, 2, '.', fa, fb);
    PadOrder(a.micro, b.micro, 6);
    Text.LessBlocks(Pad(a.micro, 6), Pad(b.micro, 6), "Z", "Z");
    Text.LessIrreflexive("Z");
  }

  lemma TextIsFieldOrder(a: DateTime, b: DateTime)
    requires Valid(a) && Valid(b)
    ensures Text.Less(Format(a), Format(b)) <==> FieldsLess(a, b)
  {
    Powers();
    var (ta, tb) := (TimeText(a), TimeText(b));
    var (da, db) := (Pad(a.day, 2) + ("T" + ta), Pad(b.day, 2) + ("T" + tb));
    var (ma, mb) := (Pad(a.month, 2) + ("-" + da), Pad(b.month, 2) + ("-" + db));
    TimeOrder(a, b);
    FieldOrder(a.year, b.year, 4, '-', ma, mb);
    FieldOrder(a.month, b.month, 2, '-', da, db);
    FieldOrder(a.day, b.day, 2, 'T', ta, tb);
    assert Format(a) == Pad(a.year, 4) + ("-" + ma) && Format(b) == Pad(b.year, 4) + ("-" + mb);
  }

  /** The order of the written text is the order in time. */
  lemma TextIsChronological(a: DateTime, b: DateTime)
    requires Valid(a) && Valid(b)
    ensures Text.Less(Format(a), Format(b)) <==> Instant(a) < Instant(b)
    ensures Format(a) == Format(b) <==> Instant(a) == Instant(b)
  {
    TextIsFieldOrder(a, b);
    ParseFormat(a);
    ParseFormat(b);
    if FieldsLess(a, b) {
      FieldsAreChronological(a, b);
    } else if FieldsLess(b, a) {
      FieldsAreChronological(b, a);
    } else {
      assert a == b;
    }
  }

  lemma FieldAt(s: string, i: nat, field: string, sep: string, rest: string)
    requires i <= |s| && |sep| == 1 && s[i..] == field + (sep + rest)
    ensures i + |field| < |s| && s[i..i + |field|] == field && s[i + |field|] == sep[0]
    ensures s[i + |field| + 1..] == rest
  {
    var t := s[i..];
    Cut(field, sep, rest);
    assert s[i..i + |field|] == t[..|field|] && s[i + |field|] == t[|field|] && s[i + |field| + 1..] == t[|field| + 1..];
  }

  lemma NumbersRead(d: DateTime)
    requires Valid(d)
    ensures Number(Pad(d.year, 4)) == Some(d.year) && Number(Pad(d.month, 2)) == Some(d.month)
    ensures Number(Pad(d.day, 2)) == Some(d.day) && Number(Pad(d.hour, 2)) == Some(d.hour)
    ensures Number(Pad(d.minute, 2)) == Some(d.minute) && Number(Pad(d.second, 2)) == Some(d.second)
    ensures Number(Pad(d.micro, 6)) == Some(d.micro)
  {
    Powers();
    PadNumber(d.year, 4);
    PadNumber(d.month, 2);
    PadNumber(d.day, 2);
    PadNumber(d.hour, 2);
    PadNumber(d.minute, 2);
    PadNumber(d.second, 2);
    PadNumber(d.micro, 6);
  }

  /** The written form, position by position. */
  lemma FormatLayout(d: DateTime)
    requires Valid(d)
    ensures var s := Format(d);
            && s[4] == '-' && s[7] == '-' && s[10] == 'T' && s[13] == ':' && s[16] == ':' && s[19] == '.' && s[26] == 'Z'
            && Number(s[..4]) == Some(d.year) && Number(s[5..7]) == Some(d.month) && Number(s[8..10]) == Some(d.day)
            && Number(s[11..13]) == Some(d.hour) && Number(s[14..16]) == Some(d.minute)
            && Number(s[17..19]) == Some(d.second) && Number(s[20..26]) == Some(d.micro)
  {
    NumbersRead(d);
    var s := Format(d);
    var s6 := Pad(d.micro, 6) + "Z";
    var s5 := Pad(d.second, 2) + ("." + s6);
    var s4 := Pad(d.minute, 2) + (":" + s5);
    var s3 := Pad(d.hour, 2) + (":" + s4);
    var s2 := Pad(d.day, 2) + ("T" + s3);
    var s1 := Pad(d.month, 2) + ("-" + s2);
    assert s[0..] == s;
    FieldAt(s, 0, Pad(d.year, 4), "-", s1);
    FieldAt(s, 5, Pad(d.month, 2), "-", s2);
    FieldAt(s, 8, Pad(d.day, 2), "T", s3);
    FieldAt(s, 11, Pad(d.hour, 2), ":", s4);
    FieldAt(s, 14, Pad(d.minute, 2), ":", s5);
    FieldAt(s, 17, Pad(d.second, 2), ".", s6);
    assert "Z" + "" == "Z";
    FieldAt(s, 20, Pad(d.micro, 6), "Z", "");
  }

  /** A number read from text is its decimal value. */
  lemma {:induction false} NumberIsDecimal(s: string, c: char)
    ensures Number([]) == Some(0)
    ensures Number(s + [c]).Some? <==> Number(s).Some? && '0' <= c <= '9'
    ensures Number(s + [c]).Some? ==> Number(s + [c]).value == 10 * Number(s).value + (c as int - '0' as int)
  {
    assert (s + [c])[..|s|] == s;
  }
}
