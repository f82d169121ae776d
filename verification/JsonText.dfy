/** Strings and integers of JSON text: the ASCII escaping that Python's printer applies
    by default, and the reader of section 7 of RFC 8259 for strings. A Dafny char is a
    Unicode scalar value, so lone surrogates are outside the domain. */
module JsonText {
  import opened Base

  /** A reader consumes a prefix of its input and hands back the rest. */
  datatype Parsed<+T> = Bad | Good(value: T, rest: string)

  // ---- strings ----------------------------------------------------------------

  /** The last `k` hexadecimal digits, with leading zeros. */
  function HexPad(n: nat, k: nat): (s: string)
    ensures |s| == k
  {
    if k == 0 then "" else HexPad(n / 16, k - 1) + [HexDigit(n % 16)]
  }

  function Hex4(n: int): (s: string)
    requires 0 <= n < 0x10000
    ensures |s| == 4
  {
    HexPad(n, 4)
  }

  function EscapeUnit(n: int): string
    requires 0 <= n < 0x10000
  {
    "\\u" + Hex4(n)
  }

  function EscapeChar(c: char): string {
    if c == '"' then "\\\""
    else if c == '\\' then "\\\\"
    else if c == '\n' then "\\n"
    else if c == '\r' then "\\r"
    else if c == '\t' then "\\t"
    else if c as int == 12 then "\\f"
    else if c as int == 8 then "\\b"
    else if ' ' <= c <= '~' then [c]
    else if c as int < 0x10000 then EscapeUnit(c as int)
    else
      var n := c as int - 0x10000;
      EscapeUnit(0xD800 + n / 0x400) + EscapeUnit(0xDC00 + n % 0x400)
  }

  function Escape(s: string): string {
    if s == "" then "" else EscapeChar(s[0]) + Escape(s[1..])
  }

  function Quote(s: string): string {
    "\"" + Escape(s) + "\""
  }

  /** The number written with up to four hexadecimal digits. */
  function HexNumber(s: string): (r: Option<int>)
    requires |s| <= 4
    ensures r.Some? ==> 0 <= r.value < Power16(|s|)
  {
    if s == "" then Some(0)
    else
      match (HexNumber(s[..|s| - 1]), HexValue(s[|s| - 1]))
      case (Some(n), Some(d)) => Some(n * 16 + d)
      case _ => None
  }

  function Power16(k: nat): nat {
    if k == 0 then 1 else 16 * Power16(k - 1)
  }

  /** Four hexadecimal digits, of either case. */
  function ParseHex4(s: string): (r: Parsed<int>)
    ensures r.Good? ==> |r.rest| < |s| && 0 <= r.value < 0x10000
  {
    assert Power16(4) == 0x10000;
    if |s| < 4 then Bad
    else
      var n := HexNumber(s[..4]);
      if n.None? then Bad else Good(n.value, s[4..])
  }

  /** What follows `\u`: a code unit, or the two units of a surrogate pair. */
  function ParseUnicode(s: string): (r: Parsed<char>)
    ensures r.Good? ==> |r.rest| < |s|
  {
    var hi := ParseHex4(s);
    if hi.Bad? then Bad
    else if hi.value < 0xD800 || 0xE000 <= hi.value then Good(hi.value as char, hi.rest)
    else if 0xDC00 <= hi.value || |hi.rest| < 2 || hi.rest[..2] != "\\u" then Bad
    else
      var lo := ParseHex4(hi.rest[2..]);
      if lo.Bad? || lo.value < 0xDC00 || 0xE000 <= lo.value then Bad
      else Good((0x10000 + (hi.value - 0xD800) * 0x400 + (lo.value - 0xDC00)) as char, lo.rest)
  }

  /** One character of a string body, escaped or not. */
  function ParseChar(s: string): (r: Parsed<char>)
    ensures r.Good? ==> |r.rest| < |s|
  {
    if s == "" || s[0] < ' ' || s[0] == '"' then Bad
    else if s[0] != '\\' then Good(s[0], s[1..])
    else if |s| < 2 then Bad
    else
      match s[1]
      case '"' => Good('"', s[2..])
      case '\\' => Good('\\', s[2..])
      case '/' => Good('/', s[2..])
      case 'n' => Good('\n', s[2..])
      case 'r' => Good('\r', s[2..])
      case 't' => Good('\t', s[2..])
      case 'f' => Good(12 as char, s[2..])
      case 'b' => Good(8 as char, s[2..])
      case 'u' => ParseUnicode(s[2..])
      case _ => Bad
  }

  /** The body of a string after its opening quote. */
  function ParseString(s: string): (r: Parsed<string>)
    ensures r.Good? ==> |r.rest| < |s|
    decreases |s|
  {
    if s != "" && s[0] == '"' then Good("", s[1..])
    else
      var c := ParseChar(s);
      if c.Bad? then Bad
      else
        var tail := ParseString(c.rest);
        if tail.Bad? then Bad else Good([c.value] + tail.value, tail.rest)
  }

  lemma DigitRoundTrip(d: int)
    requires 0 <= d < 16
    ensures HexValue(HexDigit(d)) == Some(d)
  {}

  lemma {:induction false} HexPadNumber(n: nat, k: nat)
    requires k <= 4 && n < Power16(k)
    ensures HexNumber(HexPad(n, k)) == Some(n)
  {
    if k == 0 {
    } else {
      HexPadNumber(n / 16, k - 1);
      DigitRoundTrip(n % 16);
      assert HexPad(n, k)[..k - 1] == HexPad(n / 16, k - 1);
    }
  }

  lemma Hex4RoundTrip(n: int, rest: string)
    requires 0 <= n < 0x10000
    ensures ParseHex4(Hex4(n) + rest) == Good(n, rest)
  {
    var s := Hex4(n) + rest;
    assert s[..4] == Hex4(n) && s[4..] == rest;
    assert Power16(4) == 0x10000;
    HexPadNumber(n, 4);
  }

  lemma UnitRoundTrip(n: int, rest: string)
    requires 0 <= n < 0x10000
    ensures var s := EscapeUnit(n) + rest;
            |s| >= 6 && s[0] == '\\' && s[1] == 'u' && s[..2] == "\\u" && ParseHex4(s[2..]) == Good(n, rest)
  {
    var s := EscapeUnit(n) + rest;
    assert s[2..] == Hex4(n) + rest;
    Hex4RoundTrip(n, rest);
  }

  /** A character above the basic plane and its two code units. */
  lemma Surrogates(c: char)
    requires c as int >= 0x10000
    ensures var n := c as int - 0x10000;
            && 0xD800 <= 0xD800 + n / 0x400 < 0xDC00 <= 0xDC00 + n % 0x400 < 0xE000
            && 0x10000 + n / 0x400 * 0x400 + n % 0x400 == c as int
  {}

  lemma PairRoundTrip(c: char, rest: string)
    requires c as int >= 0x10000
    ensures ParseChar(EscapeChar(c) + rest) == Good(c, rest)
  {
    var n := c as int - 0x10000;
    Surrogates(c);
    var (hi, lo) := (0xD800 + n / 0x400, 0xDC00 + n % 0x400);
    assert EscapeChar(c) == EscapeUnit(hi) + EscapeUnit(lo);
    UnitsRoundTrip(hi, lo, c, rest);
  }

  lemma UnitsRoundTrip(hi: int, lo: int, c: char, rest: string)
    requires 0xD800 <= hi < 0xDC00 <= lo < 0xE000
    requires c as int == 0x10000 + (hi - 0xD800) * 0x400 + (lo - 0xDC00)
    ensures ParseChar(EscapeUnit(hi) + EscapeUnit(lo) + rest) == Good(c, rest)
  {
    var tail := EscapeUnit(lo) + rest;
    assert EscapeUnit(hi) + EscapeUnit(lo) + rest == EscapeUnit(hi) + tail;
    UnitRoundTrip(hi, tail);
    UnitRoundTrip(lo, rest);
  }

  lemma CharRoundTrip(c: char, rest: string)
    ensures ParseChar(EscapeChar(c) + rest) == Good(c, rest)
  {
    var s := EscapeChar(c) + rest;
    if c as int >= 0x10000 {
      PairRoundTrip(c, rest);
    } else if EscapeChar(c) == EscapeUnit(c as int) {
      UnitRoundTrip(c as int, rest);
    } else if |EscapeChar(c)| == 1 {
      assert s[1..] == rest;
    } else {
      assert s[2..] == rest;
    }
  }

  /** Reading the printed body of a string, whatever follows its closing quote. */
  lemma {:induction false} StringRoundTrip(s: string, rest: string)
    ensures ParseString(Escape(s) + "\"" + rest) == Good(s, rest)
  {
    var text := Escape(s) + "\"" + rest;
    if s == "" {
      assert text[1..] == rest;
    } else {
      var tail := Escape(s[1..]) + "\"" + rest;
      assert text == EscapeChar(s[0]) + tail;
      CharRoundTrip(s[0], tail);
      assert text[0] != '"';
      StringRoundTrip(s[1..], rest);
      assert [s[0]] + s[1..] == s;
    }
  }

  predicate Printable(s: string) {
    forall i | 0 <= i < |s| :: ' ' <= s[i] <= '~'
  }

  lemma {:induction false} QuotePrintable(s: string)
    ensures Printable(Quote(s))
  {
    EscapePrintable(s);
  }

  lemma {:induction false} HexPadPrintable(n: nat, k: nat)
    ensures Printable(HexPad(n, k))
  {
    if k == 0 {
    } else {
      HexPadPrintable(n / 16, k - 1);
    }
  }

  lemma UnitPrintable(n: int)
    requires 0 <= n < 0x10000
    ensures Printable(EscapeUnit(n))
  {
    HexPadPrintable(n, 4);
  }

  lemma CharPrintable(c: char)
    ensures Printable(EscapeChar(c))
  {
    if c as int >= 0x10000 {
      var n := c as int - 0x10000;
      UnitPrintable(0xD800 + n / 0x400);
      UnitPrintable(0xDC00 + n % 0x400);
    } else {
      UnitPrintable(c as int);
    }
  }

  lemma {:induction false} EscapePrintable(s: string)
    ensures Printable(Escape(s))
  {
    if s == "" {
    } else {
      CharPrintable(s[0]);
      EscapePrintable(s[1..]);
    }
  }

  // ---- integers ---------------------------------------------------------------

  predicate IsDigit(c: char) {
    '0' <= c <= '9'
  }

  function Digits(n: nat): (s: string)
    ensures |s| > 0
  {
    var last := [(n % 10 + '0' as int) as char];
    if n < 10 then last else Digits(n / 10) + last
  }

  function Decimal(n: int): string {
    if n < 0 then "-" + Digits(-n) else Digits(n)
  }

  /** The longest run of digits at the front. */
  function DigitRun(s: string): (k: nat)
    ensures k <= |s|
    ensures forall i | 0 <= i < k :: IsDigit(s[i])
  {
    if s == "" || !IsDigit(s[0]) then 0 else 1 + DigitRun(s[1..])
  }

  function Value(s: string): nat
    requires forall i | 0 <= i < |s| :: IsDigit(s[i])
  {
    if s == "" then 0
    else
      assert IsDigit(s[|s| - 1]);
      Value(s[..|s| - 1]) * 10 + (s[|s| - 1] as int - '0' as int)
  }

  /** Digits without a superfluous leading zero. */
  function ParseNat(s: string): (r: Parsed<int>)
    ensures r.Good? ==> |r.rest| < |s|
  {
    var k := DigitRun(s);
    if k == 0 || (k > 1 && s[0] == '0') then Bad else Good(Value(s[..k]), s[k..])
  }

  function ParseInt(s: string): (r: Parsed<int>)
    ensures r.Good? ==> |r.rest| < |s|
  {
    if s != "" && s[0] == '-' then
      var r := ParseNat(s[1..]);
      if r.Bad? then Bad else Good(-r.value, r.rest)
    else ParseNat(s)
  }

  predicate NoDigitFirst(s: string) {
    s == "" || !IsDigit(s[0])
  }

  lemma {:induction false} DigitsValue(n: nat)
    ensures forall i | 0 <= i < |Digits(n)| :: IsDigit(Digits(n)[i])
    ensures Value(Digits(n)) == n
    ensures Digits(n)[0] == '0' ==> n == 0
  {
    if n < 10 {
    } else {
      DigitsValue(n / 10);
      assert Digits(n)[..|Digits(n)| - 1] == Digits(n / 10);
    }
  }

  lemma {:induction false} DigitRunOfPrefix(d: string, rest: string)
    requires forall i | 0 <= i < |d| :: IsDigit(d[i])
    requires NoDigitFirst(rest)
    ensures DigitRun(d + rest) == |d|
  {
    if d == "" {
      assert d + rest == rest;
    } else {
      assert (d + rest)[1..] == d[1..] + rest;
      DigitRunOfPrefix(d[1..], rest);
    }
  }

  lemma NatRoundTrip(n: nat, rest: string)
    requires NoDigitFirst(rest)
    ensures ParseNat(Digits(n) + rest) == Good(n, rest)
  {
    DigitsValue(n);
    DigitRunOfPrefix(Digits(n), rest);
    var s := Digits(n) + rest;
    assert s[..|Digits(n)|] == Digits(n) && s[|Digits(n)|..] == rest;
  }

  lemma IntRoundTrip(n: int, rest: string)
    requires NoDigitFirst(rest)
    ensures ParseInt(Decimal(n) + rest) == Good(n, rest)
  {
    if n < 0 {
      NatRoundTrip(-n, rest);
      SignRead(Digits(-n), rest);
    } else {
      NatRoundTrip(n, rest);
      DigitsValue(n);
      assert (Digits(n) + rest)[0] == Digits(n)[0];
    }
  }

  lemma SignRead(digits: string, rest: string)
    ensures var s := "-" + digits + rest;
            s[0] == '-' && s[1..] == digits + rest
  {}

  lemma DecimalPrintable(n: int)
    ensures Printable(Decimal(n))
  {
    DigitsValue(if n < 0 then -n else n);
  }

  // ---- the printed form, independently of how it is made ---------------------------

  /** A printable text that a reader takes for exactly this character. */
  predicate ReadsAs(t: string, c: char) {
    ParseChar(t) == Good(c, "") && Printable(t)
  }

  /** No hexadecimal letter of a long escape is in upper case. */
  ghost predicate LowerEscape(t: string) {
    |t| > 2 ==> forall i | 0 <= i < |t| :: !('A' <= t[i] <= 'F')
  }

  lemma {:induction false} HexPadUnique(s: string, n: int)
    requires |s| <= 4 && HexNumber(s) == Some(n)
    requires forall i | 0 <= i < |s| :: !('A' <= s[i] <= 'F')
    ensures s == HexPad(n, |s|)
  {
    if s == "" {
    } else {
      var (init, last) := (s[..|s| - 1], s[|s| - 1]);
      var (m, d) := (HexNumber(init).value, HexValue(last).value);
      HexPadUnique(init, m);
      LowerDigit(last);
      assert n == m * 16 + d && n / 16 == m && n % 16 == d;
    }
  }

  lemma {:induction false} HexPadLower(n: nat, k: nat)
    ensures forall i | 0 <= i < k :: !('A' <= HexPad(n, k)[i] <= 'F')
  {
    if k == 0 {
    } else {
      HexPadLower(n / 16, k - 1);
    }
  }

  lemma UnitLower(n: int)
    requires 0 <= n < 0x10000
    ensures forall i | 0 <= i < 6 :: !('A' <= EscapeUnit(n)[i] <= 'F')
  {
    HexPadLower(n, 4);
  }

  lemma EscapeLower(c: char)
    ensures LowerEscape(EscapeChar(c))
  {
    if c as int >= 0x10000 {
      var n := c as int - 0x10000;
      Surrogates(c);
      UnitLower(0xD800 + n / 0x400);
      UnitLower(0xDC00 + n % 0x400);
    } else {
      UnitLower(c as int);
    }
  }

  /** The four digits of one escaped code unit. */
  lemma UnitRead(t: string, n: int, rest: string)
    requires ParseHex4(t) == Good(n, rest)
    ensures |t| == 4 + |rest| && t == t[..4] + rest && HexNumber(t[..4]) == Some(n)
  {
    assert t == t[..4] + t[4..];
  }

  lemma EscapesAreShortest(c: char, t: string)
    requires ReadsAs(t, c)
    ensures |EscapeChar(c)| <= |t|
  {
    if t[0] != '\\' {
      assert |t| == 1 && t[0] == c;
    } else if t[1] != 'u' {
      assert |t| == 2;
    } else {
      UnicodeLength(c, t);
    }
  }

  lemma UnicodeLength(c: char, t: string)
    requires |t| >= 2 && t[0] == '\\' && t[1] == 'u' && ParseUnicode(t[2..]) == Good(c, "")
    ensures |t| == if c as int < 0x10000 then 6 else 12
  {
    var hi := ParseHex4(t[2..]);
    UnitRead(t[2..], hi.value, hi.rest);
    if 0xD800 <= hi.value < 0xE000 {
      var lo := ParseHex4(hi.rest[2..]);
      UnitRead(hi.rest[2..], lo.value, lo.rest);
    }
  }

  /** One escaped code unit in lower case is the printed one. */
  lemma UnitUnique(t: string, n: int, rest: string)
    requires |t| >= 2 && t[0] == '\\' && t[1] == 'u' && ParseHex4(t[2..]) == Good(n, rest)
    requires forall i | 0 <= i < |t| :: !('A' <= t[i] <= 'F')
    ensures t == EscapeUnit(n) + rest
  {
    UnitRead(t[2..], n, rest);
    var digits := t[2..][..4];
    assert forall i | 0 <= i < 4 :: digits[i] == t[i + 2];
    HexPadUnique(digits, n);
    assert t == t[..2] + t[2..];
  }

  lemma UnicodeUnique(c: char, t: string)
    requires |t| > 2 && LowerEscape(t) && t[0] == '\\' && t[1] == 'u' && ParseUnicode(t[2..]) == Good(c, "")
    requires |EscapeChar(c)| == |t|
    ensures t == EscapeChar(c)
  {
    var hi := ParseHex4(t[2..]);
    UnitUnique(t, hi.value, hi.rest);
    UnicodeLength(c, t);
    if 0xD800 <= hi.value < 0xE000 {
      var lo := ParseHex4(hi.rest[2..]);
      assert t[6..] == hi.rest;
      PairUnique(c, hi.value, lo.value, hi.rest);
    }
  }

  lemma PairUnique(c: char, hi: int, lo: int, t: string)
    requires 0xD800 <= hi < 0xDC00 <= lo < 0xE000 && c as int == 0x10000 + (hi - 0xD800) * 0x400 + (lo - 0xDC00)
    requires |t| >= 2 && t[0] == '\\' && t[1] == 'u' && ParseHex4(t[2..]) == Good(lo, "")
    requires forall i | 0 <= i < |t| :: !('A' <= t[i] <= 'F')
    ensures EscapeUnit(hi) + t == EscapeChar(c)
  {
    UnitUnique(t, lo, "");
    assert EscapeUnit(lo) + "" == EscapeUnit(lo);
    var n := c as int - 0x10000;
    assert n / 0x400 == hi - 0xD800 && n % 0x400 == lo - 0xDC00;
  }

  /** A character is printed as the shortest printable text that reads back as it, with its
      hexadecimal letters in lower case; there is only one such text. */
  lemma EscapeIff(c: char, t: string)
    ensures t == EscapeChar(c) <==>
              ReadsAs(t, c) && LowerEscape(t) && forall u :: ReadsAs(u, c) ==> |t| <= |u|
  {
    CharRoundTrip(c, "");
    assert EscapeChar(c) + "" == EscapeChar(c);
    CharPrintable(c);
    EscapeLower(c);
    forall u | ReadsAs(u, c) ensures |EscapeChar(c)| <= |u| {
      EscapesAreShortest(c, u);
    }
    if ReadsAs(t, c) && LowerEscape(t) && |t| <= |EscapeChar(c)| {
      ShortestIsPrinted(c, t);
    }
  }

  lemma ShortestIsPrinted(c: char, t: string)
    requires ReadsAs(t, c) && LowerEscape(t) && |t| <= |EscapeChar(c)|
    ensures t == EscapeChar(c)
  {
    EscapesAreShortest(c, t);
    if t[0] != '\\' {
      assert t == [c];
    } else if t[1] != 'u' {
      assert t == [t[0], t[1]];
    } else {
      UnicodeUnique(c, t);
    }
  }

  /** Reading one character looks only at the text it consumes. */
  lemma CharPrefix(t: string)
    requires ParseChar(t).Good?
    ensures var (c, rest) := (ParseChar(t).value, ParseChar(t).rest);
            var own := t[..|t| - |rest|];
            t == own + rest && ParseChar(own) == Good(c, "")
  {
    var r := ParseChar(t);
    var own := t[..|t| - |r.rest|];
    if t[0] != '\\' {
      assert own == [t[0]];
    } else if t[1] != 'u' {
      assert own == [t[0], t[1]] && t[2..] == r.rest;
    } else {
      UnicodePrefix(t);
    }
  }

  lemma UnicodePrefix(t: string)
    requires |t| >= 2 && t[0] == '\\' && t[1] == 'u' && ParseUnicode(t[2..]).Good?
    ensures var r := ParseUnicode(t[2..]);
            var own := t[..|t| - |r.rest|];
            t == own + r.rest && ParseChar(own) == Good(r.value, "")
  {
    var hi := ParseHex4(t[2..]);
    assert hi.rest == t[6..] && t[2..][..4] == t[2..6];
    if hi.value < 0xD800 || 0xE000 <= hi.value {
      UnitPrefix(t, hi.value);
    } else {
      var rest := hi.rest;
      var lo := ParseHex4(rest[2..]);
      assert rest[..2] == "\\u" && rest[0] == rest[..2][0] && rest[1] == rest[..2][1];
      assert rest[2..] == t[8..] && t[8..][..4] == t[8..12] && lo.rest == t[12..];
      PairPrefix(t, hi.value, lo.value);
    }
  }

  lemma UnitPrefix(t: string, n: int)
    requires |t| >= 6 && t[0] == '\\' && t[1] == 'u' && HexNumber(t[2..6]) == Some(n)
    requires n < 0xD800 || 0xE000 <= n < 0x10000
    ensures t == t[..6] + t[6..] && ParseChar(t[..6]) == Good(n as char, "")
  {
    var own := t[..6];
    assert own[2..][..4] == t[2..6] && own[2..][4..] == "";
  }

  /** Twelve characters that hold two escaped units, and what they are in a longer text. */
  lemma PairPrefix(t: string, hi: int, lo: int)
    requires |t| >= 12 && t[0] == '\\' && t[1] == 'u' && t[6] == '\\' && t[7] == 'u'
    requires HexNumber(t[2..6]) == Some(hi) && HexNumber(t[8..12]) == Some(lo)
    requires 0xD800 <= hi < 0xDC00 <= lo < 0xE000
    ensures t == t[..12] + t[12..]
    ensures ParseChar(t[..12]) == Good((0x10000 + (hi - 0xD800) * 0x400 + (lo - 0xDC00)) as char, "")
  {
    var own := t[..12];
    assert own[2..][..4] == t[2..6];
    assert ParseHex4(own[2..]) == Good(hi, own[6..]) by { assert own[2..][4..] == own[6..]; }
    assert own[6..][..2] == "\\u";
    assert own[6..][2..][..4] == t[8..12] && own[6..][2..][4..] == "";
  }

  /** No printable text of a string is shorter than the printed one. */
  lemma {:induction false} StringIsShortest(t: string)
    requires Printable(t) && ParseString(t).Good?
    ensures Printable(ParseString(t).rest)
    ensures |Escape(ParseString(t).value)| + 1 + |ParseString(t).rest| <= |t|
    decreases |t|
  {
    if t[0] == '"' {
    } else {
      var c := ParseChar(t);
      CharPrefix(t);
      var own := t[..|t| - |c.rest|];
      assert Printable(own) && forall i | 0 <= i < |c.rest| :: c.rest[i] == t[|own| + i];
      EscapesAreShortest(c.value, own);
      StringIsShortest(c.rest);
      var s := ParseString(t).value;
      assert s[0] == c.value && s[1..] == ParseString(c.rest).value;
    }
  }

  lemma {:induction false} DigitsUnique(s: string)
    requires s != "" && (forall i | 0 <= i < |s| :: IsDigit(s[i])) && (s[0] == '0' ==> |s| == 1)
    ensures s == Digits(Value(s)) && (s[0] != '0' ==> Value(s) > 0)
  {
    if |s| == 1 {
      assert Value(s[..0]) == 0;
    } else {
      var (init, last) := (s[..|s| - 1], s[|s| - 1]);
      DigitsUnique(init);
      assert Value(s) / 10 == Value(init) && Value(s) % 10 == last as int - '0' as int;
    }
  }

  lemma NatUnique(t: string, n: int)
    requires ParseNat(t) == Good(n, "")
    ensures n >= 0 && t == Digits(n)
  {
    var k := DigitRun(t);
    assert t[..k] == t && t[k..] == "";
    DigitsUnique(t);
  }

  lemma IntUnique(t: string, n: int)
    requires ParseInt(t) == Good(n, "") && t != "-0"
    ensures t == Decimal(n)
  {
    if t[0] == '-' {
      NatUnique(t[1..], -n);
      assert t == "-" + t[1..];
    } else {
      NatUnique(t, n);
    }
  }

  lemma NoNegativeZero(n: int)
    ensures Decimal(n) != "-0"
  {
    DigitsValue(if n < 0 then -n else n);
    if n < 0 { assert Decimal(n)[1] == Digits(-n)[0]; }
  }

  /** An integer is printed as the one text that reads back as it, but for a negative zero. */
  lemma DecimalIff(n: int, t: string)
    ensures t == Decimal(n) <==> ParseInt(t) == Good(n, "") && t != "-0"
  {
    IntRoundTrip(n, "");
    assert Decimal(n) + "" == Decimal(n);
    NoNegativeZero(n);
    if ParseInt(t) == Good(n, "") && t != "-0" { IntUnique(t, n); }
  }

  /** No text of an integer is shorter than the printed one. */
  lemma IntIsShortest(t: string)
    requires Printable(t) && ParseInt(t).Good?
    ensures Printable(ParseInt(t).rest) && |Decimal(ParseInt(t).value)| + |ParseInt(t).rest| <= |t|
  {
    if t[0] == '-' {
      NatIsShortest(t[1..]);
      var n := ParseNat(t[1..]).value;
      assert Decimal(-n) == if n == 0 then Digits(n) else "-" + Digits(n);
    } else {
      NatIsShortest(t);
    }
  }

  lemma NatIsShortest(t: string)
    requires Printable(t) && ParseNat(t).Good?
    ensures var r := ParseNat(t);
            r.value >= 0 && Printable(r.rest) && |Digits(r.value)| + |r.rest| == |t|
  {
    var k := DigitRun(t);
    assert t[..k][0] == t[0];
    DigitsUnique(t[..k]);
  }
}
