/** Small vocabulary shared by every module: optional values, results, bytes and
    their hexadecimal text. */
module Base {

  datatype Option<+T> = None | Some(value: T)

  datatype Result<+T, +E> = Ok(value: T) | Err(error: E)

  newtype byte = b: int | 0 <= b < 256

  type Bytes = seq<byte>

  function HexDigit(n: int): (c: char)
    requires 0 <= n < 16
  {
    if n < 10 then (n + '0' as int) as char else (n - 10 + 'a' as int) as char
  }

  /** The value of one hexadecimal digit; both letter cases are accepted. */
  function HexValue(c: char): Option<int> {
    if '0' <= c <= '9' then Some(c as int - '0' as int)
    else if 'a' <= c <= 'f' then Some(c as int - 'a' as int + 10)
    else if 'A' <= c <= 'F' then Some(c as int - 'A' as int + 10)
    else None
  }

  predicate IsHexSpace(c: char) {
    c == ' ' || ('\t' <= c <= '\r')
  }

  /** `bytes.hex()` */
  function ToHex(bs: Bytes): string {
    if bs == [] then ""
    else [HexDigit(bs[0] as int / 16), HexDigit(bs[0] as int % 16)] + ToHex(bs[1..])
  }

  /** `bytes.fromhex(text)`: whitespace between the pairs is skipped, None stands for
      the ValueError. */
  function FromHex(text: string): Option<Bytes> {
    if text == "" then Some([])
    else if IsHexSpace(text[0]) then FromHex(text[1..])
    else if |text| < 2 then None
    else
      match (HexValue(text[0]), HexValue(text[1]), FromHex(text[2..]))
      case (Some(hi), Some(lo), Some(tail)) => Some([HexByte(hi, lo)] + tail)
      case _ => None
  }

  function HexByte(hi: int, lo: int): byte {
    ((hi * 16 + lo) % 256) as byte
  }

  lemma BytePair(b: byte)
    ensures var (hi, lo) := (HexDigit(b as int / 16), HexDigit(b as int % 16));
            && !IsHexSpace(hi)
            && HexValue(hi) == Some(b as int / 16) && HexValue(lo) == Some(b as int % 16)
            && HexByte(b as int / 16, b as int % 16) == b
  {}

  lemma {:induction false} HexRoundTrip(bs: Bytes)
    ensures FromHex(ToHex(bs)) == Some(bs)
  {
    if bs == [] {
    } else {
      BytePair(bs[0]);
      HexRoundTrip(bs[1..]);
      assert ToHex(bs)[2..] == ToHex(bs[1..]);
      assert [bs[0]] + bs[1..] == bs;
    }
  }

  /** Equal hexadecimal digests mean equal digests. */
  lemma HexInjective(a: Bytes, b: Bytes)
    requires ToHex(a) == ToHex(b)
    ensures a == b
  {
    HexRoundTrip(a);
    HexRoundTrip(b);
  }

  // ---- the texts, independently of how they are made ---------------------------------

  predicate IsLowerHex(c: char) {
    '0' <= c <= '9' || 'a' <= c <= 'f'
  }

  ghost predicate LowerHex(text: string) {
    forall i | 0 <= i < |text| :: IsLowerHex(text[i])
  }

  lemma LowerDigit(c: char)
    requires IsLowerHex(c)
    ensures HexValue(c).Some? && 0 <= HexValue(c).value < 16 && HexDigit(HexValue(c).value) == c
  {}

  lemma ByteParts(hi: int, lo: int)
    requires 0 <= hi < 16 && 0 <= lo < 16
    ensures HexByte(hi, lo) as int / 16 == hi && HexByte(hi, lo) as int % 16 == lo
  {}

  lemma ByteOfPair(a: char, b: char)
    requires IsLowerHex(a) && IsLowerHex(b)
    ensures HexValue(a).Some? && HexValue(b).Some?
    ensures var n := HexByte(HexValue(a).value, HexValue(b).value) as int;
            HexDigit(n / 16) == a && HexDigit(n % 16) == b
  {
    LowerDigit(a);
    LowerDigit(b);
    ByteParts(HexValue(a).value, HexValue(b).value);
  }

  lemma LowerHexReadsOn(text: string)
    requires LowerHex(text) && text != "" && FromHex(text).Some?
    ensures |text| >= 2 && FromHex(text[2..]).Some?
    ensures FromHex(text).value == [HexByte(HexValue(text[0]).value, HexValue(text[1]).value)] + FromHex(text[2..]).value
  {
    assert !IsHexSpace(text[0]);
  }

  /** `bytes.hex()` is the one text in lower-case digits that `bytes.fromhex` reads as these
      bytes. */
  lemma {:induction false} ToHexIff(text: string, bs: Bytes)
    ensures text == ToHex(bs) <==> LowerHex(text) && FromHex(text) == Some(bs)
    decreases |text|
  {
    HexRoundTrip(bs);
    ToHexLower(bs);
    if text == "" {
    } else if LowerHex(text) && FromHex(text) == Some(bs) {
      LowerHexReadsOn(text);
      ByteOfPair(text[0], text[1]);
      assert bs[1..] == FromHex(text[2..]).value;
      ToHexIff(text[2..], bs[1..]);
      assert text == [text[0], text[1]] + text[2..];
    }
  }

  lemma {:induction false} ToHexLower(bs: Bytes)
    ensures LowerHex(ToHex(bs)) && |ToHex(bs)| == 2 * |bs|
  {
    if bs == [] {
    } else {
      ToHexLower(bs[1..]);
      assert IsLowerHex(HexDigit(bs[0] as int / 16)) && IsLowerHex(HexDigit(bs[0] as int % 16));
    }
  }

  lemma FromHexStep(text: string)
    requires |text| >= 2 && !IsHexSpace(text[0])
    ensures FromHex(text).Some? <==> HexValue(text[0]).Some? && HexValue(text[1]).Some? && FromHex(text[2..]).Some?
  {}

  /** What `bytes.fromhex` accepts, apart from spaces: pairs of digits of either case. */
  lemma {:induction false} FromHexIff(text: string)
    requires forall i | 0 <= i < |text| :: !IsHexSpace(text[i])
    ensures FromHex(text).Some? <==> |text| % 2 == 0 && forall i | 0 <= i < |text| :: HexValue(text[i]).Some?
    decreases |text|
  {
    if |text| < 2 {
    } else {
      var rest := text[2..];
      FromHexStep(text);
      FromHexIff(rest);
      assert (forall i | 0 <= i < |rest| :: HexValue(rest[i]).Some?) <==> forall i | 2 <= i < |text| :: HexValue(text[i]).Some? by {
        assert forall i | 2 <= i < |text| :: text[i] == rest[i - 2];
      }
    }
  }

  function LowerDigitOf(c: char): char {
    if 'A' <= c <= 'F' then (c as int - 'A' as int + 'a' as int) as char else c
  }

  function Lowered(text: string): (r: string)
    ensures |r| == |text| && forall i | 0 <= i < |text| :: r[i] == LowerDigitOf(text[i])
  {
    if text == "" then "" else [LowerDigitOf(text[0])] + Lowered(text[1..])
  }

  lemma LoweredDigit(c: char)
    ensures HexValue(LowerDigitOf(c)) == HexValue(c) && (IsHexSpace(LowerDigitOf(c)) <==> IsHexSpace(c))
  {}

  /** Digits are read alike in either case. */
  lemma {:induction false} CaseDoesNotMatter(text: string)
    ensures FromHex(Lowered(text)) == FromHex(text)
    decreases |text|
  {
    if text == "" {
    } else if IsHexSpace(text[0]) {
      LoweredDigit(text[0]);
      assert Lowered(text)[1..] == Lowered(text[1..]);
      CaseDoesNotMatter(text[1..]);
    } else if |text| == 1 {
      LoweredDigit(text[0]);
    } else {
      LoweredDigit(text[0]);
      LoweredDigit(text[1]);
      assert Lowered(text)[2..] == Lowered(text[2..]);
      CaseDoesNotMatter(text[2..]);
    }
  }

  /** Spaces between the bytes are skipped. */
  lemma {:induction false} SpacesAreSkipped(a: string, space: char, b: string)
    requires IsHexSpace(space) && FromHex(a).Some?
    ensures FromHex(a + [space] + b) == if FromHex(b).Some? then Some(FromHex(a).value + FromHex(b).value) else None
    decreases |a|
  {
    var text := a + [space] + b;
    if a == "" {
      assert text[1..] == b;
      assert FromHex(b).Some? ==> FromHex(a).value + FromHex(b).value == FromHex(b).value;
    } else if IsHexSpace(a[0]) {
      assert text[1..] == a[1..] + [space] + b;
      SpacesAreSkipped(a[1..], space, b);
    } else {
      assert text[2..] == a[2..] + [space] + b;
      SpacesAreSkipped(a[2..], space, b);
      var byte := HexByte(HexValue(a[0]).value, HexValue(a[1]).value);
      if FromHex(b).Some? {
        assert [byte] + (FromHex(a[2..]).value + FromHex(b).value) == FromHex(a).value + FromHex(b).value;
      }
    }
  }
}
