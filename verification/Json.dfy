/** JSON values, the canonical printer of src/nexuscone/canonical.py and a reader for
    its output. A dict is its members in insertion order. */
module Json {
  import opened Base
  import opened JsonText
  import Text

  datatype Json =
    | Null
    | Bool(b: bool)
    | Int(n: int)
    | Str(s: string)
    | Arr(items: seq<Json>)
    | Obj(members: seq<Member>)

  datatype Member = Member(key: string, value: Json)

  ghost predicate DistinctKeys(ms: seq<Member>) {
    forall i, j | 0 <= i < j < |ms| :: ms[i].key != ms[j].key
  }

  /** A value Python can hold: no dict in it has a key twice. */
  ghost predicate WellFormed(v: Json) {
    match v
    case Arr(items) => forall i | 0 <= i < |items| :: WellFormed(items[i])
    case Obj(ms) => DistinctKeys(ms) && forall i | 0 <= i < |ms| :: WellFormed(ms[i].value)
    case _ => true
  }

  /** Equality of values: dicts are compared as maps, without regard to the order in
      which their keys were inserted. */
  ghost predicate Same(a: Json, b: Json)
    decreases a, 1
  {
    match (a, b)
    case (Arr(xs), Arr(ys)) =>
      |xs| == |ys| && forall i | 0 <= i < |xs| :: Same(xs[i], ys[i])
    case (Obj(ms), Obj(ns)) =>
      && (forall i | 0 <= i < |ms| :: HasTwin(ms[i], ns))
      && (forall j | 0 <= j < |ns| :: HasSource(ms, ns[j]))
    case _ => a == b
  }

  /** The dict `ns` has the key of `m`, with the same value. */
  ghost predicate HasTwin(m: Member, ns: seq<Member>)
    decreases m, 0
  {
    exists j | 0 <= j < |ns| :: m.key == ns[j].key && Same(m.value, ns[j].value)
  }

  /** The key of `n` is in the dict `ms`, with the same value. */
  ghost predicate HasSource(ms: seq<Member>, n: Member)
    decreases ms, 0
  {
    exists i | 0 <= i < |ms| :: ms[i].key == n.key && Same(ms[i].value, n.value)
  }

  // ---- printing ---------------------------------------------------------------

  /** Insertion of one member into members already sorted by key. */
  function InsertMember(m: Member, sorted: seq<Member>): seq<Member> {
    if sorted == [] || Text.Less(m.key, sorted[0].key) then [m] + sorted
    else [sorted[0]] + InsertMember(m, sorted[1..])
  }

  function SortMembers(ms: seq<Member>): seq<Member> {
    if ms == [] then [] else InsertMember(ms[0], SortMembers(ms[1..]))
  }

  /** The same value with the members of every dict sorted by key. */
  function Canon(v: Json): Json
    decreases v, 1
  {
    match v
    case Arr(items) => Arr(CanonItems(items))
    case Obj(ms) => Obj(SortMembers(CanonMembers(ms)))
    case _ => v
  }

  function CanonItems(items: seq<Json>): (r: seq<Json>)
    ensures |r| == |items|
    ensures forall i | 0 <= i < |items| :: r[i] == Canon(items[i])
    decreases items, 0
  {
    if items == [] then [] else [Canon(items[0])] + CanonItems(items[1..])
  }

  function CanonMembers(ms: seq<Member>): (r: seq<Member>)
    ensures |r| == |ms|
    ensures forall i | 0 <= i < |ms| :: r[i] == Member(ms[i].key, Canon(ms[i].value))
    decreases ms, 0
  {
    if ms == [] then []
    else [Member(ms[0].key, Canon(ms[0].value))] + CanonMembers(ms[1..])
  }

  /** Text of a value, members in the order in which they are stored. */
  function Render(v: Json): string
    decreases v, 1
  {
    match v
    case Null => "null"
    case Bool(b) => if b then "true" else "false"
    case Int(n) => Decimal(n)
    case Str(s) => Quote(s)
    case Arr(items) => "[" + RenderItems(items) + "]"
    case Obj(ms) => "{" + RenderMembers(ms) + "}"
  }

  function RenderItems(items: seq<Json>): string
    decreases items, 0
  {
    if items == [] then ""
    else if |items| == 1 then Render(items[0])
    else Render(items[0]) + "," + RenderItems(items[1..])
  }

  function RenderMember(m: Member): string
    decreases m, 0
  {
    Quote(m.key) + ":" + Render(m.value)
  }

  function RenderMembers(ms: seq<Member>): string
    decreases ms, 0
  {
    if ms == [] then ""
    else if |ms| == 1 then RenderMember(ms[0])
    else RenderMember(ms[0]) + "," + RenderMembers(ms[1..])
  }

  /** `canonical_json`: sorted keys, separators `,` and `:`, ASCII escaping. */
  function CanonicalJson(v: Json): string {
    Render(Canon(v))
  }

  // ---- reading ----------------------------------------------------------------

  function ParseWord(s: string, word: string, v: Json): (r: Parsed<Json>)
    requires |word| > 0
    ensures r.Good? ==> |r.rest| < |s|
  {
    if |word| <= |s| && s[..|word|] == word then Good(v, s[|word|..]) else Bad
  }

  function ParseValue(s: string): (r: Parsed<Json>)
    ensures r.Good? ==> |r.rest| < |s|
    decreases |s|, 1
  {
    if s == "" then Bad
    else
      match s[0]
      case 'n' => ParseWord(s, "null", Null)
      case 't' => ParseWord(s, "true", Bool(true))
      case 'f' => ParseWord(s, "false", Bool(false))
      case '"' =>
        var r := ParseString(s[1..]);
        if r.Bad? then Bad else Good(Str(r.value), r.rest)
      case '[' =>
        if |s| > 1 && s[1] == ']' then Good(Arr([]), s[2..])
        else
          var r := ParseItems(s[1..]);
          if r.Bad? then Bad else Good(Arr(r.value), r.rest)
      case '{' =>
        if |s| > 1 && s[1] == '}' then Good(Obj([]), s[2..])
        else
          var r := ParseMembers(s[1..]);
          if r.Bad? then Bad else Good(Obj(r.value), r.rest)
      case _ =>
        var r := ParseInt(s);
        if r.Bad? then Bad else Good(Int(r.value), r.rest)
  }

  /** One or more values separated by commas, up to the closing bracket. */
  function ParseItems(s: string): (r: Parsed<seq<Json>>)
    ensures r.Good? ==> |r.rest| < |s|
    decreases |s|, 2
  {
    var v := ParseValue(s);
    if v.Bad? || v.rest == "" then Bad
    else if v.rest[0] == ']' then Good([v.value], v.rest[1..])
    else if v.rest[0] != ',' then Bad
    else
      var tail := ParseItems(v.rest[1..]);
      if tail.Bad? then Bad else Good([v.value] + tail.value, tail.rest)
  }

  function ParseMember(s: string): (r: Parsed<Member>)
    ensures r.Good? ==> |r.rest| < |s|
    decreases |s|, 2
  {
    if s == "" || s[0] != '"' then Bad
    else
      var k := ParseString(s[1..]);
      if k.Bad? || k.rest == "" || k.rest[0] != ':' then Bad
      else
        var v := ParseValue(k.rest[1..]);
        if v.Bad? then Bad else Good(Member(k.value, v.value), v.rest)
  }

  function ParseMembers(s: string): (r: Parsed<seq<Member>>)
    ensures r.Good? ==> |r.rest| < |s|
    decreases |s|, 3
  {
    var m := ParseMember(s);
    if m.Bad? || m.rest == "" then Bad
    else if m.rest[0] == '}' then Good([m.value], m.rest[1..])
    else if m.rest[0] != ',' then Bad
    else
      var tail := ParseMembers(m.rest[1..]);
      if tail.Bad? then Bad else Good([m.value] + tail.value, tail.rest)
  }

  /** `json.loads` on text without insignificant whitespace. */
  function Loads(s: string): Option<Json> {
    var r := ParseValue(s);
    if r.Good? && r.rest == "" then Some(r.value) else None
  }
}
