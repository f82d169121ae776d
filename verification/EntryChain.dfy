/** The rows of the entries table, their hash and the chain they form. */
module EntryChain {
  import opened Base
  import opened Crypto
  import opened Json
  import opened Canonical

  /** Sixty-four zeros. */
  const GENESIS: string := Zeros(64)

  function Zeros(n: nat): string {
    if n == 0 then "" else "0" + Zeros(n - 1)
  }

  const REQUEST := "request"

  const CURRENT_FORMAT_VERSION := 2

  /** One row. The last two columns of the v0.2.0 schema are None in a table that does
      not have the column. */
  datatype EntryRow = EntryRow(
    entryId: int,
    timestamp: string,
    actor: string,
    action: string,
    payload: string,
    previousHash: string,
    entryHash: string,
    signature: Option<string>,
    signingKeyId: Option<string>,
    eventType: Option<string>,
    formatVersion: Option<int>)
  {
    /** The event type the verifier uses, with its fallback for a missing column. */
    function EventType(): string {
      if eventType.Some? then eventType.value else REQUEST
    }

    function FormatVersion(): int {
      if formatVersion.Some? then formatVersion.value else 1
    }
  }

  /** The dict that is hashed, in the order in which it is built. */
  function HashedFields(row: EntryRow): seq<Member> {
    [ Member("entry_id", Int(row.entryId)),
      Member("timestamp", Str(row.timestamp)),
      Member("actor", Str(row.actor)),
      Member("action", Str(row.action)),
      Member("payload", Str(row.payload)),
      Member("previous_hash", Str(row.previousHash))
    ] + if row.FormatVersion() >= 2 then [Member("event_type", Str(row.EventType()))] else []
  }

  /** The text under the entry hash. */
  function Preimage(row: EntryRow): string {
    CanonicalJson(Obj(HashedFields(row)))
  }

  /** `_compute_entry_hash` on the fields of a row; its entry hash is not read. */
  function ComputeEntryHash(c: Crypto, row: EntryRow): string {
    Sha256Hex(c, Preimage(row))
  }

  // ---- what the hash covers ------------------------------------------------------

  /** Agreement on every field under the hash: signatures and key ids are outside it,
      and so is the event type of a version 1 row. */
  predicate SameCovered(a: EntryRow, b: EntryRow) {
    && a.entryId == b.entryId
    && a.timestamp == b.timestamp
    && a.actor == b.actor
    && a.action == b.action
    && a.payload == b.payload
    && a.previousHash == b.previousHash
    && (a.FormatVersion() >= 2 <==> b.FormatVersion() >= 2)
    && (a.FormatVersion() >= 2 ==> a.EventType() == b.EventType())
  }

  /** The keys of the hashed dict differ in length, so a key is known by its length. */
  function KeyLength(i: nat): nat {
    match i
    case 0 => 8
    case 1 => 9
    case 2 => 5
    case 3 => 6
    case 4 => 7
    case 5 => 13
    case _ => 10
  }

  ghost predicate KeysInPlace(ms: seq<Member>) {
    |ms| <= 7 && forall i | 0 <= i < |ms| :: |ms[i].key| == KeyLength(i)
  }

  lemma FieldKeys(row: EntryRow)
    ensures KeysInPlace(HashedFields(row))
    ensures WellFormed(Obj(HashedFields(row)))
  {
    var ms := HashedFields(row);
    forall i, j | 0 <= i < j < |ms| ensures ms[i].key != ms[j].key {
      assert |ms[i].key| != |ms[j].key|;
    }
  }

  lemma FieldValues(row: EntryRow)
    ensures var ms := HashedFields(row);
            && |ms| == (if row.FormatVersion() >= 2 then 7 else 6)
            && ms[0].value == Int(row.entryId) && ms[1].value == Str(row.timestamp)
            && ms[2].value == Str(row.actor) && ms[3].value == Str(row.action)
            && ms[4].value == Str(row.payload) && ms[5].value == Str(row.previousHash)
            && (row.FormatVersion() >= 2 ==> ms[6].value == Str(row.EventType()))
            && forall i | 0 <= i < |ms| :: ms[i].value.Int? || ms[i].value.Str?
  {}

  lemma SameLeaf(a: Json, b: Json)
    requires Same(a, b) && (a.Int? || a.Str?)
    ensures a == b
  {}

  lemma KeyLengthInjective(i: nat, j: nat)
    requires i < 7 && j < 7 && KeyLength(i) == KeyLength(j)
    ensures i == j
  {}

  lemma KeysMeetInPlace(ms: seq<Member>, ns: seq<Member>)
    requires KeysInPlace(ms) && KeysInPlace(ns)
    ensures forall i, j | 0 <= i < |ms| && 0 <= j < |ns| :: ms[i].key == ns[j].key ==> i == j
  {
    forall i, j | 0 <= i < |ms| && 0 <= j < |ns| && ms[i].key == ns[j].key ensures i == j {
      KeyLengthInjective(i, j);
    }
  }

  lemma SameLeaves(ms: seq<Member>, ns: seq<Member>)
    requires KeysInPlace(ms) && KeysInPlace(ns) && Same(Obj(ms), Obj(ns))
    requires forall i | 0 <= i < |ms| :: ms[i].value.Int? || ms[i].value.Str?
    ensures |ms| == |ns|
    ensures forall i | 0 <= i < |ms| :: ms[i].value == ns[i].value
  {
    KeysMeetInPlace(ms, ns);
    SameByPosition(ms, ns);
    forall i | 0 <= i < |ms| ensures ms[i].value == ns[i].value {
      SameLeaf(ms[i].value, ns[i].value);
    }
  }

  lemma SameFieldsCovered(a: EntryRow, b: EntryRow)
    requires Same(Obj(HashedFields(a)), Obj(HashedFields(b)))
    ensures SameCovered(a, b)
  {
    FieldKeys(a);
    FieldKeys(b);
    FieldValues(a);
    FieldValues(b);
    SameLeaves(HashedFields(a), HashedFields(b));
  }

  /** Two rows have the same preimage exactly when they agree on the covered fields;
      in particular no version 1 preimage is a version 2 preimage. */
  lemma PreimageIffCovered(a: EntryRow, b: EntryRow)
    ensures Preimage(a) == Preimage(b) <==> SameCovered(a, b)
  {
    FieldKeys(a);
    FieldKeys(b);
    CanonicalIffSame(Obj(HashedFields(a)), Obj(HashedFields(b)));
    if Preimage(a) == Preimage(b) {
      SameFieldsCovered(a, b);
    }
  }
}
