/** The hashed texts, written out key by key: an independent statement of what goes under
    the two hashes, and of the values that stand in the source as literals. */
module HashText {
  import opened Base
  import opened Crypto
  import opened JsonText
  import opened Json
  import opened Canonical
  import opened EntryChain
  import opened WitnessChain
  import Text

  /** One member of a dict, its key being plain text. */
  function Line(key: string, value: string): string {
    "\"" + key + "\":" + value
  }

  function CommaJoined(lines: seq<string>): string
    requires lines != []
  {
    if |lines| == 1 then lines[0] else lines[0] + "," + CommaJoined(lines[1..])
  }

  ghost predicate Plain(key: string) {
    forall i | 0 <= i < |key| :: 'a' <= key[i] <= 'z' || key[i] == '_'
  }

  lemma {:induction false} PlainEscape(key: string)
    requires Plain(key)
    ensures Escape(key) == key
  {
    if key == "" {
    } else {
      PlainEscape(key[1..]);
      assert [key[0]] + key[1..] == key;
    }
  }

  /** The line is that of the member. */
  ghost predicate IsLine(line: string, m: Member) {
    Plain(m.key) && line == Line(m.key, Render(m.value))
  }

  lemma StrLine(key: string, text: string)
    requires Plain(key)
    ensures IsLine(Line(key, Quote(text)), Member(key, Str(text)))
  {}

  lemma IntLine(key: string, n: int)
    requires Plain(key)
    ensures IsLine(Line(key, Decimal(n)), Member(key, Int(n)))
  {}

  lemma MemberText(m: Member)
    requires Plain(m.key)
    ensures RenderMember(m) == Line(m.key, Render(m.value))
  {
    PlainEscape(m.key);
    assert "\"" + m.key + "\"" + ":" + Render(m.value) == "\"" + m.key + "\":" + Render(m.value);
  }

  lemma {:induction false} MembersText(ms: seq<Member>, lines: seq<string>)
    requires |ms| == |lines| > 0 && forall i | 0 <= i < |ms| :: IsLine(lines[i], ms[i])
    ensures RenderMembers(ms) == CommaJoined(lines)
    decreases |ms|
  {
    MemberText(ms[0]);
    if |ms| == 1 {
    } else {
      MembersText(ms[1..], lines[1..]);
    }
  }

  lemma {:induction false} LessAt(a: string, b: string, k: nat)
    requires k < |a| && k < |b| && a[k] < b[k] && forall i | 0 <= i < k :: a[i] == b[i]
    ensures Text.Less(a, b)
  {
    if k == 0 {
    } else {
      LessAt(a[1..], b[1..], k - 1);
    }
  }

  lemma {:induction false} SortedBySteps(ms: seq<Member>)
    requires forall i | 0 < i < |ms| :: Text.Less(ms[i - 1].key, ms[i].key)
    ensures Sorted(ms)
  {
    if ms == [] {
    } else {
      var init := ms[..|ms| - 1];
      SortedBySteps(init);
      forall i | 0 <= i < |init| ensures Text.Less(ms[i].key, ms[|ms| - 1].key) {
        if i < |init| - 1 {
          Text.LessTransitive(ms[i].key, ms[|init| - 1].key, ms[|ms| - 1].key);
        }
      }
    }
  }

  ghost predicate Leaves(ms: seq<Member>) {
    forall i | 0 <= i < |ms| :: ms[i].value.Int? || ms[i].value.Str?
  }

  /** A dict of leaves prints as its members in the order of their keys. */
  lemma DictText(ms: seq<Member>, sorted: seq<Member>, lines: seq<string>)
    requires DistinctKeys(ms) && Leaves(ms) && Sorted(sorted) && forall x :: x in ms <==> x in sorted
    requires |sorted| == |lines| > 0 && forall i | 0 <= i < |sorted| :: IsLine(lines[i], sorted[i])
    ensures CanonicalJson(Obj(ms)) == "{" + CommaJoined(lines) + "}"
  {
    assert CanonMembers(ms) == ms;
    SortKeeps(ms);
    SortSorts(ms);
    SortedUnique(SortMembers(ms), sorted);
    MembersText(sorted, lines);
  }

  // ---- the entry hash ------------------------------------------------------------------------

  /** The text under the hash of a row of format version 1. */
  function LegacyText(row: EntryRow): string {
    "{" + CommaJoined(LegacyLines(row)) + "}"
  }

  function LegacyLines(row: EntryRow): (lines: seq<string>)
    ensures |lines| == 6
  {
    [ Line("action", Quote(row.action)),
      Line("actor", Quote(row.actor)),
      Line("entry_id", Decimal(row.entryId)),
      Line("payload", Quote(row.payload)),
      Line("previous_hash", Quote(row.previousHash)),
      Line("timestamp", Quote(row.timestamp)) ]
  }

  /** The text under the hash of a row of format version 2 and up. */
  function CurrentText(row: EntryRow): string {
    "{" + CommaJoined(CurrentLines(row)) + "}"
  }

  function CurrentLines(row: EntryRow): (lines: seq<string>)
    ensures |lines| == 7
  {
    [ Line("action", Quote(row.action)),
      Line("actor", Quote(row.actor)),
      Line("entry_id", Decimal(row.entryId)),
      Line("event_type", Quote(row.EventType())),
      Line("payload", Quote(row.payload)),
      Line("previous_hash", Quote(row.previousHash)),
      Line("timestamp", Quote(row.timestamp)) ]
  }

  lemma EntryKeysAscend()
    ensures Text.Less("action", "actor") && Text.Less("actor", "entry_id") && Text.Less("entry_id", "event_type")
    ensures Text.Less("entry_id", "payload") && Text.Less("event_type", "payload")
    ensures Text.Less("payload", "previous_hash") && Text.Less("previous_hash", "timestamp")
  {
    LessAt("action", "actor", 3);
    LessAt("actor", "entry_id", 0);
    LessAt("entry_id", "event_type", 1);
    LessAt("entry_id", "payload", 0);
    LessAt("event_type", "payload", 0);
    LessAt("payload", "previous_hash", 1);
    LessAt("previous_hash", "timestamp", 0);
  }

  lemma EntryKeysPlain()
    ensures Plain("action") && Plain("actor") && Plain("entry_id") && Plain("event_type")
    ensures Plain("payload") && Plain("previous_hash") && Plain("timestamp")
  {}

  /** The members of the hashed dict in the order of their keys. */
  function LegacyMembers(row: EntryRow): (ms: seq<Member>)
    ensures |ms| == 6
  {
    [ Member("action", Str(row.action)),
      Member("actor", Str(row.actor)),
      Member("entry_id", Int(row.entryId)),
      Member("payload", Str(row.payload)),
      Member("previous_hash", Str(row.previousHash)),
      Member("timestamp", Str(row.timestamp)) ]
  }

  function CurrentMembers(row: EntryRow): (ms: seq<Member>)
    ensures |ms| == 7
  {
    [ Member("action", Str(row.action)),
      Member("actor", Str(row.actor)),
      Member("entry_id", Int(row.entryId)),
      Member("event_type", Str(row.EventType())),
      Member("payload", Str(row.payload)),
      Member("previous_hash", Str(row.previousHash)),
      Member("timestamp", Str(row.timestamp)) ]
  }

  lemma LegacyMembersLines(row: EntryRow)
    ensures forall i | 0 <= i < 6 :: IsLine(LegacyLines(row)[i], LegacyMembers(row)[i])
  {
    EntryKeysPlain();
    StrLine("action", row.action);
    StrLine("actor", row.actor);
    IntLine("entry_id", row.entryId);
    StrLine("payload", row.payload);
    StrLine("previous_hash", row.previousHash);
    StrLine("timestamp", row.timestamp);
  }

  lemma CurrentMembersLines(row: EntryRow)
    ensures forall i | 0 <= i < 7 :: IsLine(CurrentLines(row)[i], CurrentMembers(row)[i])
  {
    EntryKeysPlain();
    StrLine("action", row.action);
    StrLine("actor", row.actor);
    IntLine("entry_id", row.entryId);
    StrLine("event_type", row.EventType());
    StrLine("payload", row.payload);
    StrLine("previous_hash", row.previousHash);
    StrLine("timestamp", row.timestamp);
  }

  lemma LegacyMembersSorted(row: EntryRow)
    ensures Sorted(LegacyMembers(row))
  {
    EntryKeysAscend();
    SortedBySteps(LegacyMembers(row));
  }

  lemma CurrentMembersSorted(row: EntryRow)
    ensures Sorted(CurrentMembers(row))
  {
    EntryKeysAscend();
    SortedBySteps(CurrentMembers(row));
  }

  lemma LegacySameMembers(row: EntryRow)
    requires row.FormatVersion() < 2
    ensures forall x :: x in HashedFields(row) <==> x in LegacyMembers(row)
  {
    var (ms, sorted) := (HashedFields(row), LegacyMembers(row));
    assert ms == [sorted[2], sorted[5], sorted[1], sorted[0], sorted[3], sorted[4]];
    assert sorted == [ms[3], ms[2], ms[0], ms[4], ms[5], ms[1]];
  }

  lemma CurrentSameMembers(row: EntryRow)
    requires row.FormatVersion() >= 2
    ensures forall x :: x in HashedFields(row) <==> x in CurrentMembers(row)
  {
    var (ms, sorted) := (HashedFields(row), CurrentMembers(row));
    assert ms == [sorted[2], sorted[6], sorted[1], sorted[0], sorted[4], sorted[5], sorted[3]];
    assert sorted == [ms[3], ms[2], ms[0], ms[6], ms[4], ms[5], ms[1]];
  }

  lemma HashedLeaves(row: EntryRow)
    ensures DistinctKeys(HashedFields(row)) && Leaves(HashedFields(row))
  {
    FieldKeys(row);
    FieldValues(row);
  }

  lemma LegacyPreimage(row: EntryRow)
    requires row.FormatVersion() < 2
    ensures Preimage(row) == LegacyText(row)
  {
    HashedLeaves(row);
    LegacySameMembers(row);
    LegacyMembersSorted(row);
    LegacyMembersLines(row);
    DictText(HashedFields(row), LegacyMembers(row), LegacyLines(row));
  }

  lemma CurrentPreimage(row: EntryRow)
    requires row.FormatVersion() >= 2
    ensures Preimage(row) == CurrentText(row)
  {
    HashedLeaves(row);
    CurrentSameMembers(row);
    CurrentMembersSorted(row);
    CurrentMembersLines(row);
    DictText(HashedFields(row), CurrentMembers(row), CurrentLines(row));
  }

  /** The entry hash of either format is the digest of its text written out. */
  lemma EntryHashText(c: Crypto, row: EntryRow)
    ensures ComputeEntryHash(c, row) == ToHex(c.sha256(if row.FormatVersion() >= 2 then CurrentText(row) else LegacyText(row)))
  {
    if row.FormatVersion() >= 2 { CurrentPreimage(row); } else { LegacyPreimage(row); }
  }

  // ---- the attestation hash ------------------------------------------------------------------

  function AttestationText(row: AttestationRow): string {
    "{" + CommaJoined(AttestationLines(row)) + "}"
  }

  function AttestationLines(row: AttestationRow): (lines: seq<string>)
    ensures |lines| == 5
  {
    [ Line("chain_head_entry_id", Decimal(row.chainHeadEntryId)),
      Line("chain_head_hash", Quote(row.chainHeadHash)),
      Line("prev_attestation_hash", Quote(row.prevAttestationHash)),
      Line("signed_at", Quote(row.signedAt)),
      Line("witness_id", Decimal(row.witnessId)) ]
  }

  function AttestationMembers(row: AttestationRow): (ms: seq<Member>)
    ensures |ms| == 5
  {
    [ Member("chain_head_entry_id", Int(row.chainHeadEntryId)),
      Member("chain_head_hash", Str(row.chainHeadHash)),
      Member("prev_attestation_hash", Str(row.prevAttestationHash)),
      Member("signed_at", Str(row.signedAt)),
      Member("witness_id", Int(row.witnessId)) ]
  }

  lemma AttestedKeysAscend()
    ensures Text.Less("chain_head_entry_id", "chain_head_hash") && Text.Less("chain_head_hash", "prev_attestation_hash")
    ensures Text.Less("prev_attestation_hash", "signed_at") && Text.Less("signed_at", "witness_id")
  {
    LessAt("chain_head_entry_id", "chain_head_hash", 11);
    LessAt("chain_head_hash", "prev_attestation_hash", 0);
    LessAt("prev_attestation_hash", "signed_at", 0);
    LessAt("signed_at", "witness_id", 0);
  }

  lemma AttestedKeysPlain()
    ensures Plain("chain_head_entry_id") && Plain("chain_head_hash") && Plain("prev_attestation_hash")
    ensures Plain("signed_at") && Plain("witness_id")
  {}

  lemma AttestationMembersLines(row: AttestationRow)
    ensures forall i | 0 <= i < 5 :: IsLine(AttestationLines(row)[i], AttestationMembers(row)[i])
  {
    AttestedKeysPlain();
    IntLine("chain_head_entry_id", row.chainHeadEntryId);
    StrLine("chain_head_hash", row.chainHeadHash);
    StrLine("prev_attestation_hash", row.prevAttestationHash);
    StrLine("signed_at", row.signedAt);
    IntLine("witness_id", row.witnessId);
  }

  lemma AttestationMembersSorted(row: AttestationRow)
    ensures Sorted(AttestationMembers(row))
  {
    AttestedKeysAscend();
    SortedBySteps(AttestationMembers(row));
  }

  lemma AttestationSameMembers(row: AttestationRow)
    ensures forall x :: x in AttestedFields(row) <==> x in AttestationMembers(row)
  {
    var (ms, sorted) := (AttestedFields(row), AttestationMembers(row));
    assert ms == [sorted[4], sorted[0], sorted[1], sorted[3], sorted[2]];
    assert sorted == [ms[1], ms[2], ms[4], ms[3], ms[0]];
  }

  lemma AttestedLeaves(row: AttestationRow)
    ensures DistinctKeys(AttestedFields(row)) && Leaves(AttestedFields(row))
  {
    var ms := AttestedFields(row);
    assert |ms[0].key| == 10 && |ms[1].key| == 19 && |ms[2].key| == 15 && |ms[3].key| == 9 && |ms[4].key| == 21;
    forall i, j | 0 <= i < j < |ms| ensures ms[i].key != ms[j].key {
      assert |ms[i].key| != |ms[j].key|;
    }
  }

  lemma AttestedPreimage(row: AttestationRow)
    ensures AttestedText(row) == AttestationText(row)
  {
    AttestedLeaves(row);
    AttestationSameMembers(row);
    AttestationMembersSorted(row);
    AttestationMembersLines(row);
    DictText(AttestedFields(row), AttestationMembers(row), AttestationLines(row));
  }

  /** The attestation hash is the digest of its text written out. */
  lemma AttestationHashText(c: Crypto, row: AttestationRow)
    ensures ComputeAttestationHash(c, row) == ToHex(c.sha256(AttestationText(row)))
  {
    AttestedPreimage(row);
  }
}
