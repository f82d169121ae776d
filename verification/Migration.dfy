/** Opening a v0.1.0 database: the two missing columns are added, and every row keeps the
    verdict it had. */
module Migration {
  import opened Base
  import opened Crypto
  import opened Json
  import opened Canonical
  import opened EntryChain
  import opened ChainCheck
  import opened LedgerSpec
  import opened LedgerInv

  /** ALTER TABLE ... ADD COLUMN event_type ... DEFAULT 'request' */
  function FillEventType(rows: seq<EntryRow>): (r: seq<EntryRow>)
    ensures |r| == |rows|
    ensures forall i | 0 <= i < |rows| :: r[i] == rows[i].(eventType := Some(REQUEST))
  {
    if rows == [] then [] else [rows[0].(eventType := Some(REQUEST))] + FillEventType(rows[1..])
  }

  /** ALTER TABLE ... ADD COLUMN format_version ... DEFAULT 1 */
  function FillFormatVersion(rows: seq<EntryRow>): (r: seq<EntryRow>)
    ensures |r| == |rows|
    ensures forall i | 0 <= i < |rows| :: r[i] == rows[i].(formatVersion := Some(1))
  {
    if rows == [] then [] else [rows[0].(formatVersion := Some(1))] + FillFormatVersion(rows[1..])
  }

  function AddEventType(db: Db): Db {
    if db.hasEventType then db else db.(hasEventType := true, entries := FillEventType(db.entries))
  }

  function AddFormatVersion(db: Db): Db {
    if db.hasFormatVersion then db else db.(hasFormatVersion := true, entries := FillFormatVersion(db.entries))
  }

  /** `_migrate_legacy_columns` */
  function Migrate(db: Db): Db {
    AddFormatVersion(AddEventType(db))
  }

  /** Every row has exactly the columns of its table. */
  ghost predicate Consistent(db: Db) {
    forall i | 0 <= i < |db.entries| ::
      && (db.entries[i].eventType.Some? <==> db.hasEventType)
      && (db.entries[i].formatVersion.Some? <==> db.hasFormatVersion)
  }

  /** The v0.1.0 formula: six fields, no event type. */
  function LegacyHash(c: Crypto, row: EntryRow): string {
    Sha256Hex(c, CanonicalJson(Obj([
      Member("action", Str(row.action)),
      Member("actor", Str(row.actor)),
      Member("entry_id", Int(row.entryId)),
      Member("payload", Str(row.payload)),
      Member("previous_hash", Str(row.previousHash)),
      Member("timestamp", Str(row.timestamp))
    ])))
  }

  /** What a v0.1.0 ledger would accept. */
  ghost predicate LegacyValid(c: Crypto, ov: Option<Verifier>, rows: seq<EntryRow>) {
    forall i | 0 <= i < |rows| ::
      LinkOk(rows, i) && rows[i].entryHash == LegacyHash(c, rows[i]) && SignatureFault(c, ov, rows[i]).None?
  }

  /** The formula does not depend on the order in which its dict is written down. */
  lemma LegacyFormula(c: Crypto, row: EntryRow)
    requires row.FormatVersion() < 2
    ensures ComputeEntryHash(c, row) == LegacyHash(c, row)
  {
    var ms := HashedFields(row);
    var ns := [
      Member("action", Str(row.action)),
      Member("actor", Str(row.actor)),
      Member("entry_id", Int(row.entryId)),
      Member("payload", Str(row.payload)),
      Member("previous_hash", Str(row.previousHash)),
      Member("timestamp", Str(row.timestamp))
    ];
    assert ms == [ns[2], ns[5], ns[1], ns[0], ns[3], ns[4]];
    assert ns == [ms[3], ms[2], ms[0], ms[4], ms[5], ms[1]];
    FieldKeys(row);
    CanonMembersDistinct(ms);
    CanonMembersDistinct(ns);
    var (cs, ds) := (CanonMembers(ms), CanonMembers(ns));
    assert cs == [ds[2], ds[5], ds[1], ds[0], ds[3], ds[4]];
    assert ds == [cs[3], cs[2], cs[0], cs[4], cs[5], cs[1]];
    SortAlike(cs, ds);
  }

  /** A row after the migration: the fallbacks of the verifier have become its values. */
  lemma MigratedRow(db: Db, i: nat)
    requires Consistent(db) && i < |db.entries|
    ensures |Migrate(db).entries| == |db.entries|
    ensures var (before, after) := (db.entries[i], Migrate(db).entries[i]);
            after == before.(eventType := Some(before.EventType()), formatVersion := Some(before.FormatVersion()))
  {}

  lemma FilledRowHash(c: Crypto, row: EntryRow)
    ensures var filled := row.(eventType := Some(row.EventType()), formatVersion := Some(row.FormatVersion()));
            ComputeEntryHash(c, filled) == ComputeEntryHash(c, row)
  {
    var filled := row.(eventType := Some(row.EventType()), formatVersion := Some(row.FormatVersion()));
    assert HashedFields(filled) == HashedFields(row);
  }

  /** Writing the fallbacks of the verifier into a row leaves its verdict alone. */
  lemma FilledRowVerdict(c: Crypto, ov: Option<Verifier>, a: seq<EntryRow>, b: seq<EntryRow>, i: nat)
    requires |a| == |b| && i < |a| && ExpectedPrevious(a, i) == ExpectedPrevious(b, i)
    requires a[i] == b[i].(eventType := Some(b[i].EventType()), formatVersion := Some(b[i].FormatVersion()))
    ensures RowOk(c, ov, a, i) <==> RowOk(c, ov, b, i)
    ensures forall f :: IsFaultOf(c, ov, a, i, f) <==> IsFaultOf(c, ov, b, i, f)
  {
    FilledRowHash(c, b[i]);
  }

  /** The migration changes no row's verdict, wherever it starts from: a v0.1.0 table, a
      table between the two column additions, or a v0.2.0 table. */
  lemma MigrationKeepsRows(c: Crypto, ov: Option<Verifier>, db: Db, i: nat)
    requires Consistent(db) && i < |db.entries|
    ensures |Migrate(db).entries| == |db.entries|
    ensures RowOk(c, ov, Migrate(db).entries, i) <==> RowOk(c, ov, db.entries, i)
    ensures forall f :: IsFaultOf(c, ov, Migrate(db).entries, i, f) <==> IsFaultOf(c, ov, db.entries, i, f)
  {
    MigratedRow(db, i);
    if i > 0 { MigratedRow(db, i - 1); }
    FilledRowVerdict(c, ov, Migrate(db).entries, db.entries, i);
  }

  /** `verify_chain` reaches the same verdict before and after the migration. */
  lemma MigrationKeepsVerdict(c: Crypto, ov: Option<Verifier>, db: Db, r: Result<nat, ChainFault>)
    requires Consistent(db)
    ensures IsVerdict(c, ov, Migrate(db).entries, r) <==> IsVerdict(c, ov, db.entries, r)
  {
    var rows := Migrate(db).entries;
    forall i | 0 <= i < |db.entries|
      ensures RowOk(c, ov, rows, i) <==> RowOk(c, ov, db.entries, i)
      ensures forall f :: IsFaultOf(c, ov, rows, i, f) <==> IsFaultOf(c, ov, db.entries, i, f)
    {
      MigrationKeepsRows(c, ov, db, i);
    }
    forall i: nat, f: ChainFault ensures RejectedAt(c, ov, rows, i, f) <==> RejectedAt(c, ov, db.entries, i, f) {
      if i < |rows| {
        PrefixIff(c, ov, rows, i);
        PrefixIff(c, ov, db.entries, i);
      }
    }
  }

  lemma PrefixIff(c: Crypto, ov: Option<Verifier>, rows: seq<EntryRow>, k: nat)
    requires k <= |rows|
    ensures ValidChain(c, ov, rows[..k]) <==> forall i | 0 <= i < k :: RowOk(c, ov, rows, i)
  {
    if ValidChain(c, ov, rows[..k]) {
      PrefixRowsOk(c, ov, rows, k);
    } else if forall i | 0 <= i < k :: RowOk(c, ov, rows, i) {
      forall i | 0 <= i < k ensures RowOk(c, ov, rows[..k], i) {
        assert RowOk(c, ov, rows, i);
      }
    }
  }

  /** A v0.1.0 table is accepted after the migration exactly when the six-field formula
      accepts it. */
  lemma LegacyAcceptedIff(c: Crypto, ov: Option<Verifier>, db: Db)
    requires Consistent(db) && !db.hasEventType && !db.hasFormatVersion
    ensures ValidChain(c, ov, Migrate(db).entries) <==> LegacyValid(c, ov, db.entries)
  {
    var rows := Migrate(db).entries;
    forall i | 0 <= i < |db.entries|
      ensures RowOk(c, ov, rows, i) <==>
        LinkOk(db.entries, i) && db.entries[i].entryHash == LegacyHash(c, db.entries[i]) && SignatureFault(c, ov, db.entries[i]).None?
    {
      MigrationKeepsRows(c, ov, db, i);
      LegacyFormula(c, db.entries[i]);
    }
  }

  /** Running the migration again changes nothing, and a run that stopped between the two
      additions is completed to the same table by the next one. */
  lemma MigrationConverges(db: Db)
    requires Consistent(db)
    ensures Migrate(Migrate(db)) == Migrate(db)
    ensures Migrate(AddEventType(db)) == Migrate(db)
    ensures Migrate(AddFormatVersion(db)) == Migrate(db)
    ensures Consistent(Migrate(db)) && ColumnsPresent(Migrate(db))
  {
    assert Migrate(AddFormatVersion(db)).entries == Migrate(db).entries;
  }

  /** New calls on top of a migrated v0.1.0 ledger keep the mixed chain valid. */
  lemma MigratedChainGrows(w: World, ov: Option<Verifier>, db: Db, reqs: seq<Request>)
    requires Consistent(db) && !db.hasEventType && !db.hasFormatVersion && LegacyValid(w.crypto, ov, db.entries)
    requires forall i | 0 <= i < |reqs| :: KnownSigner(ov, reqs[i])
    ensures ValidChain(w.crypto, ov, ExecAll(w, Migrate(db), reqs).entries)
    ensures IdsAscending(db.entries) ==> IdsAscending(ExecAll(w, Migrate(db), reqs).entries)
  {
    LegacyAcceptedIff(w.crypto, ov, db);
    ExecAllKeepsChain(w, ov, Migrate(db), reqs);
    assert forall i | 0 <= i < |db.entries| :: Migrate(db).entries[i].entryId == db.entries[i].entryId;
  }

  /** A migrated ledger without anchors, witnesses and attestations, its ids without gaps,
      satisfies the invariant of the tables. */
  lemma MigratedInv(w: World, ov: Option<Verifier>, db: Db)
    requires Consistent(db) && !db.hasEventType && !db.hasFormatVersion && LegacyValid(w.crypto, ov, db.entries)
    requires IdsFrom1(db.entries) && db.anchors == [] && db.witnesses == [] && db.attestations == []
    ensures DbInv(w, ov, Migrate(db))
  {
    LegacyAcceptedIff(w.crypto, ov, db);
    MigrationConverges(db);
  }

  /** What a row of a v0.1.0 table holds after the migration: its own values, the event type
      "request" and format version 1. */
  lemma LegacyRowValues(db: Db, i: nat)
    requires !db.hasEventType && !db.hasFormatVersion && i < |db.entries|
    ensures |Migrate(db).entries| == |db.entries|
    ensures Migrate(db).entries[i] == db.entries[i].(eventType := Some("request"), formatVersion := Some(1))
  {}
}
