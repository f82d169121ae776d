/** What holds over whole runs of a ledger: any number of calls, in any order. */
module LedgerRuns {
  import opened Base
  import opened Crypto
  import opened Json
  import opened Canonical
  import opened Clock
  import opened EntryChain
  import opened ChainCheck
  import opened WitnessChain
  import opened LedgerSpec
  import opened LedgerInv

  // ---- the tables only grow ------------------------------------------------------------------

  /** An anchor row as it was recorded; a confirmation may have been added or renewed. */
  ghost predicate SameRecord(a: AnchorRow, b: AnchorRow) {
    && a.anchorId == b.anchorId
    && a.chainHeadHash == b.chainHeadHash && a.chainHeadEntryId == b.chainHeadEntryId
    && a.submittedAt == b.submittedAt && a.calendarServers == b.calendarServers
    && a.tstBlob == b.tstBlob && a.tsaUrl == b.tsaUrl && a.tsaGenTime == b.tsaGenTime
    && (a.confirmedAt.Some? ==> b.confirmedAt.Some?)
  }

  ghost predicate SameIdentity(a: WitnessRow, b: WitnessRow) {
    && a.witnessId == b.witnessId && a.displayName == b.displayName
    && a.publicKeyHex == b.publicKeyHex && a.role == b.role && a.createdAt == b.createdAt
    && (a.retiredAt.Some? ==> b.retiredAt == a.retiredAt)
  }

  /** `b` is `a` with more rows: nothing recorded is lost or changed, but that anchors get
      confirmed and witnesses retire, each for good. */
  ghost predicate Extends(a: Db, b: Db) {
    && a.entries <= b.entries
    && a.attestations <= b.attestations
    && |a.anchors| <= |b.anchors|
    && (forall i | 0 <= i < |a.anchors| :: SameRecord(a.anchors[i], b.anchors[i]))
    && |a.witnesses| <= |b.witnesses|
    && (forall i | 0 <= i < |a.witnesses| :: SameIdentity(a.witnesses[i], b.witnesses[i]))
  }

  lemma ExtendsReflexive(a: Db)
    ensures Extends(a, a)
  {}

  lemma ConfirmExtends(db: Db, req: Request)
    requires req.Confirm?
    ensures Extends(db, db.(anchors := ConfirmRows(db.anchors, req)))
  {}

  lemma RetireExtends(db: Db, id: int, at: string)
    ensures Extends(db, db.(witnesses := RetireRows(db.witnesses, id, at)))
  {}

  lemma EntryExtends(db: Db, row: EntryRow)
    ensures Extends(db, db.(entries := db.entries + [row]))
  {}

  lemma AnchorExtends(db: Db, row: AnchorRow)
    ensures Extends(db, db.(anchors := db.anchors + [row]))
  {}

  lemma WitnessExtends(db: Db, row: WitnessRow)
    ensures Extends(db, db.(witnesses := db.witnesses + [row]))
  {}

  lemma AttestationExtends(db: Db, row: AttestationRow)
    ensures Extends(db, db.(attestations := db.attestations + [row]))
  {}

  /** A call changes one table: it adds at most one row, confirms or retires. */
  ghost predicate OneChange(db: Db, req: Request, after: Db) {
    || after == db
    || (exists row :: after == db.(entries := db.entries + [row]) && row.entryId == |db.entries| + 1)
    || (exists row :: after == db.(anchors := db.anchors + [row]))
    || (exists row :: after == db.(witnesses := db.witnesses + [row]))
    || (exists row :: after == db.(attestations := db.attestations + [row]))
    || (req.Confirm? && after == db.(anchors := ConfirmRows(db.anchors, req)))
    || (req.Retire? && after == db.(witnesses := RetireRows(db.witnesses, req.witnessId, Format(req.now))))
  }

  lemma ExecChangesOneTable(w: World, db: Db, req: Request)
    requires IdsFrom1(db.entries)
    ensures OneChange(db, req, Exec(w, db, req).0)
  {
    match req
    case Log(_, _, _, _, _, _) => LogEffect(w, db, req);
    case Anchor(_, _, _, _) => AnchorEffect(w, db, req);
    case Confirm(_, _, _, _, _) => ConfirmEffect(w, db, req);
    case Register(_, _, _, _) => RegisterEffect(w, db, req);
    case Retire(_, _) =>
    case Attest(_, _, _) => AttestEffect(w, db, req);
  }

  lemma OneChangeExtends(db: Db, req: Request, after: Db)
    requires OneChange(db, req, after) && IdsFrom1(db.entries)
    ensures Extends(db, after) && IdsFrom1(after.entries)
  {
    if after == db {
      ExtendsReflexive(db);
    } else if row :| after == db.(entries := db.entries + [row]) && row.entryId == |db.entries| + 1 {
      EntryExtends(db, row);
    } else if row :| after == db.(anchors := db.anchors + [row]) {
      AnchorExtends(db, row);
    } else if row :| after == db.(witnesses := db.witnesses + [row]) {
      WitnessExtends(db, row);
    } else if row :| after == db.(attestations := db.attestations + [row]) {
      AttestationExtends(db, row);
    } else if req.Confirm? && after == db.(anchors := ConfirmRows(db.anchors, req)) {
      ConfirmExtends(db, req);
    } else {
      RetireExtends(db, req.witnessId, Format(req.now));
    }
  }

  /** One call extends the tables. */
  lemma ExecExtends(w: World, db: Db, req: Request)
    requires IdsFrom1(db.entries)
    ensures Extends(db, Exec(w, db, req).0)
    ensures IdsFrom1(Exec(w, db, req).0.entries)
  {
    ExecChangesOneTable(w, db, req);
    OneChangeExtends(db, req, Exec(w, db, req).0);
  }

  lemma RegisterEffect(w: World, db: Db, req: Request)
    requires req.Register?
    ensures var after := Exec(w, db, req).0;
            after == db || exists row :: after == db.(witnesses := db.witnesses + [row])
  {
    var after := Exec(w, db, req).0;
    if after != db {
      var row := WitnessRow(NextWitnessId(db.witnesses), req.displayName, req.publicKeyHex, req.role, Format(req.now), None);
      assert after == db.(witnesses := db.witnesses + [row]);
    }
  }

  lemma {:induction false} ExecAllExtends(w: World, db: Db, reqs: seq<Request>)
    requires IdsFrom1(db.entries)
    ensures Extends(db, ExecAll(w, db, reqs)) && IdsFrom1(ExecAll(w, db, reqs).entries)
    decreases |reqs|
  {
    if reqs == [] {
    } else {
      var before := ExecAll(w, db, reqs[..|reqs| - 1]);
      ExecAllExtends(w, db, reqs[..|reqs| - 1]);
      ExecExtends(w, before, reqs[|reqs| - 1]);
      ExtendsTransitive(db, before, ExecAll(w, db, reqs));
    }
  }

  lemma ExtendsTransitive(a: Db, b: Db, c: Db)
    requires Extends(a, b) && Extends(b, c)
    ensures Extends(a, c)
  {
    forall i | 0 <= i < |a.anchors| ensures SameRecord(a.anchors[i], c.anchors[i]) {
      assert SameRecord(a.anchors[i], b.anchors[i]) && SameRecord(b.anchors[i], c.anchors[i]);
    }
    forall i | 0 <= i < |a.witnesses| ensures SameIdentity(a.witnesses[i], c.witnesses[i]) {
      assert SameIdentity(a.witnesses[i], b.witnesses[i]) && SameIdentity(b.witnesses[i], c.witnesses[i]);
    }
  }

  // ---- log and read undo each other ------------------------------------------------------------

  function FindEntry(rows: seq<EntryRow>, id: int): Option<EntryRow> {
    if rows == [] then None
    else if rows[0].entryId == id then Some(rows[0])
    else FindEntry(rows[1..], id)
  }

  /** `_row_to_entry`: the payload is read from its stored text. */
  function RowToEntry(row: EntryRow): Result<LedgerEntry, Error> {
    var payload := Loads(row.payload);
    if payload.None? then Err(ValueError) else Ok(LedgerEntry(row, payload.value))
  }

  function EntryById(rows: seq<EntryRow>, id: int): Result<LedgerEntry, Error> {
    var row := FindEntry(rows, id);
    if row.None? then Err(KeyError) else RowToEntry(row.value)
  }

  lemma {:induction false} FindById(rows: seq<EntryRow>, k: nat)
    requires k < |rows|
    requires forall i, j | 0 <= i < j < |rows| :: rows[i].entryId < rows[j].entryId
    ensures FindEntry(rows, rows[k].entryId) == Some(rows[k])
  {
    if k == 0 {
    } else {
      FindById(rows[1..], k - 1);
    }
  }

  /** An entry is found under its id, whatever the ledger has done since. */
  lemma EntryStays(w: World, db: Db, k: nat, reqs: seq<Request>)
    requires IdsFrom1(db.entries) && k < |db.entries|
    ensures FindEntry(ExecAll(w, db, reqs).entries, db.entries[k].entryId) == Some(db.entries[k])
  {
    ExecAllExtends(w, db, reqs);
    var rows := ExecAll(w, db, reqs).entries;
    assert rows[k] == db.entries[k];
    FindById(rows, k);
  }

  /** The text in which a log call stores its payload. */
  function StoredPayload(payload: Option<seq<Member>>): string {
    if payload.Some? then CanonicalJson(Obj(payload.value)) else "{}"
  }

  /** The row computed for a log call holds what the caller gave. */
  ghost predicate Records(row: EntryRow, req: Request)
    requires req.Log?
  {
    && row.payload == StoredPayload(req.payload)
    && row.actor == req.actor && row.action == req.action && Parse(row.timestamp) == Some(req.now)
    && row.eventType == Some(req.eventType) && row.formatVersion == Some(2)
  }

  /** It carries its own hash, and the signature of the signer if there is one. */
  ghost predicate Sealed(c: Crypto, row: EntryRow, req: Request)
    requires req.Log?
  {
    && row.entryHash == ComputeEntryHash(c, row)
    && row.signature == (if req.signer.Some? then Some(ToHex(req.signer.value.sign(c.utf8(row.entryHash)))) else None)
    && row.signingKeyId == if req.signer.Some? then Some(req.signer.value.keyId) else None
  }

  lemma EmptyDict()
    ensures CanonicalJson(Obj([])) == "{}"
  {
    assert Canon(Obj([])) == Obj([]);
    assert "{" + "" + "}" == "{}";
  }

  lemma MadeEntryRecords(c: Crypto, tip: Option<EntryRow>, req: Request)
    requires req.Log?
    ensures Records(MakeEntry(c, tip, req), req)
  {
    ParseFormat(req.now);
    EmptyDict();
  }

  lemma MadeEntrySealed(c: Crypto, rows: seq<EntryRow>, req: Request)
    requires req.Log?
    ensures Sealed(c, MakeEntry(c, Tip(rows), req), req) && MakeEntry(c, Tip(rows), req).previousHash == HeadHash(rows)
  {
    MadeEntryInOrder(c, None, rows, req);
  }

  /** Whatever the table, a log call returns a row that holds what the caller gave. */
  lemma LogRecords(w: World, db: Db, req: Request)
    requires req.Log?
    ensures Exec(w, db, req).1.Logged? && Records(Exec(w, db, req).1.entry.row, req)
  {
    LogAppends(w, db, req);
    MadeEntryRecords(w.crypto, Tip(db.entries), req);
  }

  lemma LoggedRow(w: World, db: Db, req: Request)
    requires req.Log? && IdsFrom1(db.entries)
    ensures var (logged, reply) := Exec(w, db, req);
            && reply.Logged? && Records(reply.entry.row, req) && Sealed(w.crypto, reply.entry.row, req)
            && reply.entry.payload == Obj(if req.payload.Some? then req.payload.value else [])
            && reply.entry.row.previousHash == HeadHash(db.entries)
            && logged.entries == db.entries + [reply.entry.row] && IdsFrom1(logged.entries)
  {
    var row := MakeEntry(w.crypto, Tip(db.entries), req);
    LogEffect(w, db, req);
    MadeEntryRecords(w.crypto, Tip(db.entries), req);
    MadeEntrySealed(w.crypto, db.entries, req);
    IdsExtend(db.entries, row);
    var r := Exec(w, db, req);
    assert r.1 == Logged(LedgerEntry(row, Obj(if req.payload.Some? then req.payload.value else [])));
    assert r.0.entries == db.entries + [row];
  }

  lemma IdsExtend(rows: seq<EntryRow>, row: EntryRow)
    requires IdsFrom1(rows) && row.entryId == |rows| + 1
    ensures IdsFrom1(rows + [row])
  {}

  /** The stored text loads as the payload given, or as the empty dict. */
  lemma StoredPayloadLoads(payload: Option<seq<Member>>)
    requires payload.Some? ==> WellFormed(Obj(payload.value))
    ensures var r := Loads(StoredPayload(payload));
            && r.Some?
            && (payload.Some? ==> Same(r.value, Obj(payload.value)))
            && (payload.None? ==> r.value == Obj([]))
  {
    if payload.Some? {
      LoadsCanonical(Obj(payload.value));
    } else {
      EmptyDict();
      LoadsCanonical(Obj([]));
    }
  }

  /** Reading a logged entry by its id gives back what `log` returned and what its caller
      gave, whatever the ledger has done since; the payload comes back as the same JSON
      value, and no payload as the empty dict. */
  lemma LogReadBack(w: World, db: Db, req: Request, reqs: seq<Request>)
    requires req.Log? && IdsFrom1(db.entries) && (req.payload.Some? ==> WellFormed(Obj(req.payload.value)))
    ensures var (logged, reply) := Exec(w, db, req);
            reply.Logged? &&
            var r := EntryById(ExecAll(w, logged, reqs).entries, reply.entry.row.entryId);
            && r.Ok? && r.value.row == reply.entry.row && Records(r.value.row, req)
            && Same(r.value.payload, reply.entry.payload)
            && (req.payload.Some? ==> Same(r.value.payload, Obj(req.payload.value)))
            && (req.payload.None? ==> r.value.payload == Obj([]))
  {
    LoggedRow(w, db, req);
    EntryStays(w, Exec(w, db, req).0, |db.entries|, reqs);
    StoredPayloadLoads(req.payload);
  }

  // ---- register and read undo each other -------------------------------------------------------

  lemma {:induction false} FindWitnessAt(ws: seq<WitnessRow>, k: nat)
    requires k < |ws| && WitnessesDistinct(ws)
    ensures FindWitness(ws, ws[k].witnessId) == Some(ws[k])
  {
    if k == 0 {
    } else {
      FindWitnessAt(ws[1..], k - 1);
    }
  }

  /** A registration succeeds exactly when the role is known and neither the name nor the
      key is taken. The witness is then found under its id, with the name, key and role it
      was registered with, whatever the ledger has done since. */
  lemma RegisteredForGood(w: World, db: Db, req: Request, reqs: seq<Request>)
    requires req.Register? && DbInv(w, None, db)
    ensures Exec(w, db, req).1.WitnessReply? <==>
              req.role in {"consortium", "regulator", "self"} && forall x | x in db.witnesses :: x.displayName != req.displayName && x.publicKeyHex != req.publicKeyHex
    ensures var (registered, reply) := Exec(w, db, req);
            reply.WitnessReply? ==>
              var r := FindWitness(ExecAll(w, registered, reqs).witnesses, reply.row.witnessId);
              && r.Some? && SameIdentity(reply.row, r.value) && reply.row.retiredAt.None?
              && r.value.displayName == req.displayName && r.value.publicKeyHex == req.publicKeyHex
              && r.value.role == req.role && Parse(r.value.createdAt) == Some(req.now)
  {
    RegisterReply(w, db, req);
    var (registered, reply) := Exec(w, db, req);
    if reply.WitnessReply? {
      assert registered.witnesses[|db.witnesses|] == reply.row;
      RegisterKeeps(w, None, db, req);
      RegisteredStays(w, registered, |db.witnesses|, reqs);
      ParseFormat(req.now);
    }
  }

  lemma RegisterReply(w: World, db: Db, req: Request)
    requires req.Register?
    ensures Exec(w, db, req).1.WitnessReply? <==>
              req.role in {"consortium", "regulator", "self"} && forall x | x in db.witnesses :: x.displayName != req.displayName && x.publicKeyHex != req.publicKeyHex
    ensures var (registered, reply) := Exec(w, db, req);
            reply.WitnessReply? ==>
              && registered == db.(witnesses := db.witnesses + [reply.row]) && reply.row.retiredAt.None?
              && reply.row.witnessId == (if db.witnesses == [] then 1 else db.witnesses[|db.witnesses| - 1].witnessId + 1)
              && reply.row.displayName == req.displayName && reply.row.publicKeyHex == req.publicKeyHex
              && reply.row.role == req.role && reply.row.createdAt == Format(req.now)
  {
    if req.role in ROLES {
      assert Drive(w, db, req, Entered).1 == AdvanceRegister(db, req).reply;
    }
  }

  lemma RegisteredStays(w: World, db: Db, k: nat, reqs: seq<Request>)
    requires DbInv(w, None, db) && k < |db.witnesses|
    ensures var r := FindWitness(ExecAll(w, db, reqs).witnesses, db.witnesses[k].witnessId);
            r.Some? && SameIdentity(db.witnesses[k], r.value)
  {
    var after := ExecAll(w, db, reqs);
    forall i | 0 <= i < |reqs| ensures KnownSigner(None, reqs[i]) {}
    ExecAllKeepsInv(w, None, db, reqs);
    ExecAllExtends(w, db, reqs);
    assert SameIdentity(db.witnesses[k], after.witnesses[k]);
    FindWitnessAt(after.witnesses, k);
  }

  /** A witness that was known is found in every later table, as the same witness. */
  lemma {:induction false} FindWitnessLater(ws: seq<WitnessRow>, later: seq<WitnessRow>, id: int)
    requires |ws| <= |later| && forall i | 0 <= i < |ws| :: SameIdentity(ws[i], later[i])
    ensures FindWitness(ws, id).Some? ==>
              FindWitness(later, id).Some? && SameIdentity(FindWitness(ws, id).value, FindWitness(later, id).value)
  {
    if ws == [] {
    } else {
      assert SameIdentity(ws[0], later[0]);
      FindWitnessLater(ws[1..], later[1..], id);
    }
  }

  // ---- retirement --------------------------------------------------------------------------------

  ghost predicate Retired(db: Db, id: int) {
    FindWitness(db.witnesses, id).Some? && FindWitness(db.witnesses, id).value.retiredAt.Some?
  }

  lemma RetiredAfterAttest(w: World, db: Db, req: Request, id: int)
    requires req.Attest? && Retired(db, id)
    ensures var after := Exec(w, db, req).0;
            after.witnesses == db.witnesses && Filter(after.attestations, id) == Filter(db.attestations, id)
  {
    AttestEffect(w, db, req);
    var after := Exec(w, db, req).0;
    if after != db {
      var row :| after == db.(attestations := db.attestations + [row]) && row.witnessId == req.witnessId;
      assert (db.attestations + [row])[..|db.attestations|] == db.attestations;
    }
  }

  lemma RetiredAfterRegister(w: World, db: Db, req: Request, id: int)
    requires req.Register? && Retired(db, id)
    ensures var after := Exec(w, db, req).0;
            Retired(after, id) && after.attestations == db.attestations
  {
    RegisterEffect(w, db, req);
    var after := Exec(w, db, req).0;
    if after != db {
      var row :| after == db.(witnesses := db.witnesses + [row]);
      FindAfterAppend(db.witnesses, row, id);
    }
  }

  lemma RetiredOneCall(w: World, db: Db, req: Request, id: int)
    requires Retired(db, id)
    ensures var after := Exec(w, db, req).0;
            Retired(after, id) && Filter(after.attestations, id) == Filter(db.attestations, id)
  {
    match req
    case Log(_, _, _, _, _, _) => LogAlone(w, db, req);
    case Anchor(_, _, _, _) => AnchorEffect(w, db, req);
    case Confirm(_, _, _, _, _) => ConfirmEffect(w, db, req);
    case Register(_, _, _, _) => RetiredAfterRegister(w, db, req, id);
    case Retire(_, _) => FindAfterRetire(db.witnesses, req.witnessId, Format(req.now), id);
    case Attest(_, _, _) => RetiredAfterAttest(w, db, req, id);
  }

  /** Once a witness has retired, no further attestation of its own ever appears. */
  lemma {:induction false} RetiredForGood(w: World, db: Db, reqs: seq<Request>, id: int)
    requires Retired(db, id)
    ensures var after := ExecAll(w, db, reqs);
            Retired(after, id) && Filter(after.attestations, id) == Filter(db.attestations, id)
    decreases |reqs|
  {
    if reqs == [] {
    } else {
      RetiredForGood(w, db, reqs[..|reqs| - 1], id);
      RetiredOneCall(w, ExecAll(w, db, reqs[..|reqs| - 1]), reqs[|reqs| - 1], id);
    }
  }

  /** Along the chain of one witness the attested heads never go back. */
  lemma {:induction false} SubChainHeadsAscend(rows: seq<AttestationRow>, id: int)
    requires HeadsAscending(rows)
    ensures HeadsAscending(Filter(rows, id))
    ensures forall x | x in Filter(rows, id) :: x in rows
  {
    if rows == [] {
    } else {
      SubChainHeadsAscend(rows[..|rows| - 1], id);
      var (sub, last) := (Filter(rows[..|rows| - 1], id), rows[|rows| - 1]);
      forall i | 0 <= i < |sub| ensures sub[i].chainHeadEntryId <= last.chainHeadEntryId {
        assert sub[i] in sub;
        assert sub[i] in rows[..|rows| - 1];
      }
    }
  }

  // ---- every reachable state passes its own verification -------------------------------------------

  /** After any run with signers the verifier knows, `verify_chain` accepts the entries and
      `verify_witness_attestations` the attestations. */
  lemma RunsStayVerifiable(w: World, v: Verifier, db: Db, reqs: seq<Request>)
    requires DbInv(w, Some(v), db) && forall i | 0 <= i < |reqs| :: KnownSigner(Some(v), reqs[i])
    ensures var after := ExecAll(w, db, reqs);
            && IsVerdict(w.crypto, Some(v), after.entries, Ok(|after.entries|))
            && PassOk(w.crypto, Some(v), after.witnesses, Ordered(after.attestations))
            && (forall id :: HeadsAscending(Filter(after.attestations, id)))
            && (forall i | 0 <= i < |after.attestations| ::
                  NamesEntry(after.entries, after.attestations[i].chainHeadEntryId, after.attestations[i].chainHeadHash))
  {
    ExecAllKeepsInv(w, Some(v), db, reqs);
    var after := ExecAll(w, db, reqs);
    GroupedWalkIff(w.crypto, Some(v), after.witnesses, after.attestations);
    forall id ensures HeadsAscending(Filter(after.attestations, id)) {
      SubChainHeadsAscend(after.attestations, id);
    }
  }

  // ---- an anchored head pins the history below it -----------------------------------------------------

  /** The ledger has an anchor or an attestation of this head. */
  ghost predicate Recorded(db: Db, id: int, hash: string) {
    || (exists i | 0 <= i < |db.anchors| :: db.anchors[i].chainHeadEntryId == id && db.anchors[i].chainHeadHash == hash)
    || (exists i | 0 <= i < |db.attestations| ::
          db.attestations[i].chainHeadEntryId == id && db.attestations[i].chainHeadHash == hash)
  }

  lemma RecordedNamesEntry(w: World, ov: Option<Verifier>, db: Db, id: int, hash: string)
    requires DbInv(w, ov, db) && Recorded(db, id, hash)
    ensures NamesEntry(db.entries, id, hash)
  {
    if i :| 0 <= i < |db.anchors| && db.anchors[i].chainHeadEntryId == id && db.anchors[i].chainHeadHash == hash {
      assert AnchorRowOk(db.entries, db.anchors[i]);
    }
  }

  /** The same for a chain and a table that both hold the id and hash. */
  lemma SharedHeadPins(c: Crypto, mine: seq<EntryRow>, id: int, hash: string, table: seq<EntryRow>, k: nat)
    requires IdsFrom1(mine) && ValidChain(c, None, mine) && NamesEntry(mine, id, hash)
    requires ValidChain(c, None, table)
    requires k < |table| && table[k].entryId == id && table[k].entryHash == hash
    ensures var (below, theirs) := (mine[..id], table[..k + 1]);
            && (Compare(below, theirs) == Agree <==> SameChain(below, theirs))
            && (Compare(below, theirs) != Agree ==> IsBreak(c, Compare(below, theirs)))
            && (IdsAscending(table) && table[0].entryId == 1 ==> !Compare(below, theirs).GenesisPreimage?)
  {
    ValidPrefix(c, None, mine, id);
    ValidPrefix(c, None, table, k + 1);
    CollisionExtraction(c, mine[..id], table[..k + 1]);
    SharedIdNoPreimage(mine, id, table, k);
  }

  lemma SharedIdNoPreimage(mine: seq<EntryRow>, id: int, table: seq<EntryRow>, k: nat)
    requires IdsFrom1(mine) && 1 <= id <= |mine| && k < |table| && table[k].entryId == id
    ensures IdsAscending(table) && table[0].entryId == 1 ==> !Compare(mine[..id], table[..k + 1]).GenesisPreimage?
  {
    if IdsAscending(table) && table[0].entryId == 1 {
      NoGenesisPreimage(mine[..id], table[..k + 1]);
    }
  }

  /** A head recorded in any state of a run pins the history below it, for all time: take
      the ledger's rows up to that head after any further calls, and any table that
      `verify_chain` accepts and that holds the recorded id and hash at row `k`. They agree
      row by row on all covered fields, or comparing them yields a collision or a text that
      hashes to the genesis value; the latter only if the table has ids that do not start
      at 1 or do not ascend. */
  lemma AnchoredHistoryPinned(w: World, db: Db, id: int, hash: string, reqs: seq<Request>, table: seq<EntryRow>, k: nat)
    requires DbInv(w, None, db) && Recorded(db, id, hash)
    requires ValidChain(w.crypto, None, table)
    requires k < |table| && table[k].entryId == id && table[k].entryHash == hash
    ensures 1 <= id <= |ExecAll(w, db, reqs).entries|
    ensures var (mine, theirs) := (ExecAll(w, db, reqs).entries[..id], table[..k + 1]);
            && (Compare(mine, theirs) == Agree <==> SameChain(mine, theirs))
            && (Compare(mine, theirs) != Agree ==> IsBreak(w.crypto, Compare(mine, theirs)))
            && (IdsAscending(table) && table[0].entryId == 1 ==> !Compare(mine, theirs).GenesisPreimage?)
  {
    RecordedNamesEntry(w, None, db, id, hash);
    ExecAllExtends(w, db, reqs);
    forall i | 0 <= i < |reqs| ensures KnownSigner(None, reqs[i]) {}
    ExecAllKeepsInv(w, None, db, reqs);
    var mine := ExecAll(w, db, reqs).entries;
    assert mine[id - 1] == db.entries[id - 1];
    SharedHeadPins(w.crypto, mine, id, hash, table, k);
  }
}
