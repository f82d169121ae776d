/** The tables of a ledger and what each of the six locked writers does to them, cut at
    the awaits inside its critical section. */
module LedgerSpec {
  import opened Base
  import opened Crypto
  import opened Json
  import opened Clock
  import opened EntryChain
  import opened WitnessChain
  import opened ProofTree
  import opened Heights
  import opened Submission

  datatype AnchorRow = AnchorRow(
    anchorId: int,
    chainHeadHash: string,
    chainHeadEntryId: int,
    otsProofBlob: Option<Bytes>,
    submittedAt: string,
    calendarServers: seq<string>,
    confirmedAt: Option<string>,
    bitcoinBlockHeight: Option<int>,
    bitcoinBlockHash: Option<string>,
    tstBlob: Option<Bytes>,
    tsaUrl: Option<string>,
    tsaGenTime: Option<string>)

  /** The database; each table in the order of its primary key. The flags say which of
      the v0.2.0 columns the entries table has. */
  datatype Db = Db(
    hasEventType: bool,
    hasFormatVersion: bool,
    entries: seq<EntryRow>,
    anchors: seq<AnchorRow>,
    witnesses: seq<WitnessRow>,
    attestations: seq<AttestationRow>)

  /** The foreign functions a ledger computes with. `readable` says which texts `json.loads`
      accepts, beyond those that `Json.Loads` reads. */
  datatype World = World(crypto: Crypto, apply: Apply, codec: Codec, readable: string -> bool)

  const ROLES: set<string> := {"consortium", "regulator", "self"}

  /** A call of one of the six writers. Clock readings and the answers of the network are
      arbitrary and therefore part of the call. */
  datatype Request =
    | Log(now: UtcTime, actor: string, action: string, payload: Option<seq<Member>>, signer: Option<Signer>, eventType: string)
    | Anchor(now: UtcTime, schedule: Option<Schedule>, submit: Submit, ask: AskTsa)
    | Confirm(anchorId: int, blob: Bytes, height: int, blockHash: Option<string>, now: UtcTime)
    | Register(now: UtcTime, displayName: string, publicKeyHex: string, role: string)
    | Retire(now: UtcTime, witnessId: int)
    | Attest(now: UtcTime, witnessId: int, witnessSigner: Signer)

  datatype Error = RuntimeError | IntegrityError | KeyError | ValueError | NetworkError

  /** An entry as the callers see it, its payload read back from the stored text. */
  datatype LedgerEntry = LedgerEntry(row: EntryRow, payload: Json)

  datatype Reply =
    | Logged(entry: LedgerEntry)
    | Nothing
    | Anchored(anchor: AnchorRow)
    | WitnessReply(row: WitnessRow)
    | Attested(attestation: AttestationRow)
    | Raised(error: Error)

  // ---- log -----------------------------------------------------------------------------

  function Tip(rows: seq<EntryRow>): Option<EntryRow> {
    if rows == [] then None else Some(rows[|rows| - 1])
  }

  /** `payload or {}` */
  function PayloadOf(payload: Option<seq<Member>>): Json {
    if payload.None? then Obj([]) else Obj(payload.value)
  }

  /** The row `log` computes on top of the tip it read. */
  function MakeEntry(c: Crypto, tip: Option<EntryRow>, req: Request): EntryRow
    requires req.Log?
  {
    var id := if tip.None? then 1 else tip.value.entryId + 1;
    var previous := if tip.None? then GENESIS else tip.value.entryHash;
    var unhashed := EntryRow(id, Format(req.now), req.actor, req.action, CanonicalJson(PayloadOf(req.payload)),
                             previous, "", None, None, Some(req.eventType), Some(CURRENT_FORMAT_VERSION));
    var hash := ComputeEntryHash(c, unhashed);
    if req.signer.None? then unhashed.(entryHash := hash)
    else
      unhashed.(entryHash := hash,
                signature := Some(ToHex(req.signer.value.sign(c.utf8(hash)))),
                signingKeyId := Some(req.signer.value.keyId))
  }

  /** INSERT with an explicit primary key; None stands for the IntegrityError when the
      key is taken. */
  function InsertEntry(rows: seq<EntryRow>, row: EntryRow): Option<seq<EntryRow>> {
    if rows == [] || rows[|rows| - 1].entryId < row.entryId then Some(rows + [row])
    else if rows[|rows| - 1].entryId == row.entryId then None
    else
      match InsertEntry(rows[..|rows| - 1], row)
      case None => None
      case Some(more) => Some(more + [rows[|rows| - 1]])
  }

  // ---- anchor --------------------------------------------------------------------------

  function NextAnchorId(rows: seq<AnchorRow>): int {
    if rows == [] then 1 else rows[|rows| - 1].anchorId + 1
  }

  function MakeAnchor(w: World, id: int, tip: EntryRow, ots: OtsResult, token: Option<Token>, now: UtcTime): AnchorRow {
    AnchorRow(
      id, tip.entryHash, tip.entryId,
      if ots.accepted == [] then None else Some(w.codec.serialise(ots.proof)),
      Format(now), ots.accepted, None, None, None,
      if token.None? then None else Some(token.value.blob),
      if token.None? then None else Some(token.value.url),
      if token.None? then None else Some(Format(token.value.genTime)))
  }

  // ---- confirm -------------------------------------------------------------------------

  function ConfirmedRow(row: AnchorRow, req: Request): AnchorRow
    requires req.Confirm?
  {
    row.(otsProofBlob := Some(req.blob), bitcoinBlockHeight := Some(req.height),
         bitcoinBlockHash := req.blockHash, confirmedAt := Some(Format(req.now)))
  }

  /** UPDATE ... WHERE anchor_id = ? */
  function ConfirmRows(rows: seq<AnchorRow>, req: Request): (r: seq<AnchorRow>)
    requires req.Confirm?
    ensures |r| == |rows|
    ensures forall i | 0 <= i < |rows| ::
              r[i] == if rows[i].anchorId == req.anchorId then ConfirmedRow(rows[i], req) else rows[i]
  {
    if rows == [] then []
    else
      [if rows[0].anchorId == req.anchorId then ConfirmedRow(rows[0], req) else rows[0]]
      + ConfirmRows(rows[1..], req)
  }

  function FindAnchor(rows: seq<AnchorRow>, id: int): Option<AnchorRow> {
    if rows == [] then None
    else if rows[0].anchorId == id then Some(rows[0])
    else FindAnchor(rows[1..], id)
  }

  // ---- witnesses -----------------------------------------------------------------------

  function NextWitnessId(rows: seq<WitnessRow>): int {
    if rows == [] then 1 else rows[|rows| - 1].witnessId + 1
  }

  /** The UNIQUE constraints of the witnesses table. */
  predicate Clashes(rows: seq<WitnessRow>, displayName: string, publicKeyHex: string) {
    exists i | 0 <= i < |rows| :: rows[i].displayName == displayName || rows[i].publicKeyHex == publicKeyHex
  }

  function RetireRows(rows: seq<WitnessRow>, id: int, at: string): (r: seq<WitnessRow>)
    ensures |r| == |rows|
    ensures forall i | 0 <= i < |rows| ::
              r[i] == if rows[i].witnessId == id && rows[i].retiredAt.None? then rows[i].(retiredAt := Some(at)) else rows[i]
  {
    if rows == [] then []
    else
      [if rows[0].witnessId == id && rows[0].retiredAt.None? then rows[0].(retiredAt := Some(at)) else rows[0]]
      + RetireRows(rows[1..], id, at)
  }

  function NextAttestationId(rows: seq<AttestationRow>): int {
    if rows == [] then 1 else rows[|rows| - 1].attestationId + 1
  }

  /** The row `attest_with_witness` computes; None when the hash text is not hexadecimal. */
  function MakeAttestation(c: Crypto, id: int, witnessId: int, tip: EntryRow, prev: string, now: UtcTime, signer: Signer): Option<AttestationRow> {
    var unsigned := AttestationRow(id, witnessId, tip.entryId, tip.entryHash, Format(now), prev, "", "");
    var hash := ComputeAttestationHash(c, unsigned);
    match FromHex(hash)
    case None => None
    case Some(message) =>
      Some(unsigned.(attestationHash := hash, signatureHex := ToHex(signer.sign(message))))
  }

  // ---- the critical sections, await by await ----------------------------------------------

  /** The local variables of a writer inside its critical section. */
  datatype Local =
    | Entered
    | TipRead(read: Option<EntryRow>)
    | Submitted(tip: EntryRow, ots: OtsResult)
    | Proved(tip: EntryRow, ots: OtsResult, token: Option<Token>)
    | WitnessRead
    | WitnessTip(tip: EntryRow)
    | WitnessPrev(tip: EntryRow, prev: string)

  /** What one stretch between two awaits leads to: new locals, an executed INSERT or
      UPDATE with the value to return, or the end of the section without a write. */
  datatype Stretch =
    | Continue(local: Local)
    | Write(db: Db, reply: Reply)
    | Leave(reply: Reply)

  predicate Fits(req: Request, l: Local) {
    match l
    case Entered => true
    case TipRead(tip) => req.Log? || (req.Anchor? && tip.Some? && req.schedule.Some?)
    case Submitted(_, _) => req.Anchor? && req.schedule.Some?
    case Proved(_, _, _) => req.Anchor?
    case WitnessRead => req.Attest?
    case WitnessTip(_) => req.Attest?
    case WitnessPrev(_, _) => req.Attest?
  }

  /** How many stretches can follow. */
  function Left(l: Local): nat {
    match l
    case Entered => 4
    case TipRead(_) => 3
    case Submitted(_, _) => 2
    case Proved(_, _, _) => 1
    case WitnessRead => 3
    case WitnessTip(_) => 2
    case WitnessPrev(_, _) => 1
  }

  function Advance(w: World, db: Db, req: Request, l: Local): (r: Stretch)
    requires Fits(req, l) && Checked(req).None?
    ensures r.Continue? ==> Fits(req, r.local) && Left(r.local) < Left(l)
  {
    match req
    case Log(_, _, _, _, _, _) =>
      if l.Entered? then Continue(TipRead(Tip(db.entries))) else AdvanceLog(w, db, req, l.read)
    case Anchor(_, _, _, _) => AdvanceAnchor(w, db, req, l)
    case Confirm(_, _, _, _, _) => Write(db.(anchors := ConfirmRows(db.anchors, req)), Nothing)
    case Register(_, _, _, _) => AdvanceRegister(db, req)
    case Retire(now, id) => Write(db.(witnesses := RetireRows(db.witnesses, id, Format(now))), Nothing)
    case Attest(_, _, _) => AdvanceAttest(w, db, req, l)
  }

  function AdvanceLog(w: World, db: Db, req: Request, tip: Option<EntryRow>): (r: Stretch)
    requires req.Log?
    ensures !r.Continue?
  {
    var row := MakeEntry(w.crypto, tip, req);
    match InsertEntry(db.entries, row)
    case None => Leave(Raised(IntegrityError))
    case Some(rows) => Write(db.(entries := rows), Logged(LedgerEntry(row, PayloadOf(req.payload))))
  }

  function AdvanceAnchor(w: World, db: Db, req: Request, l: Local): (r: Stretch)
    requires req.Anchor? && req.schedule.Some? && Fits(req, l)
    ensures r.Continue? ==> Fits(req, r.local) && Left(r.local) < Left(l)
  {
    match l
    case Entered =>
      var tip := Tip(db.entries);
      if tip.None? then Leave(Nothing)
      else if !w.readable(tip.value.payload) then Leave(Raised(ValueError))
      else if FromHex(tip.value.entryHash).None? then Leave(Raised(ValueError))
      else Continue(TipRead(tip))
    case TipRead(tip) =>
      var head := FromHex(tip.value.entryHash);
      if head.None? then Leave(Raised(ValueError))
      else
        var ots := OtsTrack(w.apply, head.value, req.schedule.value.calendarServers, req.submit);
        if ots.None? then Leave(Raised(ValueError)) else Continue(Submitted(tip.value, ots.value))
    case Submitted(tip, ots) =>
      var tsa := TsaFrom(|req.schedule.value.tsaUrls|, req.ask, 0);
      if tsa.TsaRaised? then Leave(Raised(NetworkError))
      else if tsa.NoToken? && ots.accepted == [] then Leave(Raised(RuntimeError))
      else Continue(Proved(tip, ots, if tsa.Got? then Some(tsa.token) else None))
    case Proved(tip, ots, token) =>
      var row := MakeAnchor(w, NextAnchorId(db.anchors), tip, ots, token, req.now);
      Write(db.(anchors := db.anchors + [row]), Anchored(row))
  }

  function AdvanceRegister(db: Db, req: Request): (r: Stretch)
    requires req.Register?
    ensures !r.Continue?
  {
    if Clashes(db.witnesses, req.displayName, req.publicKeyHex) then Leave(Raised(IntegrityError))
    else
      var row := WitnessRow(NextWitnessId(db.witnesses), req.displayName, req.publicKeyHex, req.role, Format(req.now), None);
      Write(db.(witnesses := db.witnesses + [row]), WitnessReply(row))
  }

  function AdvanceAttest(w: World, db: Db, req: Request, l: Local): (r: Stretch)
    requires req.Attest? && Fits(req, l)
    ensures r.Continue? ==> Fits(req, r.local) && Left(r.local) < Left(l)
  {
    match l
    case Entered =>
      var row := FindWitness(db.witnesses, req.witnessId);
      if row.None? then Leave(Raised(KeyError))
      else if row.value.retiredAt.Some? then Leave(Raised(RuntimeError))
      else if req.witnessSigner.keyId != row.value.publicKeyHex then Leave(Raised(RuntimeError))
      else Continue(WitnessRead)
    case WitnessRead =>
      var tip := Tip(db.entries);
      if tip.None? then Leave(Nothing)
      else if !w.readable(tip.value.payload) then Leave(Raised(ValueError))
      else Continue(WitnessTip(tip.value))
    case WitnessTip(tip) => Continue(WitnessPrev(tip, LastHash(db.attestations, req.witnessId)))
    case WitnessPrev(tip, prev) =>
      var id := NextAttestationId(db.attestations);
      (match MakeAttestation(w.crypto, id, req.witnessId, tip, prev, req.now, req.witnessSigner)
       case None => Leave(Raised(ValueError))
       case Some(row) => Write(db.(attestations := db.attestations + [row]), Attested(row)))
  }

  /** The checks made before the lock is asked for. */
  function Checked(req: Request): Option<Error> {
    if req.Anchor? && (req.schedule.None? || !req.schedule.value.enabled) then Some(RuntimeError)
    else if req.Register? && req.role !in ROLES then Some(ValueError)
    else None
  }

  /** `confirm_anchor` and `retire_witness` read their row again after the lock is
      released; the others return what they have. */
  function ReadBack(db: Db, req: Request, reply: Reply): Reply {
    match req
    case Confirm(id, _, _, _, _) =>
      var row := FindAnchor(db.anchors, id);
      if row.None? then Raised(KeyError) else Anchored(row.value)
    case Retire(_, id) =>
      var row := FindWitness(db.witnesses, id);
      if row.None? then Raised(KeyError) else WitnessReply(row.value)
    case _ => reply
  }

  // ---- a call run alone ------------------------------------------------------------------

  /** The rest of a critical section, run without interruption. */
  function Drive(w: World, db: Db, req: Request, l: Local): (Db, Reply)
    requires Fits(req, l) && Checked(req).None?
    decreases Left(l)
  {
    match Advance(w, db, req, l)
    case Continue(next) => Drive(w, db, req, next)
    case Write(after, reply) => (after, reply)
    case Leave(reply) => (db, reply)
  }

  /** A whole call. */
  function Exec(w: World, db: Db, req: Request): (Db, Reply) {
    if Checked(req).Some? then (db, Raised(Checked(req).value))
    else
      var r := Drive(w, db, req, Entered);
      (r.0, ReadBack(r.0, req, r.1))
  }

  /** A log call run alone is its tip, its row and one insert. */
  lemma LogAlone(w: World, db: Db, req: Request)
    requires req.Log?
    ensures var row := MakeEntry(w.crypto, Tip(db.entries), req);
            var rows := InsertEntry(db.entries, row);
            Exec(w, db, req) ==
              if rows.None? then (db, Raised(IntegrityError))
              else (db.(entries := rows.value), Logged(LedgerEntry(row, PayloadOf(req.payload))))
  {
    var next := TipRead(Tip(db.entries));
    assert Advance(w, db, req, Entered) == Continue(next);
    assert Advance(w, db, req, next) == AdvanceLog(w, db, req, Tip(db.entries));
    assert Drive(w, db, req, Entered) == Drive(w, db, req, next);
  }

  /** An anchor call run alone: both tracks on the head it read, then one row or an error. */
  function AnchorOutcome(w: World, db: Db, req: Request): (Db, Reply)
    requires req.Anchor? && Checked(req).None? && db.entries != []
  {
    var tip := db.entries[|db.entries| - 1];
    var head := FromHex(tip.entryHash);
    if !w.readable(tip.payload) || head.None? then (db, Raised(ValueError))
    else
      var ots := OtsTrack(w.apply, head.value, req.schedule.value.calendarServers, req.submit);
      if ots.None? then (db, Raised(ValueError)) else TokenOutcome(w, db, req, tip, ots.value)
  }

  function TokenOutcome(w: World, db: Db, req: Request, tip: EntryRow, ots: OtsResult): (Db, Reply)
    requires req.Anchor? && Checked(req).None?
  {
    var tsa := TsaFrom(|req.schedule.value.tsaUrls|, req.ask, 0);
    if tsa.TsaRaised? then (db, Raised(NetworkError))
    else if tsa.NoToken? && ots.accepted == [] then (db, Raised(RuntimeError))
    else
      var row := MakeAnchor(w, NextAnchorId(db.anchors), tip, ots, if tsa.Got? then Some(tsa.token) else None, req.now);
      (db.(anchors := db.anchors + [row]), Anchored(row))
  }

  lemma TokenAlone(w: World, db: Db, req: Request, tip: EntryRow, ots: OtsResult)
    requires req.Anchor? && Checked(req).None?
    ensures Drive(w, db, req, Submitted(tip, ots)) == TokenOutcome(w, db, req, tip, ots)
  {
    var a := Advance(w, db, req, Submitted(tip, ots));
    if a.Continue? { assert Drive(w, db, req, Submitted(tip, ots)) == Drive(w, db, req, a.local); }
  }

  lemma AnchorAlone(w: World, db: Db, req: Request)
    requires req.Anchor?
    ensures Exec(w, db, req) ==
              if Checked(req).Some? then (db, Raised(RuntimeError))
              else if db.entries == [] then (db, Nothing)
              else AnchorOutcome(w, db, req)
  {
    if Checked(req).None? {
      var a := Advance(w, db, req, Entered);
      if a.Continue? {
        var b := Advance(w, db, req, a.local);
        assert Drive(w, db, req, Entered) == Drive(w, db, req, a.local);
        if b.Continue? { TokenAlone(w, db, req, b.local.tip, b.local.ots); }
      }
    }
  }

  /** The witness is active and the signer offers its key. */
  predicate MayAttest(row: WitnessRow, req: Request)
    requires req.Attest?
  {
    row.retiredAt.None? && req.witnessSigner.keyId == row.publicKeyHex
  }

  /** The end of an attest call: the head is hashed, signed and inserted. */
  function SignOutcome(w: World, db: Db, req: Request, tip: EntryRow, prev: string): (Db, Reply)
    requires req.Attest?
  {
    match MakeAttestation(w.crypto, NextAttestationId(db.attestations), req.witnessId, tip, prev, req.now, req.witnessSigner)
    case None => (db, Raised(ValueError))
    case Some(row) => (db.(attestations := db.attestations + [row]), Attested(row))
  }

  /** An attest call run alone by a witness that may attest. */
  function AttestOutcome(w: World, db: Db, req: Request): (Db, Reply)
    requires req.Attest? && db.entries != []
  {
    var tip := db.entries[|db.entries| - 1];
    if !w.readable(tip.payload) then (db, Raised(ValueError))
    else SignOutcome(w, db, req, tip, LastHash(db.attestations, req.witnessId))
  }

  lemma SignAlone(w: World, db: Db, req: Request, tip: EntryRow, prev: string)
    requires req.Attest?
    ensures Drive(w, db, req, WitnessPrev(tip, prev)) == SignOutcome(w, db, req, tip, prev)
  {}

  lemma AttestTail(w: World, db: Db, req: Request)
    requires req.Attest? && db.entries != []
    ensures Drive(w, db, req, WitnessRead) == AttestOutcome(w, db, req)
  {
    var a := Advance(w, db, req, WitnessRead);
    if a.Continue? {
      var tip := db.entries[|db.entries| - 1];
      var prev := LastHash(db.attestations, req.witnessId);
      assert Drive(w, db, req, WitnessRead) == Drive(w, db, req, WitnessTip(tip));
      assert Drive(w, db, req, WitnessTip(tip)) == Drive(w, db, req, WitnessPrev(tip, prev));
      SignAlone(w, db, req, tip, prev);
    }
  }

  lemma AttestAlone(w: World, db: Db, req: Request)
    requires req.Attest?
    ensures var known := FindWitness(db.witnesses, req.witnessId);
            Exec(w, db, req) ==
              if known.None? then (db, Raised(KeyError))
              else if !MayAttest(known.value, req) then (db, Raised(RuntimeError))
              else if db.entries == [] then (db, Nothing)
              else AttestOutcome(w, db, req)
  {
    if db.entries != [] { AttestTail(w, db, req); }
    var a := Advance(w, db, req, Entered);
    if a.Continue? { assert Drive(w, db, req, Entered) == Drive(w, db, req, WitnessRead); }
  }

  function ExecAll(w: World, db: Db, reqs: seq<Request>): Db
    decreases |reqs|
  {
    if reqs == [] then db else Exec(w, ExecAll(w, db, reqs[..|reqs| - 1]), reqs[|reqs| - 1]).0
  }
}
