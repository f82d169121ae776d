/** The invariant of the tables and its preservation by every writer. */
module LedgerInv {
  import opened Base
  import opened Crypto
  import opened Json
  import opened Canonical
  import opened Clock
  import opened EntryChain
  import opened ChainCheck
  import opened WitnessChain
  import opened ProofTree
  import opened Submission
  import opened LedgerSpec

  // ---- the invariant ---------------------------------------------------------------------

  /** The id and hash of an entry of the table. */
  ghost predicate NamesEntry(rows: seq<EntryRow>, id: int, hash: string) {
    1 <= id <= |rows| && rows[id - 1].entryHash == hash
  }

  ghost predicate ColumnsPresent(db: Db) {
    && db.hasEventType && db.hasFormatVersion
    && forall i | 0 <= i < |db.entries| :: db.entries[i].eventType.Some? && db.entries[i].formatVersion.Some?
  }

  ghost predicate AnchorRowOk(entries: seq<EntryRow>, row: AnchorRow) {
    && NamesEntry(entries, row.chainHeadEntryId, row.chainHeadHash)
    && (row.otsProofBlob.Some? || row.tstBlob.Some?)
    && (row.tstBlob.Some? <==> row.tsaUrl.Some?) && (row.tstBlob.Some? <==> row.tsaGenTime.Some?)
    && (row.confirmedAt.None? ==> (row.otsProofBlob.Some? <==> row.calendarServers != []))
    && (row.confirmedAt.Some? ==> row.otsProofBlob.Some? && row.bitcoinBlockHeight.Some?)
    && exists t: UtcTime :: row.submittedAt == Format(t)
  }

  ghost predicate AnchorsOk(entries: seq<EntryRow>, rows: seq<AnchorRow>) {
    && (forall i | 0 <= i < |rows| :: AnchorRowOk(entries, rows[i]))
    && (forall i, j | 0 <= i < j < |rows| ::
          rows[i].anchorId < rows[j].anchorId && rows[i].chainHeadEntryId <= rows[j].chainHeadEntryId)
  }

  /** Ids in order, and no name or key held by two witnesses. */
  ghost predicate WitnessesDistinct(ws: seq<WitnessRow>) {
    forall i, j | 0 <= i < j < |ws| ::
      && ws[i].witnessId < ws[j].witnessId
      && ws[i].displayName != ws[j].displayName
      && ws[i].publicKeyHex != ws[j].publicKeyHex
  }

  ghost predicate HeadsAscending(rows: seq<AttestationRow>) {
    forall i, j | 0 <= i < j < |rows| :: rows[i].chainHeadEntryId <= rows[j].chainHeadEntryId
  }

  ghost predicate AttestationsOk(c: Crypto, ov: Option<Verifier>, entries: seq<EntryRow>, ws: seq<WitnessRow>, rows: seq<AttestationRow>) {
    && PassOk(c, ov, ws, rows)
    && AttestationIdsAscending(rows)
    && HeadsAscending(rows)
    && forall i | 0 <= i < |rows| :: NamesEntry(entries, rows[i].chainHeadEntryId, rows[i].chainHeadHash)
  }

  /** What every writer keeps. With a verifier, the signatures are part of it. */
  ghost predicate DbInv(w: World, ov: Option<Verifier>, db: Db) {
    && ColumnsPresent(db)
    && IdsFrom1(db.entries)
    && ValidChain(w.crypto, ov, db.entries)
    && AnchorsOk(db.entries, db.anchors)
    && WitnessesDistinct(db.witnesses)
    && AttestationsOk(w.crypto, ov, db.entries, db.witnesses, db.attestations)
  }

  /** The verifier knows the signers of the call. */
  ghost predicate KnownSigner(ov: Option<Verifier>, req: Request) {
    ov.Some? ==>
      && (req.Log? && req.signer.Some? ==> Honest(req.signer.value, ov.value))
      && (req.Attest? ==> Honest(req.witnessSigner, ov.value))
  }

  /** A fresh database satisfies the invariant. */
  lemma EmptyDbInv(w: World, ov: Option<Verifier>)
    ensures DbInv(w, ov, Db(true, true, [], [], [], []))
  {}

  // ---- log -----------------------------------------------------------------------------------

  /** A log call always succeeds: the tip has the greatest id, and the row takes the next. */
  lemma LogAppends(w: World, db: Db, req: Request)
    requires req.Log?
    ensures var row := MakeEntry(w.crypto, Tip(db.entries), req);
            Exec(w, db, req) == (db.(entries := db.entries + [row]), Logged(LedgerEntry(row, PayloadOf(req.payload))))
            && row.entryId == if db.entries == [] then 1 else db.entries[|db.entries| - 1].entryId + 1
  {
    LogAlone(w, db, req);
  }

  lemma LogEffect(w: World, db: Db, req: Request)
    requires req.Log? && IdsFrom1(db.entries)
    ensures var row := MakeEntry(w.crypto, Tip(db.entries), req);
            Exec(w, db, req) == (db.(entries := db.entries + [row]), Logged(LedgerEntry(row, PayloadOf(req.payload))))
            && row.entryId == |db.entries| + 1
  {
    LogAppends(w, db, req);
  }

  /** The row a log call adds is in order on top of a valid chain, signed or not. */
  lemma MadeEntryInOrder(c: Crypto, ov: Option<Verifier>, rows: seq<EntryRow>, req: Request)
    requires req.Log? && KnownSigner(ov, req)
    ensures var row := MakeEntry(c, Tip(rows), req);
            && row.previousHash == HeadHash(rows)
            && HashOk(c, row) && SignatureFault(c, ov, row).None?
  {
    var row := MakeEntry(c, Tip(rows), req);
    var unhashed := row.(entryHash := "", signature := None, signingKeyId := None);
    assert HashedFields(row) == HashedFields(unhashed);
    if req.signer.Some? {
      HexRoundTrip(req.signer.value.sign(c.utf8(row.entryHash)));
    }
  }

  lemma LogKeeps(w: World, ov: Option<Verifier>, db: Db, req: Request)
    requires req.Log? && DbInv(w, ov, db) && KnownSigner(ov, req)
    ensures DbInv(w, ov, Exec(w, db, req).0)
  {
    LogEffect(w, db, req);
    MadeEntryInOrder(w.crypto, ov, db.entries, req);
    var row := MakeEntry(w.crypto, Tip(db.entries), req);
    ValidExtend(w.crypto, ov, db.entries, row);
    forall i | 0 <= i < |db.anchors| ensures AnchorRowOk(db.entries + [row], db.anchors[i]) {
      assert AnchorRowOk(db.entries, db.anchors[i]);
    }
  }

  // ---- anchor --------------------------------------------------------------------------------

  /** An anchor call leaves the tables alone or adds one row, made from the head of the
      entries and from tracks of which at least one succeeded. */
  ghost predicate AnchorAdds(w: World, db: Db, req: Request, after: Db, reply: Reply) {
    exists tip, ots: OtsResult, token: Option<Token> ::
      && Tip(db.entries) == Some(tip)
      && (ots.accepted != [] || token.Some?)
      && IsOtsOf(w, tip, req, ots)
      && (forall t :: token == Some(t) <==> TsaFrom(|req.schedule.value.tsaUrls|, req.ask, 0) == Got(t))
      && var row := MakeAnchor(w, NextAnchorId(db.anchors), tip, ots, token, req.now);
         req.Anchor? && after == db.(anchors := db.anchors + [row]) && reply == Anchored(row)
  }

  ghost predicate IsOtsOf(w: World, tip: EntryRow, req: Request, ots: OtsResult) {
    req.Anchor? && req.schedule.Some? &&
    var head := FromHex(tip.entryHash);
    head.Some? && OtsTrack(w.apply, head.value, req.schedule.value.calendarServers, req.submit) == Some(ots)
  }

  lemma AnchorEffect(w: World, db: Db, req: Request)
    requires req.Anchor?
    ensures var (after, reply) := Exec(w, db, req);
            after == db || AnchorAdds(w, db, req, after, reply)
  {
    AnchorAlone(w, db, req);
    if Exec(w, db, req).1.Anchored? { AnchoredAdds(w, db, req); }
  }

  lemma AnchoredAdds(w: World, db: Db, req: Request)
    requires req.Anchor? && Checked(req).None? && db.entries != [] && AnchorOutcome(w, db, req).1.Anchored?
    ensures var (after, reply) := AnchorOutcome(w, db, req);
            AnchorAdds(w, db, req, after, reply)
  {
    var tip := db.entries[|db.entries| - 1];
    var ots := OtsTrack(w.apply, FromHex(tip.entryHash).value, req.schedule.value.calendarServers, req.submit).value;
    var tsa := TsaFrom(|req.schedule.value.tsaUrls|, req.ask, 0);
    var token := if tsa.Got? then Some(tsa.token) else None;
    assert IsOtsOf(w, tip, req, ots);
    assert AnchorOutcome(w, db, req) == TokenOutcome(w, db, req, tip, ots);
    assert Tip(db.entries) == Some(tip) && (forall t :: token == Some(t) <==> tsa == Got(t));
  }

  /** The head can be read, and every calendar that answered did so for its digest. */
  ghost predicate HeadSubmitted(w: World, db: Db, req: Request, ots: OtsResult)
    requires db.entries != []
  {
    w.readable(db.entries[|db.entries| - 1].payload) && IsOtsOf(w, db.entries[|db.entries| - 1], req, ots)
  }

  /** Which reply an anchor call gives, and that it adds a row exactly when it is an anchor. */
  lemma AnchorReply(w: World, db: Db, req: Request)
    requires req.Anchor?
    ensures var (after, reply) := Exec(w, db, req);
            var enabled := req.schedule.Some? && req.schedule.value.enabled;
            && (!enabled ==> reply == Raised(RuntimeError))
            && (reply == Nothing <==> enabled && db.entries == [])
            && (enabled && db.entries != [] ==>
                  var tsa := TsaFrom(|req.schedule.value.tsaUrls|, req.ask, 0);
                  && (reply == Raised(ValueError) <==> forall ots :: !HeadSubmitted(w, db, req, ots))
                  && (reply == Raised(NetworkError) <==> tsa.TsaRaised? && exists ots :: HeadSubmitted(w, db, req, ots))
                  && (reply == Raised(RuntimeError) <==> tsa.NoToken? && exists ots :: HeadSubmitted(w, db, req, ots) && ots.accepted == [])
                  && (reply.Anchored? <==> exists ots :: HeadSubmitted(w, db, req, ots) && (tsa.Got? || (tsa.NoToken? && ots.accepted != []))))
            && (reply.Anchored? ==> enabled && db.entries != [] && AnchorAdds(w, db, req, after, reply))
            && (!reply.Anchored? ==> after == db)
  {
    AnchorAlone(w, db, req);
    if Checked(req).None? && db.entries != [] {
      AnchorOutcomeReply(w, db, req);
      if AnchorOutcome(w, db, req).1.Anchored? { AnchoredAdds(w, db, req); }
    }
  }

  lemma AnchorOutcomeReply(w: World, db: Db, req: Request)
    requires req.Anchor? && Checked(req).None? && db.entries != []
    ensures var (after, reply) := AnchorOutcome(w, db, req);
            var tsa := TsaFrom(|req.schedule.value.tsaUrls|, req.ask, 0);
            && (reply == Raised(ValueError) <==> forall ots :: !HeadSubmitted(w, db, req, ots))
            && (reply == Raised(NetworkError) <==> tsa.TsaRaised? && exists ots :: HeadSubmitted(w, db, req, ots))
            && (reply == Raised(RuntimeError) <==> tsa.NoToken? && exists ots :: HeadSubmitted(w, db, req, ots) && ots.accepted == [])
            && (reply.Anchored? <==> exists ots :: HeadSubmitted(w, db, req, ots) && (tsa.Got? || (tsa.NoToken? && ots.accepted != [])))
            && reply != Nothing
            && (!reply.Anchored? ==> after == db)
  {
    var tip := db.entries[|db.entries| - 1];
    var head := FromHex(tip.entryHash);
    if w.readable(tip.payload) && head.Some? {
      var ots := OtsTrack(w.apply, head.value, req.schedule.value.calendarServers, req.submit);
      if ots.Some? {
        assert HeadSubmitted(w, db, req, ots.value);
        assert forall other :: HeadSubmitted(w, db, req, other) ==> other == ots.value;
      }
    }
  }

  /** What an anchored row holds: the head it was made for, the calendars that answered,
      in order, a proof of exactly their attestations, and the first authority's token. */
  lemma AnchoredRowContents(w: World, db: Db, req: Request)
    requires req.Anchor? && Exec(w, db, req).1.Anchored? && Exec(w, db, req).0 != db
    requires req.schedule.Some? && FormedPartials(w.apply, req.schedule.value.calendarServers, req.submit)
    ensures var (after, reply) := Exec(w, db, req);
            var (row, urls, n) := (reply.anchor, req.schedule.value.calendarServers, |req.schedule.value.tsaUrls|);
            && after == db.(anchors := db.anchors + [row])
            && db.entries != [] && row.chainHeadHash == HeadHash(db.entries)
            && row.chainHeadEntryId == db.entries[|db.entries| - 1].entryId
            && row.calendarServers == Answering(urls, req.submit, 0)
            && (row.otsProofBlob.Some? <==> row.calendarServers != [])
            && (row.otsProofBlob.Some? ==> exists proof ::
                  && row.otsProofBlob == Some(w.codec.serialise(proof))
                  && ProofTree.WellFormed(w.apply, proof) && Some(proof.msg) == FromHex(row.chainHeadHash)
                  && forall p :: p in AllPairs(proof) <==> InPartials(urls, req.submit, 0, p))
            && (forall t :: TsaFrom(n, req.ask, 0) == Got(t) ==>
                  row.tstBlob == Some(t.blob) && row.tsaUrl == Some(t.url) && row.tsaGenTime == Some(Format(t.genTime)))
            && (TsaFrom(n, req.ask, 0).NoToken? ==> row.tstBlob.None? && row.tsaUrl.None? && row.tsaGenTime.None?)
  {
    AnchorEffect(w, db, req);
    var (after, reply) := Exec(w, db, req);
    var tip, ots: OtsResult, token: Option<Token> :|
      && Tip(db.entries) == Some(tip)
      && (ots.accepted != [] || token.Some?)
      && IsOtsOf(w, tip, req, ots)
      && (forall t :: token == Some(t) <==> TsaFrom(|req.schedule.value.tsaUrls|, req.ask, 0) == Got(t))
      && var row := MakeAnchor(w, NextAnchorId(db.anchors), tip, ots, token, req.now);
         req.Anchor? && after == db.(anchors := db.anchors + [row]) && reply == Anchored(row);
    OtsTrackExact(w.apply, FromHex(tip.entryHash).value, req.schedule.value.calendarServers, req.submit);
    if token.Some? { assert token == Some(token.value); }
  }

  lemma MadeAnchorOk(w: World, entries: seq<EntryRow>, id: int, tip: EntryRow, ots: OtsResult, token: Option<Token>, now: UtcTime)
    requires IdsFrom1(entries) && Tip(entries) == Some(tip) && (ots.accepted != [] || token.Some?)
    ensures AnchorRowOk(entries, MakeAnchor(w, id, tip, ots, token, now))
  {
    var row := MakeAnchor(w, id, tip, ots, token, now);
    assert NamesEntry(entries, row.chainHeadEntryId, row.chainHeadHash);
    assert row.submittedAt == Format(now);
  }

  lemma AnchorIsBelow(entries: seq<EntryRow>, rows: seq<AnchorRow>, i: nat)
    requires AnchorsOk(entries, rows) && i < |rows|
    ensures rows[i].anchorId < NextAnchorId(rows) && rows[i].chainHeadEntryId <= |entries|
  {
    assert AnchorRowOk(entries, rows[i]);
    if i < |rows| - 1 { assert rows[i].anchorId < rows[|rows| - 1].anchorId; }
  }

  lemma AnchorsExtend(entries: seq<EntryRow>, rows: seq<AnchorRow>, row: AnchorRow)
    requires AnchorsOk(entries, rows) && AnchorRowOk(entries, row)
    requires row.anchorId == NextAnchorId(rows) && row.chainHeadEntryId == |entries|
    ensures AnchorsOk(entries, rows + [row])
  {
    forall i | 0 <= i < |rows| ensures rows[i].anchorId < row.anchorId && rows[i].chainHeadEntryId <= row.chainHeadEntryId {
      AnchorIsBelow(entries, rows, i);
    }
    assert forall i | 0 <= i < |rows + [row]| :: (rows + [row])[i] == if i < |rows| then rows[i] else row;
  }

  lemma AnchorKeeps(w: World, ov: Option<Verifier>, db: Db, req: Request)
    requires req.Anchor? && DbInv(w, ov, db)
    ensures DbInv(w, ov, Exec(w, db, req).0)
  {
    AnchorEffect(w, db, req);
    var (after, reply) := Exec(w, db, req);
    if after != db {
      var tip, ots: OtsResult, token: Option<Token> :|
        && Tip(db.entries) == Some(tip) && (ots.accepted != [] || token.Some?)
        && after == db.(anchors := db.anchors + [MakeAnchor(w, NextAnchorId(db.anchors), tip, ots, token, req.now)]);
      MadeAnchorOk(w, db.entries, NextAnchorId(db.anchors), tip, ots, token, req.now);
      AnchorsExtend(db.entries, db.anchors, MakeAnchor(w, NextAnchorId(db.anchors), tip, ots, token, req.now));
    }
  }

  // ---- confirm -------------------------------------------------------------------------------

  lemma ConfirmEffect(w: World, db: Db, req: Request)
    requires req.Confirm?
    ensures Exec(w, db, req).0 == db.(anchors := ConfirmRows(db.anchors, req))
  {}

  lemma ConfirmedRowOk(entries: seq<EntryRow>, row: AnchorRow, req: Request)
    requires req.Confirm? && AnchorRowOk(entries, row)
    ensures AnchorRowOk(entries, ConfirmedRow(row, req))
  {}

  /** The order of the anchors rests on ids and heads alone. */
  lemma AnchorsOkFrom(entries: seq<EntryRow>, before: seq<AnchorRow>, after: seq<AnchorRow>)
    requires AnchorsOk(entries, before) && |after| == |before|
    requires forall i | 0 <= i < |before| :: AnchorRowOk(entries, after[i])
    requires forall i | 0 <= i < |before| ::
      after[i].anchorId == before[i].anchorId && after[i].chainHeadEntryId == before[i].chainHeadEntryId
    ensures AnchorsOk(entries, after)
  {}

  lemma ConfirmedAnchorsOk(entries: seq<EntryRow>, rows: seq<AnchorRow>, req: Request)
    requires req.Confirm? && AnchorsOk(entries, rows)
    ensures AnchorsOk(entries, ConfirmRows(rows, req))
  {
    var after := ConfirmRows(rows, req);
    forall i | 0 <= i < |rows|
      ensures AnchorRowOk(entries, after[i])
      ensures after[i].anchorId == rows[i].anchorId && after[i].chainHeadEntryId == rows[i].chainHeadEntryId
    {
      assert AnchorRowOk(entries, rows[i]);
      ConfirmedRowOk(entries, rows[i], req);
    }
    AnchorsOkFrom(entries, rows, after);
  }

  lemma ConfirmKeeps(w: World, ov: Option<Verifier>, db: Db, req: Request)
    requires req.Confirm? && DbInv(w, ov, db)
    ensures DbInv(w, ov, Exec(w, db, req).0)
  {
    ConfirmEffect(w, db, req);
    ConfirmedAnchorsOk(db.entries, db.anchors, req);
  }

  // ---- witnesses -----------------------------------------------------------------------------

  /** A table of witnesses that still knows every witness of an older one, by the same key. */
  ghost predicate StillKnows(before: seq<WitnessRow>, after: seq<WitnessRow>) {
    forall id :: FindWitness(before, id).Some? ==>
      FindWitness(after, id).Some? && FindWitness(after, id).value.publicKeyHex == FindWitness(before, id).value.publicKeyHex
  }

  lemma PassStays(c: Crypto, ov: Option<Verifier>, ws: seq<WitnessRow>, more: seq<WitnessRow>, rows: seq<AttestationRow>)
    requires PassOk(c, ov, ws, rows) && StillKnows(ws, more)
    ensures PassOk(c, ov, more, rows)
  {
    forall i | 0 <= i < |rows| ensures RowInOrder(c, ov, more, rows, i) {
      assert RowInOrder(c, ov, ws, rows, i);
    }
  }

  lemma {:induction false} FindAfterAppend(ws: seq<WitnessRow>, row: WitnessRow, id: int)
    ensures FindWitness(ws, id).Some? ==> FindWitness(ws + [row], id) == FindWitness(ws, id)
  {
    if ws == [] {
    } else {
      assert (ws + [row])[1..] == ws[1..] + [row];
      FindAfterAppend(ws[1..], row, id);
    }
  }

  lemma {:induction false} FindAfterRetire(ws: seq<WitnessRow>, retired: int, at: string, id: int)
    ensures var (a, b) := (FindWitness(ws, id), FindWitness(RetireRows(ws, retired, at), id));
            && (a.Some? <==> b.Some?)
            && (a.Some? ==> b.value == if id == retired && a.value.retiredAt.None? then a.value.(retiredAt := Some(at)) else a.value)
  {
    if ws == [] {
    } else {
      assert RetireRows(ws, retired, at)[1..] == RetireRows(ws[1..], retired, at);
      FindAfterRetire(ws[1..], retired, at, id);
    }
  }

  lemma RegisterKeeps(w: World, ov: Option<Verifier>, db: Db, req: Request)
    requires req.Register? && DbInv(w, ov, db)
    ensures DbInv(w, ov, Exec(w, db, req).0)
  {
    var after := Exec(w, db, req).0;
    if after != db {
      var row := WitnessRow(NextWitnessId(db.witnesses), req.displayName, req.publicKeyHex, req.role, Format(req.now), None);
      assert after == db.(witnesses := db.witnesses + [row]);
      forall id ensures FindWitness(db.witnesses, id).Some? ==> FindWitness(after.witnesses, id) == FindWitness(db.witnesses, id) {
        FindAfterAppend(db.witnesses, row, id);
      }
      PassStays(w.crypto, ov, db.witnesses, after.witnesses, db.attestations);
    }
  }

  lemma RetireKeeps(w: World, ov: Option<Verifier>, db: Db, req: Request)
    requires req.Retire? && DbInv(w, ov, db)
    ensures DbInv(w, ov, Exec(w, db, req).0)
  {
    var more := RetireRows(db.witnesses, req.witnessId, Format(req.now));
    assert Exec(w, db, req).0 == db.(witnesses := more);
    forall id ensures FindWitness(db.witnesses, id).Some? ==>
      FindWitness(more, id).Some? && FindWitness(more, id).value.publicKeyHex == FindWitness(db.witnesses, id).value.publicKeyHex
    {
      FindAfterRetire(db.witnesses, req.witnessId, Format(req.now), id);
    }
    PassStays(w.crypto, ov, db.witnesses, more, db.attestations);
  }

  /** An attest call leaves the tables alone or adds one row of an active witness, signed
      with its key, over the head of the entries, linked to its last attestation. */
  ghost predicate AttestAdds(w: World, db: Db, req: Request, after: Db, reply: Reply) {
    exists known: WitnessRow, tip: EntryRow, row: AttestationRow ::
      && req.Attest?
      && FindWitness(db.witnesses, req.witnessId) == Some(known)
      && known.retiredAt.None? && known.publicKeyHex == req.witnessSigner.keyId
      && Tip(db.entries) == Some(tip)
      && MakeAttestation(w.crypto, NextAttestationId(db.attestations), req.witnessId, tip,
                         LastHash(db.attestations, req.witnessId), req.now, req.witnessSigner) == Some(row)
      && after == db.(attestations := db.attestations + [row]) && reply == Attested(row)
  }

  lemma AttestEffect(w: World, db: Db, req: Request)
    requires req.Attest?
    ensures var (after, reply) := Exec(w, db, req);
            after == db || AttestAdds(w, db, req, after, reply)
  {
    AttestReply(w, db, req);
  }

  /** The hash text of an attestation is always hexadecimal. */
  lemma MadeAttestationExists(c: Crypto, id: int, witnessId: int, tip: EntryRow, prev: string, now: UtcTime, signer: Signer)
    ensures MakeAttestation(c, id, witnessId, tip, prev, now, signer).Some?
  {
    var unsigned := AttestationRow(id, witnessId, tip.entryId, tip.entryHash, Format(now), prev, "", "");
    HexRoundTrip(c.sha256(AttestedText(unsigned)));
  }

  /** Which reply an attest call gives, and that it adds a row exactly when it is an
      attestation. */
  lemma AttestReply(w: World, db: Db, req: Request)
    requires req.Attest?
    ensures var (after, reply) := Exec(w, db, req);
            var known := FindWitness(db.witnesses, req.witnessId);
            var may := known.Some? && MayAttest(known.value, req);
            && (reply == Raised(KeyError) <==> known.None?)
            && (reply == Raised(RuntimeError) <==> known.Some? && !may)
            && (reply == Nothing <==> may && db.entries == [])
            && (reply == Raised(ValueError) <==> may && db.entries != [] && !w.readable(db.entries[|db.entries| - 1].payload))
            && (reply.Attested? <==> may && db.entries != [] && w.readable(db.entries[|db.entries| - 1].payload))
            && (reply.Attested? ==> AttestAdds(w, db, req, after, reply))
            && (!reply.Attested? ==> after == db)
  {
    AttestAlone(w, db, req);
    var known := FindWitness(db.witnesses, req.witnessId);
    if known.Some? && MayAttest(known.value, req) && db.entries != [] {
      var tip := db.entries[|db.entries| - 1];
      MadeAttestationExists(w.crypto, NextAttestationId(db.attestations), req.witnessId, tip,
                            LastHash(db.attestations, req.witnessId), req.now, req.witnessSigner);
    }
  }

  /** The row is in order for any verifier that knows the signer. */
  lemma MadeAttestationInOrder(c: Crypto, ov: Option<Verifier>, ws: seq<WitnessRow>, known: WitnessRow,
                               id: int, witnessId: int, tip: EntryRow, prev: string, now: UtcTime, signer: Signer)
    requires FindWitness(ws, witnessId) == Some(known) && known.publicKeyHex == signer.keyId
    requires ov.Some? ==> Honest(signer, ov.value)
    ensures var row := MakeAttestation(c, id, witnessId, tip, prev, now, signer);
            row.Some? && AttestationFault(c, ov, ws, row.value, prev).None?
  {
    var unsigned := AttestationRow(id, witnessId, tip.entryId, tip.entryHash, Format(now), prev, "", "");
    var digest := c.sha256(AttestedText(unsigned));
    HexRoundTrip(digest);
    var row := MakeAttestation(c, id, witnessId, tip, prev, now, signer).value;
    assert AttestedFields(row) == AttestedFields(unsigned);
    HexRoundTrip(signer.sign(digest));
  }

  lemma AttestationsExtend(c: Crypto, ov: Option<Verifier>, entries: seq<EntryRow>, ws: seq<WitnessRow>, rows: seq<AttestationRow>, row: AttestationRow)
    requires AttestationsOk(c, ov, entries, ws, rows)
    requires AttestationFault(c, ov, ws, row, LastHash(rows, row.witnessId)).None?
    requires row.attestationId == NextAttestationId(rows)
    requires row.chainHeadEntryId == |entries| && NamesEntry(entries, row.chainHeadEntryId, row.chainHeadHash)
    ensures AttestationsOk(c, ov, entries, ws, rows + [row])
  {
    PassExtend(c, ov, ws, rows, row);
    forall i | 0 <= i < |rows|
      ensures rows[i].attestationId < row.attestationId && rows[i].chainHeadEntryId <= row.chainHeadEntryId
    {
      assert NamesEntry(entries, rows[i].chainHeadEntryId, rows[i].chainHeadHash);
      if i < |rows| - 1 { assert rows[i].attestationId < rows[|rows| - 1].attestationId; }
    }
  }

  lemma AttestKeeps(w: World, ov: Option<Verifier>, db: Db, req: Request)
    requires req.Attest? && DbInv(w, ov, db) && KnownSigner(ov, req)
    ensures DbInv(w, ov, Exec(w, db, req).0)
  {
    AttestEffect(w, db, req);
    var (after, reply) := Exec(w, db, req);
    if after != db {
      var known := FindWitness(db.witnesses, req.witnessId).value;
      var tip := Tip(db.entries).value;
      var (id, prev) := (NextAttestationId(db.attestations), LastHash(db.attestations, req.witnessId));
      MadeAttestationInOrder(w.crypto, ov, db.witnesses, known, id, req.witnessId, tip, prev, req.now, req.witnessSigner);
      var row := MakeAttestation(w.crypto, id, req.witnessId, tip, prev, req.now, req.witnessSigner).value;
      assert NamesEntry(db.entries, row.chainHeadEntryId, row.chainHeadHash);
      AttestationsExtend(w.crypto, ov, db.entries, db.witnesses, db.attestations, row);
    }
  }

  // ---- the chain alone -------------------------------------------------------------------------

  lemma EntriesStay(w: World, db: Db, req: Request)
    requires !req.Log?
    ensures Exec(w, db, req).0.entries == db.entries
  {
    match req
    case Anchor(_, _, _, _) => AnchorEffect(w, db, req);
    case Confirm(_, _, _, _, _) => ConfirmEffect(w, db, req);
    case Attest(_, _, _) => AttestEffect(w, db, req);
    case _ =>
  }

  /** Whatever the ids of the table are, a call keeps its chain valid, and ascending ids
      ascending. */
  lemma ExecKeepsChain(w: World, ov: Option<Verifier>, db: Db, req: Request)
    requires ValidChain(w.crypto, ov, db.entries) && KnownSigner(ov, req)
    ensures ValidChain(w.crypto, ov, Exec(w, db, req).0.entries)
    ensures IdsAscending(db.entries) ==> IdsAscending(Exec(w, db, req).0.entries)
  {
    if req.Log? {
      LogAppends(w, db, req);
      MadeEntryInOrder(w.crypto, ov, db.entries, req);
      var row := MakeEntry(w.crypto, Tip(db.entries), req);
      ValidExtend(w.crypto, ov, db.entries, row);
      NextIdAscends(db.entries, row);
    } else {
      EntriesStay(w, db, req);
    }
  }

  lemma NextIdAscends(rows: seq<EntryRow>, row: EntryRow)
    requires row.entryId == if rows == [] then 1 else rows[|rows| - 1].entryId + 1
    ensures IdsAscending(rows) ==> IdsAscending(rows + [row])
  {
    if IdsAscending(rows) && rows != [] {
      forall i | 0 <= i < |rows| ensures rows[i].entryId < row.entryId {
        if i < |rows| - 1 { assert rows[i].entryId < rows[|rows| - 1].entryId; }
      }
    }
  }

  lemma {:induction false} ExecAllKeepsChain(w: World, ov: Option<Verifier>, db: Db, reqs: seq<Request>)
    requires ValidChain(w.crypto, ov, db.entries) && forall i | 0 <= i < |reqs| :: KnownSigner(ov, reqs[i])
    ensures ValidChain(w.crypto, ov, ExecAll(w, db, reqs).entries)
    ensures IdsAscending(db.entries) ==> IdsAscending(ExecAll(w, db, reqs).entries)
    decreases |reqs|
  {
    if reqs == [] {
    } else {
      ExecAllKeepsChain(w, ov, db, reqs[..|reqs| - 1]);
      ExecKeepsChain(w, ov, ExecAll(w, db, reqs[..|reqs| - 1]), reqs[|reqs| - 1]);
    }
  }

  // ---- reading the head ------------------------------------------------------------------------

  /** What `json.loads` must accept at least: the texts the reader of this model accepts. */
  ghost predicate LoadsReadable(w: World) {
    forall s :: Loads(s).Some? ==> w.readable(s)
  }

  ghost predicate PayloadsReadable(w: World, rows: seq<EntryRow>) {
    forall i | 0 <= i < |rows| :: w.readable(rows[i].payload)
  }

  lemma LoggedPayloadReads(w: World, v: Json)
    requires LoadsReadable(w)
    ensures w.readable(CanonicalJson(v))
  {
    RenderRoundTrip(Canon(v), "");
    assert CanonicalJson(v) + "" == CanonicalJson(v);
  }

  /** Reading the payload of the head never ends an anchor or attest call of a ledger whose
      rows were logged: readable payloads stay readable in every run. */
  lemma {:induction false} PayloadsStayReadable(w: World, db: Db, reqs: seq<Request>)
    requires LoadsReadable(w) && PayloadsReadable(w, db.entries)
    ensures PayloadsReadable(w, ExecAll(w, db, reqs).entries)
    decreases |reqs|
  {
    if reqs == [] {
    } else {
      var (before, req) := (ExecAll(w, db, reqs[..|reqs| - 1]), reqs[|reqs| - 1]);
      PayloadsStayReadable(w, db, reqs[..|reqs| - 1]);
      if req.Log? {
        LogAppends(w, before, req);
        LoggedPayloadReads(w, PayloadOf(req.payload));
      } else {
        EntriesStay(w, before, req);
      }
    }
  }

  // ---- all of them -----------------------------------------------------------------------------

  /** Every call keeps the invariant. */
  lemma ExecKeepsInv(w: World, ov: Option<Verifier>, db: Db, req: Request)
    requires DbInv(w, ov, db) && KnownSigner(ov, req)
    ensures DbInv(w, ov, Exec(w, db, req).0)
  {
    match req
    case Log(_, _, _, _, _, _) => LogKeeps(w, ov, db, req);
    case Anchor(_, _, _, _) => AnchorKeeps(w, ov, db, req);
    case Confirm(_, _, _, _, _) => ConfirmKeeps(w, ov, db, req);
    case Register(_, _, _, _) => RegisterKeeps(w, ov, db, req);
    case Retire(_, _) => RetireKeeps(w, ov, db, req);
    case Attest(_, _, _) => AttestKeeps(w, ov, db, req);
  }

  lemma {:induction false} ExecAllKeepsInv(w: World, ov: Option<Verifier>, db: Db, reqs: seq<Request>)
    requires DbInv(w, ov, db) && forall i | 0 <= i < |reqs| :: KnownSigner(ov, reqs[i])
    ensures DbInv(w, ov, ExecAll(w, db, reqs))
    decreases |reqs|
  {
    if reqs == [] {
    } else {
      ExecAllKeepsInv(w, ov, db, reqs[..|reqs| - 1]);
      ExecKeepsInv(w, ov, ExecAll(w, db, reqs[..|reqs| - 1]), reqs[|reqs| - 1]);
    }
  }
}
