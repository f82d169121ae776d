/** What single calls leave behind, field by field: the values a caller can count on,
    without reference to how the rows are built. */
module CallContents {
  import opened Base
  import opened Crypto
  import opened Json
  import opened Clock
  import opened EntryChain
  import opened WitnessChain
  import opened Submission
  import opened LedgerSpec
  import opened LedgerInv
  import opened LedgerRuns
  import opened Replies

  // ---- attest_with_witness -----------------------------------------------------------------

  /** The hash of the last of a witness's own rows, or the genesis value. */
  function PreviousHash(own: seq<AttestationRow>): string {
    if own == [] then GENESIS else own[|own| - 1].attestationHash
  }

  /** An attestation is of the head, by the witness asked, at the time of the call, linked
      to the last of its own, and signed over its own hash. */
  lemma AttestedContents(w: World, db: Db, req: Request)
    requires req.Attest? && Exec(w, db, req).1.Attested?
    ensures var (after, row) := (Exec(w, db, req).0, Exec(w, db, req).1.attestation);
            && db.entries != [] && after == db.(attestations := db.attestations + [row])
            && row.attestationId == (if db.attestations == [] then 1 else db.attestations[|db.attestations| - 1].attestationId + 1)
            && row.witnessId == req.witnessId && Parse(row.signedAt) == Some(req.now)
            && row.chainHeadEntryId == db.entries[|db.entries| - 1].entryId
            && row.chainHeadHash == db.entries[|db.entries| - 1].entryHash
            && row.prevAttestationHash == PreviousHash(Filter(db.attestations, req.witnessId))
            && row.attestationHash == ToHex(w.crypto.sha256(AttestedText(row)))
            && row.signatureHex == ToHex(req.witnessSigner.sign(w.crypto.sha256(AttestedText(row))))
  {
    AttestReply(w, db, req);
    var (after, reply) := Exec(w, db, req);
    AddedAttestation(w, db, req, after, reply);
  }

  lemma AddedAttestation(w: World, db: Db, req: Request, after: Db, reply: Reply)
    requires AttestAdds(w, db, req, after, reply)
    ensures reply.Attested? && req.Attest? && db.entries != []
    ensures var row := reply.attestation;
            && after == db.(attestations := db.attestations + [row])
            && row.attestationId == (if db.attestations == [] then 1 else db.attestations[|db.attestations| - 1].attestationId + 1)
            && row.witnessId == req.witnessId && Parse(row.signedAt) == Some(req.now)
            && row.chainHeadEntryId == db.entries[|db.entries| - 1].entryId
            && row.chainHeadHash == db.entries[|db.entries| - 1].entryHash
            && row.prevAttestationHash == PreviousHash(Filter(db.attestations, req.witnessId))
            && row.attestationHash == ToHex(w.crypto.sha256(AttestedText(row)))
            && row.signatureHex == ToHex(req.witnessSigner.sign(w.crypto.sha256(AttestedText(row))))
  {
    LastOfFilter(db.attestations, req.witnessId);
    MadeAttestationContents(w.crypto, NextAttestationId(db.attestations), req.witnessId, db.entries[|db.entries| - 1],
                            LastHash(db.attestations, req.witnessId), req.now, req.witnessSigner);
  }

  lemma MadeAttestationContents(c: Crypto, id: int, witnessId: int, tip: EntryRow, prev: string, now: UtcTime, signer: Signer)
    ensures var made := MakeAttestation(c, id, witnessId, tip, prev, now, signer);
            made.Some? &&
            var row := made.value;
            && row.attestationId == id && row.witnessId == witnessId && Parse(row.signedAt) == Some(now)
            && row.chainHeadEntryId == tip.entryId && row.chainHeadHash == tip.entryHash
            && row.prevAttestationHash == prev
            && row.attestationHash == ToHex(c.sha256(AttestedText(row)))
            && row.signatureHex == ToHex(signer.sign(c.sha256(AttestedText(row))))
  {
    MadeAttestationExists(c, id, witnessId, tip, prev, now, signer);
    var row := MakeAttestation(c, id, witnessId, tip, prev, now, signer).value;
    var unsigned := row.(attestationHash := "", signatureHex := "");
    assert AttestedFields(row) == AttestedFields(unsigned);
    HexRoundTrip(c.sha256(AttestedText(unsigned)));
    ParseFormat(now);
  }

  // ---- anchor ------------------------------------------------------------------------------

  /** A new anchor is of the head, submitted at the time of the call, with the next id, and
      not confirmed. */
  lemma AnchoredContents(w: World, db: Db, req: Request)
    requires req.Anchor? && Exec(w, db, req).1.Anchored?
    ensures var (after, row) := (Exec(w, db, req).0, Exec(w, db, req).1.anchor);
            && db.entries != [] && after == db.(anchors := db.anchors + [row])
            && row.chainHeadEntryId == db.entries[|db.entries| - 1].entryId
            && row.chainHeadHash == db.entries[|db.entries| - 1].entryHash
            && Parse(row.submittedAt) == Some(req.now)
            && row.anchorId == (if db.anchors == [] then 1 else db.anchors[|db.anchors| - 1].anchorId + 1)
            && row.confirmedAt.None? && row.bitcoinBlockHeight.None? && row.bitcoinBlockHash.None?
  {
    AnchorReply(w, db, req);
    var (after, reply) := Exec(w, db, req);
    assert AnchorAdds(w, db, req, after, reply);
    AddedAnchor(w, db, req, after, reply);
  }

  lemma AddedAnchor(w: World, db: Db, req: Request, after: Db, reply: Reply)
    requires AnchorAdds(w, db, req, after, reply)
    ensures reply.Anchored? && db.entries != [] && req.Anchor?
    ensures var row := reply.anchor;
            && after == db.(anchors := db.anchors + [row])
            && row.chainHeadEntryId == db.entries[|db.entries| - 1].entryId
            && row.chainHeadHash == db.entries[|db.entries| - 1].entryHash
            && Parse(row.submittedAt) == Some(req.now)
            && row.anchorId == (if db.anchors == [] then 1 else db.anchors[|db.anchors| - 1].anchorId + 1)
            && row.confirmedAt.None? && row.bitcoinBlockHeight.None? && row.bitcoinBlockHash.None?
  {
    var tip, ots: OtsResult, token: Option<Token> :|
      && Tip(db.entries) == Some(tip)
      && var row := MakeAnchor(w, NextAnchorId(db.anchors), tip, ots, token, req.now);
         req.Anchor? && after == db.(anchors := db.anchors + [row]) && reply == Anchored(row);
    MadeAnchorContents(w, NextAnchorId(db.anchors), tip, ots, token, req.now);
  }

  lemma MadeAnchorContents(w: World, id: int, tip: EntryRow, ots: OtsResult, token: Option<Token>, now: UtcTime)
    ensures var row := MakeAnchor(w, id, tip, ots, token, now);
            && row.anchorId == id && row.chainHeadEntryId == tip.entryId && row.chainHeadHash == tip.entryHash
            && Parse(row.submittedAt) == Some(now)
            && row.confirmedAt.None? && row.bitcoinBlockHeight.None? && row.bitcoinBlockHash.None?
  {
    ParseFormat(now);
  }

  // ---- retire_witness ----------------------------------------------------------------------

  /** A retirement of a known witness leaves it retired: since this call if it was active,
      otherwise since its first retirement. Other witnesses and tables stay. */
  lemma RetiredContents(w: World, db: Db, req: Request)
    requires req.Retire?
    ensures var (after, reply) := Exec(w, db, req);
            var (known, row) := (FindWitness(db.witnesses, req.witnessId), FindWitness(after.witnesses, req.witnessId));
            && after == db.(witnesses := after.witnesses)
            && (reply == Raised(KeyError) <==> known.None?)
            && (known.Some? ==>
                  && row.Some? && reply == WitnessReply(row.value) && Retired(after, req.witnessId)
                  && SameIdentity(known.value, row.value)
                  && (known.value.retiredAt.None? ==> Parse(row.value.retiredAt.value) == Some(req.now)))
            && forall id | id != req.witnessId :: FindWitness(after.witnesses, id) == FindWitness(db.witnesses, id)
  {
    var at := Format(req.now);
    assert Exec(w, db, req).0 == db.(witnesses := RetireRows(db.witnesses, req.witnessId, at));
    FindAfterRetire(db.witnesses, req.witnessId, at, req.witnessId);
    forall id | id != req.witnessId
      ensures FindWitness(RetireRows(db.witnesses, req.witnessId, at), id) == FindWitness(db.witnesses, id)
    {
      FindAfterRetire(db.witnesses, req.witnessId, at, id);
    }
    ParseFormat(req.now);
  }

  // ---- confirm_anchor ----------------------------------------------------------------------

  /** A confirmation of an existing anchor gives it the proof, height, block hash and time of
      the call and keeps the rest of its record. Other anchors and tables stay. */
  lemma ConfirmedContents(w: World, db: Db, req: Request)
    requires req.Confirm?
    ensures var (after, reply) := Exec(w, db, req);
            var (known, row) := (FindAnchor(db.anchors, req.anchorId), FindAnchor(after.anchors, req.anchorId));
            && after == db.(anchors := after.anchors)
            && (reply == Raised(KeyError) <==> known.None?)
            && (known.Some? ==>
                  && row.Some? && reply == Anchored(row.value) && SameRecord(known.value, row.value)
                  && row.value.otsProofBlob == Some(req.blob) && row.value.bitcoinBlockHeight == Some(req.height)
                  && row.value.bitcoinBlockHash == req.blockHash
                  && row.value.confirmedAt.Some? && Parse(row.value.confirmedAt.value) == Some(req.now))
            && forall id | id != req.anchorId :: FindAnchor(after.anchors, id) == FindAnchor(db.anchors, id)
  {
    ConfirmEffect(w, db, req);
    FindConfirmed(db.anchors, req, req.anchorId);
    forall id | id != req.anchorId ensures FindAnchor(ConfirmRows(db.anchors, req), id) == FindAnchor(db.anchors, id) {
      FindConfirmed(db.anchors, req, id);
    }
    ParseFormat(req.now);
  }

  lemma {:induction false} FindAnchorIff(rows: seq<AnchorRow>, id: int)
    ensures FindAnchor(rows, id).Some? <==> exists i | 0 <= i < |rows| :: rows[i].anchorId == id
    ensures FindAnchor(rows, id).Some? ==> FindAnchor(rows, id).value in rows && FindAnchor(rows, id).value.anchorId == id
  {
    if rows == [] {
    } else {
      FindAnchorIff(rows[1..], id);
      assert rows == [rows[0]] + rows[1..];
    }
  }

  // ---- get_entry ---------------------------------------------------------------------------

  lemma {:induction false} FindEntryIff(rows: seq<EntryRow>, id: int)
    ensures FindEntry(rows, id).Some? <==> exists i | 0 <= i < |rows| :: rows[i].entryId == id
    ensures FindEntry(rows, id).Some? ==> FindEntry(rows, id).value in rows && FindEntry(rows, id).value.entryId == id
  {
    if rows == [] {
    } else {
      FindEntryIff(rows[1..], id);
      assert rows == [rows[0]] + rows[1..];
    }
  }

  /** Reading by id raises KeyError exactly when no row has the id; what is returned is a row
      of the table with that id, and its stored payload read. */
  lemma EntryByIdIff(rows: seq<EntryRow>, id: int)
    ensures EntryById(rows, id) == Err(KeyError) <==> forall i | 0 <= i < |rows| :: rows[i].entryId != id
    ensures var r := EntryById(rows, id);
            r.Ok? ==> r.value.row in rows && r.value.row.entryId == id && Loads(r.value.row.payload) == Some(r.value.payload)
    ensures EntryById(rows, id) == Err(ValueError) ==>
              exists i | 0 <= i < |rows| :: rows[i].entryId == id && Loads(rows[i].payload).None?
  {
    FindEntryIff(rows, id);
  }
}
