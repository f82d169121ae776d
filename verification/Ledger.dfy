/** The ledger: its tables as fields, its calls as methods that update them. */
module LedgerClass {
  import opened Base
  import opened Crypto
  import opened Json
  import opened Clock
  import opened EntryChain
  import opened ChainCheck
  import opened WitnessChain
  import opened Submission
  import opened LedgerSpec
  import opened LedgerRuns
  import opened Migration
  import opened AnchorTable
  import A = AttestationTable

  class Ledger {
    const world: World

    var hasEventType: bool
    var hasFormatVersion: bool
    var entries: seq<EntryRow>
    var anchors: seq<AnchorRow>
    var witnesses: seq<WitnessRow>
    var attestations: seq<AttestationRow>

    ghost function Contents(): Db
      reads this
    {
      Db(hasEventType, hasFormatVersion, entries, anchors, witnesses, attestations)
    }

    /** `init` on a database file. */
    constructor (w: World, db: Db)
      ensures world == w && Contents() == Migrate(db)
    {
      world := w;
      hasEventType, hasFormatVersion := db.hasEventType, db.hasFormatVersion;
      entries, anchors := db.entries, db.anchors;
      witnesses, attestations := db.witnesses, db.attestations;
      new;
      MigrateLegacyColumns();
    }

    method MigrateLegacyColumns()
      modifies this
      ensures Contents() == Migrate(old(Contents()))
    {
      if !hasEventType {
        entries := FillEventType(entries);
        hasEventType := true;
      }
      if !hasFormatVersion {
        entries := FillFormatVersion(entries);
        hasFormatVersion := true;
      }
    }

    /** SELECT ... ORDER BY entry_id DESC LIMIT 1 */
    method LatestEntry() returns (tip: Option<EntryRow>)
      ensures tip == Tip(entries)
    {
      tip := if entries == [] then None else Some(entries[|entries| - 1]);
    }

    /** `_get_latest_entry_locked`: the row becomes an entry, and reading its payload can
        raise. */
    method LatestEntryLocked() returns (r: Result<Option<EntryRow>, Error>)
      ensures r == if entries != [] && !world.readable(entries[|entries| - 1].payload) then Err(ValueError) else Ok(Tip(entries))
    {
      var tip := LatestEntry();
      if tip.Some? && !world.readable(tip.value.payload) { return Err(ValueError); }
      r := Ok(tip);
    }

    method Log(now: UtcTime, actor: string, action: string, payload: Option<seq<Member>>, signer: Option<Signer>, eventType: string)
      returns (r: Reply)
      modifies this
      ensures (Contents(), r) == Exec(world, old(Contents()), Request.Log(now, actor, action, payload, signer, eventType))
    {
      ghost var req := Request.Log(now, actor, action, payload, signer, eventType);
      var dict := if payload.None? then [] else payload.value;
      var tip := LatestEntry();
      var row := NewEntry(tip, now, actor, action, dict, signer, eventType);
      assert row == MakeEntry(world.crypto, tip, req);
      LogAlone(world, Contents(), req);
      var inserted := InsertEntry(entries, row);
      if inserted.None? { return Raised(IntegrityError); }
      entries := inserted.value;
      r := Logged(LedgerEntry(row, Obj(dict)));
    }

    /** The row `log` inserts: linked to the tip, hashed, and signed if there is a signer. */
    method NewEntry(tip: Option<EntryRow>, now: UtcTime, actor: string, action: string, dict: seq<Member>, signer: Option<Signer>, eventType: string)
      returns (row: EntryRow)
      ensures row == MakeEntry(world.crypto, tip, Request.Log(now, actor, action, Some(dict), signer, eventType))
    {
      var nextId, previousHash := 1, GENESIS;
      if tip.Some? {
        nextId, previousHash := tip.value.entryId + 1, tip.value.entryHash;
      }
      row := EntryRow(nextId, Format(now), actor, action, CanonicalJson(Obj(dict)), previousHash, "",
                      None, None, Some(eventType), Some(CURRENT_FORMAT_VERSION));
      row := row.(entryHash := ComputeEntryHash(world.crypto, row));
      if signer.Some? {
        var signature := signer.value.sign(world.crypto.utf8(row.entryHash));
        row := row.(signature := Some(ToHex(signature)), signingKeyId := Some(signer.value.keyId));
      }
    }

    /** `verify_chain`: the whole table is walked, the first fault ends the walk. */
    method VerifyChain(ov: Option<Verifier>) returns (r: Result<nat, ChainFault>)
      ensures IsVerdict(world.crypto, ov, entries, r)
      ensures ov.Some? && r.Ok? ==>
                forall i | 0 <= i < |entries| && entries[i].signature.Some? :: SignedRow(world.crypto, ov.value, entries[i])
    {
      var rows := entries;
      var expectedPrevious := GENESIS;
      for i := 0 to |rows|
        invariant rows == entries && expectedPrevious == ExpectedPrevious(rows, i)
        invariant ValidChain(world.crypto, ov, rows[..i])
      {
        var row := rows[i];
        if row.previousHash != expectedPrevious {
          assert RejectedAt(world.crypto, ov, rows, i, ChainFault(row.entryId, PreviousMismatch));
          return Err(ChainFault(row.entryId, PreviousMismatch));
        }
        if ComputeEntryHash(world.crypto, row) != row.entryHash {
          assert RejectedAt(world.crypto, ov, rows, i, ChainFault(row.entryId, HashMismatch));
          return Err(ChainFault(row.entryId, HashMismatch));
        }
        if ov.Some? && row.signature.Some? {
          var signature := FromHex(row.signature.value);
          if signature.None? {
            assert RejectedAt(world.crypto, ov, rows, i, ChainFault(row.entryId, SignatureNotHex));
            return Err(ChainFault(row.entryId, SignatureNotHex));
          }
          var answer := ov.value.verify(row.signingKeyId, world.crypto.utf8(row.entryHash), signature.value);
          if answer != Some(true) {
            var kind := if answer.None? then VerifierRaised else SignatureInvalid;
            assert RejectedAt(world.crypto, ov, rows, i, ChainFault(row.entryId, kind));
            return Err(ChainFault(row.entryId, kind));
          }
        }
        expectedPrevious := row.entryHash;
        ValidStep(world.crypto, ov, rows, i);
      }
      assert rows[..|rows|] == rows;
      if ov.Some? { SignedChainIff(world.crypto, ov.value, rows); }
      r := Ok(|rows|);
    }

    method GetEntry(id: int) returns (r: Result<LedgerEntry, Error>)
      ensures r == EntryById(entries, id)
    {
      for i := 0 to |entries|
        invariant FindEntry(entries, id) == FindEntry(entries[i..], id)
      {
        if entries[i].entryId == id { return RowToEntry(entries[i]); }
      }
      r := Err(KeyError);
    }

    method AnchorHead(now: UtcTime, schedule: Option<Schedule>, submit: Submit, ask: AskTsa) returns (r: Reply)
      modifies this`anchors
      ensures (Contents(), r) == Exec(world, old(Contents()), Request.Anchor(now, schedule, submit, ask))
    {
      ghost var (db, req) := (Contents(), Request.Anchor(now, schedule, submit, ask));
      AnchorAlone(world, db, req);
      if schedule.None? || !schedule.value.enabled { return Raised(RuntimeError); }
      var read := LatestEntryLocked();
      if read.Err? { return Raised(read.error); }
      var tip := read.value;
      if tip.None? { return Nothing; }
      var head := FromHex(tip.value.entryHash);
      if head.None? { return Raised(ValueError); }
      var ots := SubmitOtsTrack(world.apply, head.value, schedule.value.calendarServers, submit);
      if ots.None? { return Raised(ValueError); }
      assert Exec(world, db, req) == TokenOutcome(world, db, req, tip.value, ots.value);
      r := AnchorWithToken(tip.value, ots.value, now, schedule.value, submit, ask);
    }

    /** The rest of the section: the authorities are asked and the row is inserted. */
    method AnchorWithToken(tip: EntryRow, ots: OtsResult, now: UtcTime, schedule: Schedule, submit: Submit, ask: AskTsa) returns (r: Reply)
      requires schedule.enabled
      modifies this`anchors
      ensures (Contents(), r) == TokenOutcome(world, old(Contents()), Request.Anchor(now, Some(schedule), submit, ask), tip, ots)
    {
      var tsa := SubmitTsaTrack(schedule.tsaUrls, ask);
      if tsa.TsaRaised? { return Raised(NetworkError); }
      if ots.accepted == [] && tsa.NoToken? { return Raised(RuntimeError); }
      var token := if tsa.Got? then Some(tsa.token) else None;
      r := InsertAnchorLocked(tip, ots, token, now);
    }

    method InsertAnchorLocked(tip: EntryRow, ots: OtsResult, token: Option<Token>, now: UtcTime) returns (r: Reply)
      modifies this`anchors
      ensures var row := MakeAnchor(world, NextAnchorId(old(anchors)), tip, ots, token, now);
              anchors == old(anchors) + [row] && r == Anchored(row)
    {
      var id := if anchors == [] then 1 else anchors[|anchors| - 1].anchorId + 1;
      var blob := if ots.accepted == [] then None else Some(world.codec.serialise(ots.proof));
      var row := AnchorRow(id, tip.entryHash, tip.entryId, blob, Format(now), ots.accepted, None, None, None, None, None, None);
      if token.Some? {
        row := row.(tstBlob := Some(token.value.blob), tsaUrl := Some(token.value.url),
                    tsaGenTime := Some(Format(token.value.genTime)));
      }
      anchors := anchors + [row];
      r := Anchored(row);
    }

    method ConfirmAnchor(id: int, blob: Bytes, height: int, blockHash: Option<string>, now: UtcTime) returns (r: Reply)
      modifies this`anchors
      ensures (Contents(), r) == Exec(world, old(Contents()), Request.Confirm(id, blob, height, blockHash, now))
      ensures anchors == ConfirmRows(old(anchors), Request.Confirm(id, blob, height, blockHash, now))
    {
      var req := Request.Confirm(id, blob, height, blockHash, now);
      anchors := ConfirmRows(anchors, req);
      var row := FindAnchor(anchors, id);
      r := if row.None? then Raised(KeyError) else Anchored(row.value);
    }

    method RegisterWitness(now: UtcTime, displayName: string, publicKeyHex: string, role: string) returns (r: Reply)
      modifies this`witnesses
      ensures (Contents(), r) == Exec(world, old(Contents()), Request.Register(now, displayName, publicKeyHex, role))
    {
      if role !in ROLES { return Raised(ValueError); }
      if Clashes(witnesses, displayName, publicKeyHex) { return Raised(IntegrityError); }
      var id := if witnesses == [] then 1 else witnesses[|witnesses| - 1].witnessId + 1;
      var row := WitnessRow(id, displayName, publicKeyHex, role, Format(now), None);
      witnesses := witnesses + [row];
      r := WitnessReply(row);
    }

    method RetireWitness(now: UtcTime, id: int) returns (r: Reply)
      modifies this`witnesses
      ensures (Contents(), r) == Exec(world, old(Contents()), Request.Retire(now, id))
    {
      witnesses := RetireRows(witnesses, id, Format(now));
      var row := FindWitness(witnesses, id);
      r := if row.None? then Raised(KeyError) else WitnessReply(row.value);
    }

    /** SELECT ... WHERE witness_id = ? ORDER BY attestation_id DESC LIMIT 1 */
    method LastAttestationHash(id: int) returns (hash: string)
      ensures hash == LastHash(attestations, id)
    {
      assert attestations[..|attestations|] == attestations;
      for i := |attestations| downto 0
        invariant LastHash(attestations, id) == LastHash(attestations[..i], id)
      {
        assert attestations[..i + 1][..i] == attestations[..i];
        if attestations[i].witnessId == id { return attestations[i].attestationHash; }
      }
      hash := GENESIS;
    }

    method AttestWithWitness(now: UtcTime, id: int, signer: Signer) returns (r: Reply)
      modifies this`attestations
      ensures (Contents(), r) == Exec(world, old(Contents()), Request.Attest(now, id, signer))
    {
      ghost var (db, req) := (Contents(), Request.Attest(now, id, signer));
      AttestAlone(world, db, req);
      var known := FindWitness(witnesses, id);
      if known.None? { return Raised(KeyError); }
      if known.value.retiredAt.Some? { return Raised(RuntimeError); }
      if signer.keyId != known.value.publicKeyHex { return Raised(RuntimeError); }
      var read := LatestEntryLocked();
      if read.Err? { return Raised(read.error); }
      var tip := read.value;
      if tip.None? { return Nothing; }
      var prev := LastAttestationHash(id);
      assert Exec(world, db, req) == SignOutcome(world, db, req, tip.value, prev);
      r := SignHead(tip.value, prev, now, id, signer);
    }

    /** The end of the section: the row is hashed, signed and inserted. */
    method SignHead(tip: EntryRow, prev: string, now: UtcTime, id: int, signer: Signer) returns (r: Reply)
      modifies this`attestations
      ensures (Contents(), r) == SignOutcome(world, old(Contents()), Request.Attest(now, id, signer), tip, prev)
    {
      var nextId := if attestations == [] then 1 else attestations[|attestations| - 1].attestationId + 1;
      var row := AttestationRow(nextId, id, tip.entryId, tip.entryHash, Format(now), prev, "", "");
      var hash := ComputeAttestationHash(world.crypto, row);
      var message := FromHex(hash);
      if message.None? { return Raised(ValueError); }
      row := row.(attestationHash := hash, signatureHex := ToHex(signer.sign(message.value)));
      attestations := attestations + [row];
      r := Attested(row);
    }

    /** The checks on one row of the walk. */
    method CheckAttestation(v: Verifier, ws: seq<WitnessRow>, row: AttestationRow, prev: string) returns (kind: Option<WitnessFaultKind>)
      ensures kind == AttestationFault(world.crypto, Some(v), ws, row, prev)
    {
      var known := FindWitness(ws, row.witnessId);
      if known.None? { return Some(UnknownWitness); }
      if row.prevAttestationHash != prev { return Some(PrevMismatch); }
      var recomputed := ComputeAttestationHash(world.crypto, row);
      if recomputed != row.attestationHash { return Some(AttestationHashMismatch); }
      var message, signature := FromHex(recomputed), FromHex(row.signatureHex);
      if message.None? || signature.None? { return Some(SignatureRaised); }
      var answer := v.verify(Some(known.value.publicKeyHex), message.value, signature.value);
      if answer.None? { return Some(SignatureRaised); }
      kind := if answer.value then None else Some(SignatureFailed);
    }

    /** `verify_witness_attestations`: the witnesses are read first, the attestations
        after that. */
    method VerifyWitnessAttestations(v: Verifier) returns (r: Result<nat, WitnessFault>)
      ensures IsWalkVerdict(world.crypto, v, witnesses, Ordered(attestations), r)
    {
      var ws := witnesses;
      r := WalkAttestations(v, ws);
    }

    /** The walk over the attestations of this moment, grouped by witness with one expected
        hash per witness, against witnesses that may have been read earlier. */
    method WalkAttestations(v: Verifier, ws: seq<WitnessRow>) returns (r: Result<nat, WitnessFault>)
      ensures IsWalkVerdict(world.crypto, v, ws, Ordered(attestations), r)
      ensures r.Ok? ==> forall i | 0 <= i < |Ordered(attestations)| :: AttestationSigned(world.crypto, v, ws, Ordered(attestations)[i])
    {
      var c, rows := world.crypto, Ordered(attestations);
      var expectedPrev: map<int, string> := map[];
      var verified := 0;
      for i := 0 to |rows|
        invariant verified == i && PassOk(c, Some(v), ws, rows[..i])
        invariant Tracks(expectedPrev, rows[..i])
      {
        var row := rows[i];
        var prev := if row.witnessId in expectedPrev then expectedPrev[row.witnessId] else GENESIS;
        var kind := CheckAttestation(v, ws, row, prev);
        if kind.Some? {
          assert WalkStopsAt(c, v, ws, rows, i, WitnessFault(row.attestationId, row.witnessId, kind.value));
          return Err(WitnessFault(row.attestationId, row.witnessId, kind.value));
        }
        WalkStep(c, v, ws, rows, i, expectedPrev);
        expectedPrev := expectedPrev[row.witnessId := row.attestationHash];
        verified := verified + 1;
      }
      assert rows[..|rows|] == rows;
      SignedPassIff(c, v, ws, rows);
      r := Ok(verified);
    }

    /** Unconfirmed anchors with a proof: those with the lowest ids, up to the limit. */
    method ListUnconfirmedAnchors(cutoff: Option<UtcTime>, limit: int) returns (rows: seq<AnchorRow>)
      ensures rows == SelectUnconfirmed(anchors, cutoff, limit)
      ensures AnchorIdsAscending(anchors) ==> AreLowest(anchors, cutoff, limit, rows)
    {
      rows := [];
      SelectStart(anchors, cutoff, limit);
      var i := 0;
      while i < |anchors| && |rows| != limit
        invariant i <= |anchors| && Selecting(anchors, cutoff, limit, i, rows)
      {
        SelectRow(anchors, cutoff, limit, i, rows);
        if Eligible(anchors[i], cutoff) { rows := rows + [anchors[i]]; }
        i := i + 1;
      }
      SelectEnd(anchors, cutoff, limit, i, rows);
      if AnchorIdsAscending(anchors) { SelectsLowest(anchors, cutoff, limit); }
    }

    /** The attestations that match: all of them in id order, or the first up to the limit. */
    method GetWitnessAttestations(q: A.Query, limit: int) returns (rows: seq<AttestationRow>)
      ensures rows == A.Select(attestations, q, limit)
      ensures limit < 0 ==> forall x :: x in rows <==> x in attestations && A.Matches(x, q)
      ensures AttestationIdsAscending(attestations) ==> A.AreFirst(attestations, q, limit, rows)
    {
      rows := [];
      A.SelectStart(attestations, q, limit);
      var i := 0;
      while i < |attestations| && |rows| != limit
        invariant i <= |attestations| && A.Selecting(attestations, q, limit, i, rows)
      {
        A.SelectRow(attestations, q, limit, i, rows);
        if A.Matches(attestations[i], q) { rows := rows + [attestations[i]]; }
        i := i + 1;
      }
      A.SelectEnd(attestations, q, limit, i, rows);
      A.SelectsFirst(attestations, q, limit);
      if AttestationIdsAscending(attestations) { A.SelectAreFirst(attestations, q, limit); }
    }

    /** The anchors with the lowest ids, up to the limit. */
    method GetAnchors(limit: int) returns (rows: seq<AnchorRow>)
      ensures rows == SelectAll(anchors, limit)
      ensures rows <= anchors && |rows| == if limit < 0 || |anchors| <= limit then |anchors| else limit
    {
      rows := if limit < 0 || |anchors| <= limit then anchors else anchors[..limit];
    }
  }

  /** The map holds the last hash of every witness seen so far. */
  ghost predicate Tracks(expectedPrev: map<int, string>, rows: seq<AttestationRow>) {
    forall id :: LastHash(rows, id) == if id in expectedPrev then expectedPrev[id] else GENESIS
  }

  lemma WalkStep(c: Crypto, v: Verifier, ws: seq<WitnessRow>, rows: seq<AttestationRow>, i: nat, expectedPrev: map<int, string>)
    requires i < |rows| && PassOk(c, Some(v), ws, rows[..i]) && Tracks(expectedPrev, rows[..i])
    requires AttestationFault(c, Some(v), ws, rows[i], LastHash(rows[..i], rows[i].witnessId)).None?
    ensures PassOk(c, Some(v), ws, rows[..i + 1])
    ensures Tracks(expectedPrev[rows[i].witnessId := rows[i].attestationHash], rows[..i + 1])
  {
    PassExtend(c, Some(v), ws, rows[..i], rows[i]);
    assert rows[..i + 1] == rows[..i] + [rows[i]];
    TracksStep(expectedPrev, rows, i);
  }

  lemma TracksStep(expectedPrev: map<int, string>, rows: seq<AttestationRow>, i: nat)
    requires i < |rows| && Tracks(expectedPrev, rows[..i])
    ensures Tracks(expectedPrev[rows[i].witnessId := rows[i].attestationHash], rows[..i + 1])
  {
    assert rows[..i + 1][..i] == rows[..i];
  }

  lemma ValidStep(c: Crypto, ov: Option<Verifier>, rows: seq<EntryRow>, i: nat)
    requires i < |rows| && ValidChain(c, ov, rows[..i]) && RowOk(c, ov, rows, i)
    ensures ValidChain(c, ov, rows[..i + 1])
  {
    ValidExtend(c, ov, rows[..i], rows[i]);
    assert rows[..i] + [rows[i]] == rows[..i + 1];
  }
}
