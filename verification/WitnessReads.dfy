/** `verify_witness_attestations` beside other tasks: it takes no lock and reads the
    witnesses first, the attestations after that. What it reports when calls complete in
    between. */
module WitnessReads {
  import opened Base
  import opened Crypto
  import opened WitnessChain
  import opened LedgerSpec
  import opened LedgerInv
  import opened LedgerRuns
  import opened Concurrency
  import opened ConcurrentRuns
  import opened Scheduling

  ghost predicate AllKnown(ws: seq<WitnessRow>, rows: seq<AttestationRow>) {
    forall x | x in rows :: FindWitness(ws, x.witnessId).Some?
  }

  /** The first row of a witness that is not among those read. */
  ghost predicate FirstUnknown(ws: seq<WitnessRow>, rows: seq<AttestationRow>, i: nat) {
    && i < |rows| && FindWitness(ws, rows[i].witnessId).None?
    && forall j | 0 <= j < i :: FindWitness(ws, rows[j].witnessId).Some?
  }

  /** Earlier witnesses change the verdict on a row only by not knowing its witness. */
  lemma FaultWithEarlier(c: Crypto, v: Verifier, ws: seq<WitnessRow>, later: seq<WitnessRow>, row: AttestationRow, prev: string)
    requires StillKnows(ws, later)
    ensures AttestationFault(c, Some(v), ws, row, prev) ==
              if FindWitness(ws, row.witnessId).None? then Some(UnknownWitness)
              else AttestationFault(c, Some(v), later, row, prev)
  {}

  lemma PassWithEarlier(c: Crypto, v: Verifier, ws: seq<WitnessRow>, later: seq<WitnessRow>, rows: seq<AttestationRow>)
    requires StillKnows(ws, later) && PassOk(c, Some(v), later, rows)
    ensures PassOk(c, Some(v), ws, rows) <==> AllKnown(ws, rows)
  {
    forall i | 0 <= i < |rows|
      ensures RowInOrder(c, Some(v), ws, rows, i) <==> FindWitness(ws, rows[i].witnessId).Some?
    {
      assert RowInOrder(c, Some(v), later, rows, i);
      FaultWithEarlier(c, v, ws, later, rows[i], LastHash(rows[..i], rows[i].witnessId));
    }
    if PassOk(c, Some(v), ws, rows) {
      forall x | x in rows ensures FindWitness(ws, x.witnessId).Some? {
        var i :| 0 <= i < |rows| && rows[i] == x;
        assert RowInOrder(c, Some(v), ws, rows, i);
      }
    }
  }

  lemma PassPrefix(c: Crypto, ov: Option<Verifier>, ws: seq<WitnessRow>, rows: seq<AttestationRow>, i: nat)
    requires PassOk(c, ov, ws, rows) && i <= |rows|
    ensures PassOk(c, ov, ws, rows[..i])
  {
    forall j | 0 <= j < i ensures RowInOrder(c, ov, ws, rows[..i], j) {
      assert RowInOrder(c, ov, ws, rows, j);
      assert rows[..i][..j] == rows[..j];
    }
  }

  /** The walk stops exactly at the first row whose witness was not read. */
  lemma StopsAtFirstUnknown(c: Crypto, v: Verifier, ws: seq<WitnessRow>, later: seq<WitnessRow>,
                            rows: seq<AttestationRow>, i: nat, f: WitnessFault)
    requires StillKnows(ws, later) && PassOk(c, Some(v), later, rows)
    ensures WalkStopsAt(c, v, ws, rows, i, f) <==>
              FirstUnknown(ws, rows, i) && f == WitnessFault(rows[i].attestationId, rows[i].witnessId, UnknownWitness)
  {
    if i < |rows| {
      PassPrefix(c, Some(v), later, rows, i);
      PassWithEarlier(c, v, ws, later, rows[..i]);
      assert RowInOrder(c, Some(v), later, rows, i);
      FaultWithEarlier(c, v, ws, later, rows[i], LastHash(rows[..i], rows[i].witnessId));
      assert AllKnown(ws, rows[..i]) <==> forall j | 0 <= j < i :: FindWitness(ws, rows[j].witnessId).Some?;
    }
  }

  lemma OrderedAllKnown(ws: seq<WitnessRow>, rows: seq<AttestationRow>)
    requires AttestationIdsAscending(rows)
    ensures AllKnown(ws, Ordered(rows)) <==> AllKnown(ws, rows)
  {
    OrderedIsOrder(rows);
    forall x ensures x in Ordered(rows) <==> x in rows {
      assert x in multiset(Ordered(rows)) <==> x in multiset(rows);
    }
  }

  /** Two states of one schedule: the later tables are sound, and still know the earlier
      witnesses. */
  lemma LaterTables(w: World, v: Verifier, db0: Db, es: seq<Event>, more: seq<Event>)
    requires DbInv(w, Some(v), db0) && KnownEvents(Some(v), es) && KnownEvents(Some(v), more)
    ensures var earlier := Schedule(w, Init(db0), es);
            var later := Schedule(w, earlier, more);
            DbInv(w, Some(v), later.db) && StillKnows(earlier.db.witnesses, later.db.witnesses)
  {
    var earlier := Schedule(w, Init(db0), es);
    var later := Schedule(w, earlier, more);
    ScheduleConcat(w, Init(db0), es, more);
    EveryStateKeepsInv(w, Some(v), db0, es + more);
    LaterExtendsEarlier(w, db0, es, more);
    forall id ensures FindWitness(earlier.db.witnesses, id).Some? ==>
      FindWitness(later.db.witnesses, id).Some?
      && FindWitness(later.db.witnesses, id).value.publicKeyHex == FindWitness(earlier.db.witnesses, id).value.publicKeyHex
    {
      FindWitnessLater(earlier.db.witnesses, later.db.witnesses, id);
    }
  }

  /** The witnesses read in one state of a schedule and the attestations in a later one:
      the walk accepts exactly when every attestation is of a witness that was read, and
      otherwise stops at the first one that is not, as of an unknown witness. */
  lemma TwoReadsIff(w: World, v: Verifier, db0: Db, es: seq<Event>, more: seq<Event>)
    requires DbInv(w, Some(v), db0) && KnownEvents(Some(v), es) && KnownEvents(Some(v), more)
    ensures var earlier := Schedule(w, Init(db0), es);
            var (ws, rows) := (earlier.db.witnesses, Schedule(w, earlier, more).db.attestations);
            && (PassOk(w.crypto, Some(v), ws, Ordered(rows)) <==> AllKnown(ws, rows))
            && (forall n: nat :: IsWalkVerdict(w.crypto, v, ws, Ordered(rows), Ok(n)) <==> n == |rows| && AllKnown(ws, rows))
            && (forall f :: IsWalkVerdict(w.crypto, v, ws, Ordered(rows), Err(f)) <==>
                  exists i: nat :: FirstUnknown(ws, Ordered(rows), i)
                    && f == WitnessFault(Ordered(rows)[i].attestationId, Ordered(rows)[i].witnessId, UnknownWitness))
  {
    var earlier := Schedule(w, Init(db0), es);
    var later := Schedule(w, earlier, more);
    var (ws, rows) := (earlier.db.witnesses, later.db.attestations);
    LaterTables(w, v, db0, es, more);
    GroupedWalkIff(w.crypto, Some(v), later.db.witnesses, rows);
    OrderedIsOrder(rows);
    OrderedAllKnown(ws, rows);
    VerdictWithEarlier(w.crypto, v, ws, later.db.witnesses, Ordered(rows));
  }

  lemma VerdictWithEarlier(c: Crypto, v: Verifier, ws: seq<WitnessRow>, later: seq<WitnessRow>, rows: seq<AttestationRow>)
    requires StillKnows(ws, later) && PassOk(c, Some(v), later, rows)
    ensures PassOk(c, Some(v), ws, rows) <==> AllKnown(ws, rows)
    ensures forall n: nat :: IsWalkVerdict(c, v, ws, rows, Ok(n)) <==> n == |rows| && AllKnown(ws, rows)
    ensures forall f :: IsWalkVerdict(c, v, ws, rows, Err(f)) <==>
              exists i: nat :: FirstUnknown(ws, rows, i)
                && f == WitnessFault(rows[i].attestationId, rows[i].witnessId, UnknownWitness)
  {
    PassWithEarlier(c, v, ws, later, rows);
    forall i: nat, f: WitnessFault ensures WalkStopsAt(c, v, ws, rows, i, f) <==>
      FirstUnknown(ws, rows, i) && f == WitnessFault(rows[i].attestationId, rows[i].witnessId, UnknownWitness)
    {
      StopsAtFirstUnknown(c, v, ws, later, rows, i, f);
    }
    forall f ensures IsWalkVerdict(c, v, ws, rows, Err(f)) <==>
      exists i: nat :: FirstUnknown(ws, rows, i) && f == WitnessFault(rows[i].attestationId, rows[i].witnessId, UnknownWitness)
    {
      assert IsWalkVerdict(c, v, ws, rows, Err(f)) <==> exists i: nat :: WalkStopsAt(c, v, ws, rows, i, f);
      if i: nat :| FirstUnknown(ws, rows, i) && f == WitnessFault(rows[i].attestationId, rows[i].witnessId, UnknownWitness) {
        assert WalkStopsAt(c, v, ws, rows, i, f);
      }
    }
  }

  // ---- a sound ledger that the walk rejects ----------------------------------------------------

  lemma RegisteredRow(w: World, db: Db, req: Request)
    requires req.Register? && WitnessesDistinct(db.witnesses) && Exec(w, db, req).1.WitnessReply?
    ensures var row := Exec(w, db, req).1.row;
            && FindWitness(db.witnesses, row.witnessId).None?
            && FindWitness(Exec(w, db, req).0.witnesses, row.witnessId) == Some(row)
            && Exec(w, db, req).0.entries == db.entries
            && row.publicKeyHex == req.publicKeyHex && row.retiredAt.None?
  {
    RegisterReply(w, db, req);
    var row := Exec(w, db, req).1.row;
    assert row.witnessId == NextWitnessId(db.witnesses) by { NewWitnessId(w, db, req); }
    NextIdIsNew(db.witnesses);
    NewestFound(db.witnesses, row);
  }

  lemma NewWitnessId(w: World, db: Db, req: Request)
    requires req.Register? && Exec(w, db, req).1.WitnessReply?
    ensures Exec(w, db, req).1.row.witnessId == NextWitnessId(db.witnesses)
  {
    assert Drive(w, db, req, Entered).1 == AdvanceRegister(db, req).reply;
  }

  lemma NextIdIsNew(ws: seq<WitnessRow>)
    requires WitnessesDistinct(ws)
    ensures FindWitness(ws, NextWitnessId(ws)).None?
  {
    forall i | 0 <= i < |ws| ensures ws[i].witnessId != NextWitnessId(ws) {
      if i < |ws| - 1 { assert ws[i].witnessId < ws[|ws| - 1].witnessId; }
    }
    NotFound(ws, NextWitnessId(ws));
  }

  lemma {:induction false} NotFound(ws: seq<WitnessRow>, id: int)
    requires forall i | 0 <= i < |ws| :: ws[i].witnessId != id
    ensures FindWitness(ws, id).None?
  {
    if ws == [] {
    } else {
      NotFound(ws[1..], id);
    }
  }

  lemma {:induction false} NewestFound(ws: seq<WitnessRow>, row: WitnessRow)
    requires FindWitness(ws, row.witnessId).None?
    ensures FindWitness(ws + [row], row.witnessId) == Some(row)
  {
    if ws == [] {
    } else {
      assert (ws + [row])[1..] == ws[1..] + [row];
      NewestFound(ws[1..], row);
    }
  }

  /** Two calls, one after the other. */
  lemma TwoCalls(w: World, db0: Db, a: Request, b: Request) returns (more: seq<Event>)
    ensures Schedule(w, Init(db0), more).db == Exec(w, Exec(w, db0, a).0, b).0
    ensures forall i | 0 <= i < |more| :: more[i].Spawn? ==> more[i].req == a || more[i].req == b
  {
    var first := CallAlone(w, Init(db0), a);
    var between := Schedule(w, Init(db0), first);
    var second := CallAlone(w, between, b);
    more := first + second;
    ScheduleConcat(w, Init(db0), first, second);
  }

  /** The schedule that fails, from any sound ledger with a readable head: a registration
      and an attestation by the new witness complete between the two reads. Every table is
      in order, and the walk rejects them. */
  lemma LateWitnessIsUnknown(w: World, v: Verifier, db0: Db, register: Request, attest: Request) returns (more: seq<Event>)
    requires DbInv(w, Some(v), db0)
    requires db0.entries != [] && w.readable(db0.entries[|db0.entries| - 1].payload)
    requires register.Register? && Exec(w, db0, register).1.WitnessReply?
    requires attest.Attest? && Honest(attest.witnessSigner, v)
    requires attest.witnessId == Exec(w, db0, register).1.row.witnessId && attest.witnessSigner.keyId == register.publicKeyHex
    ensures KnownEvents(Some(v), more)
    ensures var later := Schedule(w, Init(db0), more).db;
            && DbInv(w, Some(v), later) && PassOk(w.crypto, Some(v), later.witnesses, Ordered(later.attestations))
            && !PassOk(w.crypto, Some(v), db0.witnesses, Ordered(later.attestations))
  {
    more := TwoCalls(w, db0, register, attest);
    RegisteredRow(w, db0, register);
    LateAttestation(w, db0, Exec(w, db0, register).0, attest);
    EveryStateKeepsInv(w, Some(v), db0, more);
    LateVerdicts(w, v, db0, more);
  }

  lemma LateVerdicts(w: World, v: Verifier, db0: Db, more: seq<Event>)
    requires DbInv(w, Some(v), db0) && KnownEvents(Some(v), more)
    ensures var later := Schedule(w, Init(db0), more).db;
            && PassOk(w.crypto, Some(v), later.witnesses, Ordered(later.attestations))
            && (PassOk(w.crypto, Some(v), db0.witnesses, Ordered(later.attestations)) <==> AllKnown(db0.witnesses, later.attestations))
  {
    assert Schedule(w, Init(db0), []) == Init(db0);
    TwoReadsIff(w, v, db0, [], more);
    EverySnapshotVerifies(w, v, db0, more);
  }

  lemma LateAttestation(w: World, db0: Db, db: Db, attest: Request)
    requires attest.Attest? && db.entries != [] && w.readable(db.entries[|db.entries| - 1].payload)
    requires FindWitness(db0.witnesses, attest.witnessId).None?
    requires FindWitness(db.witnesses, attest.witnessId).Some?
    requires MayAttest(FindWitness(db.witnesses, attest.witnessId).value, attest)
    ensures !AllKnown(db0.witnesses, Exec(w, db, attest).0.attestations)
  {
    AttestReply(w, db, attest);
    var (after, reply) := Exec(w, db, attest);
    assert AttestAdds(w, db, attest, after, reply);
    var row := after.attestations[|db.attestations|];
    assert row in after.attestations && row.witnessId == attest.witnessId;
  }
}
