/** The attestations of the witnesses: one hash chain per witness, all chains interleaved
    in one table, and the grouped walk that verifies them. */
module WitnessChain {
  import opened Base
  import opened Crypto
  import opened Json
  import opened EntryChain

  datatype WitnessRow = WitnessRow(
    witnessId: int,
    displayName: string,
    publicKeyHex: string,
    role: string,
    createdAt: string,
    retiredAt: Option<string>)

  datatype AttestationRow = AttestationRow(
    attestationId: int,
    witnessId: int,
    chainHeadEntryId: int,
    chainHeadHash: string,
    signedAt: string,
    prevAttestationHash: string,
    attestationHash: string,
    signatureHex: string)

  function AttestedFields(row: AttestationRow): seq<Member> {
    [ Member("witness_id", Int(row.witnessId)),
      Member("chain_head_entry_id", Int(row.chainHeadEntryId)),
      Member("chain_head_hash", Str(row.chainHeadHash)),
      Member("signed_at", Str(row.signedAt)),
      Member("prev_attestation_hash", Str(row.prevAttestationHash)) ]
  }

  /** The text under the attestation hash. */
  function AttestedText(row: AttestationRow): string {
    CanonicalJson(Obj(AttestedFields(row)))
  }

  /** `_compute_witness_attestation_hash` on the five identifying fields of a row. */
  function ComputeAttestationHash(c: Crypto, row: AttestationRow): string {
    Sha256Hex(c, AttestedText(row))
  }

  function FindWitness(ws: seq<WitnessRow>, id: int): Option<WitnessRow> {
    if ws == [] then None
    else if ws[0].witnessId == id then Some(ws[0])
    else FindWitness(ws[1..], id)
  }

  // ---- one row ---------------------------------------------------------------------

  datatype WitnessFaultKind =
    | UnknownWitness
    | PrevMismatch
    | AttestationHashMismatch
    | SignatureRaised
    | SignatureFailed

  datatype WitnessFault = WitnessFault(attestationId: int, witnessId: int, kind: WitnessFaultKind)

  /** The signature check; every exception in it becomes a fault. */
  function AttestationSignatureFault(c: Crypto, v: Verifier, w: WitnessRow, row: AttestationRow): Option<WitnessFaultKind> {
    var message := FromHex(ComputeAttestationHash(c, row));
    var signature := FromHex(row.signatureHex);
    if message.None? || signature.None? then Some(SignatureRaised)
    else
      match v.verify(Some(w.publicKeyHex), message.value, signature.value)
      case None => Some(SignatureRaised)
      case Some(ok) => if ok then None else Some(SignatureFailed)
  }

  /** The first fault of a row, given the hash it has to link to; without a verifier the
      signature is not looked at. */
  function AttestationFault(c: Crypto, ov: Option<Verifier>, ws: seq<WitnessRow>, row: AttestationRow, prev: string): Option<WitnessFaultKind> {
    var w := FindWitness(ws, row.witnessId);
    if w.None? then Some(UnknownWitness)
    else if row.prevAttestationHash != prev then Some(PrevMismatch)
    else if ComputeAttestationHash(c, row) != row.attestationHash then Some(AttestationHashMismatch)
    else if ov.None? then None
    else AttestationSignatureFault(c, ov.value, w.value, row)
  }

  // ---- three readings of a valid table ------------------------------------------------

  /** The hash of a witness's last attestation, or the genesis value. */
  function LastHash(rows: seq<AttestationRow>, w: int): string {
    if rows == [] then GENESIS
    else if rows[|rows| - 1].witnessId == w then rows[|rows| - 1].attestationHash
    else LastHash(rows[..|rows| - 1], w)
  }

  ghost predicate RowInOrder(c: Crypto, ov: Option<Verifier>, ws: seq<WitnessRow>, rows: seq<AttestationRow>, i: nat)
    requires i < |rows|
  {
    AttestationFault(c, ov, ws, rows[i], LastHash(rows[..i], rows[i].witnessId)).None?
  }

  /** One pass over the rows in the order given, all witnesses side by side. */
  ghost predicate PassOk(c: Crypto, ov: Option<Verifier>, ws: seq<WitnessRow>, rows: seq<AttestationRow>) {
    forall i | 0 <= i < |rows| :: RowInOrder(c, ov, ws, rows, i)
  }

  function Filter(rows: seq<AttestationRow>, w: int): seq<AttestationRow> {
    if rows == [] then []
    else
      var rest := Filter(rows[..|rows| - 1], w);
      if rows[|rows| - 1].witnessId == w then rest + [rows[|rows| - 1]] else rest
  }

  ghost predicate SubChainRowOk(c: Crypto, ov: Option<Verifier>, ws: seq<WitnessRow>, sub: seq<AttestationRow>, i: nat)
    requires i < |sub|
  {
    AttestationFault(c, ov, ws, sub[i], if i == 0 then GENESIS else sub[i - 1].attestationHash).None?
  }

  /** The rows of one witness form a chain from the genesis value, with good signatures. */
  ghost predicate SubChainOk(c: Crypto, ov: Option<Verifier>, ws: seq<WitnessRow>, sub: seq<AttestationRow>) {
    forall i | 0 <= i < |sub| :: SubChainRowOk(c, ov, ws, sub, i)
  }

  ghost predicate WitnessOk(c: Crypto, ov: Option<Verifier>, ws: seq<WitnessRow>, rows: seq<AttestationRow>, w: int) {
    SubChainOk(c, ov, ws, Filter(rows, w))
  }

  lemma {:induction false} LastOfFilter(rows: seq<AttestationRow>, w: int)
    ensures var sub := Filter(rows, w);
            LastHash(rows, w) == if sub == [] then GENESIS else sub[|sub| - 1].attestationHash
  {
    if rows == [] {
    } else {
      LastOfFilter(rows[..|rows| - 1], w);
    }
  }

  lemma PassExtend(c: Crypto, ov: Option<Verifier>, ws: seq<WitnessRow>, rows: seq<AttestationRow>, row: AttestationRow)
    ensures PassOk(c, ov, ws, rows + [row]) <==>
            PassOk(c, ov, ws, rows) && AttestationFault(c, ov, ws, row, LastHash(rows, row.witnessId)).None?
  {
    var all := rows + [row];
    assert all[..|rows|] == rows;
    forall i | 0 <= i < |rows| ensures RowInOrder(c, ov, ws, all, i) <==> RowInOrder(c, ov, ws, rows, i) {
      assert all[..i] == rows[..i];
    }
    if PassOk(c, ov, ws, all) { assert RowInOrder(c, ov, ws, all, |rows|); }
  }

  lemma SubChainExtend(c: Crypto, ov: Option<Verifier>, ws: seq<WitnessRow>, sub: seq<AttestationRow>, row: AttestationRow)
    ensures SubChainOk(c, ov, ws, sub + [row]) <==>
            SubChainOk(c, ov, ws, sub)
            && AttestationFault(c, ov, ws, row, if sub == [] then GENESIS else sub[|sub| - 1].attestationHash).None?
  {
    var all := sub + [row];
    forall i | 0 <= i < |sub| ensures SubChainRowOk(c, ov, ws, all, i) <==> SubChainRowOk(c, ov, ws, sub, i) {}
    if SubChainOk(c, ov, ws, all) { assert SubChainRowOk(c, ov, ws, all, |sub|); }
  }

  lemma WitnessExtend(c: Crypto, ov: Option<Verifier>, ws: seq<WitnessRow>, rows: seq<AttestationRow>, row: AttestationRow, w: int)
    ensures WitnessOk(c, ov, ws, rows + [row], w) <==>
            WitnessOk(c, ov, ws, rows, w)
            && (w == row.witnessId ==> AttestationFault(c, ov, ws, row, LastHash(rows, w)).None?)
  {
    assert (rows + [row])[..|rows|] == rows;
    LastOfFilter(rows, w);
    if w == row.witnessId { SubChainExtend(c, ov, ws, Filter(rows, w), row); }
  }

  /** One pass over interleaved chains accepts exactly when each witness's own rows form
      a valid chain. */
  lemma {:induction false} PassIffSubChains(c: Crypto, ov: Option<Verifier>, ws: seq<WitnessRow>, rows: seq<AttestationRow>)
    ensures PassOk(c, ov, ws, rows) <==> forall w :: WitnessOk(c, ov, ws, rows, w)
  {
    if rows == [] {
      assert forall w :: WitnessOk(c, ov, ws, rows, w);
    } else {
      var (init, last) := (rows[..|rows| - 1], rows[|rows| - 1]);
      assert rows == init + [last];
      PassIffSubChains(c, ov, ws, init);
      PassExtend(c, ov, ws, init, last);
      forall w ensures WitnessOk(c, ov, ws, rows, w) <==>
        WitnessOk(c, ov, ws, init, w)
        && (w == last.witnessId ==> AttestationFault(c, ov, ws, last, LastHash(init, w)).None?)
      {
        WitnessExtend(c, ov, ws, init, last, w);
      }
      assert WitnessOk(c, ov, ws, rows, last.witnessId) ==> AttestationFault(c, ov, ws, last, LastHash(init, last.witnessId)).None?;
    }
  }

  // ---- ORDER BY witness_id, attestation_id ----------------------------------------------

  predicate Before(a: AttestationRow, b: AttestationRow) {
    a.witnessId < b.witnessId || (a.witnessId == b.witnessId && a.attestationId < b.attestationId)
  }

  function InsertOrdered(row: AttestationRow, sorted: seq<AttestationRow>): seq<AttestationRow> {
    if sorted == [] || Before(row, sorted[0]) then [row] + sorted
    else [sorted[0]] + InsertOrdered(row, sorted[1..])
  }

  function Ordered(rows: seq<AttestationRow>): seq<AttestationRow> {
    if rows == [] then [] else InsertOrdered(rows[|rows| - 1], Ordered(rows[..|rows| - 1]))
  }

  /** The primary key, in the order in which the ids were given out. */
  ghost predicate AttestationIdsAscending(rows: seq<AttestationRow>) {
    forall i, j | 0 <= i < j < |rows| :: rows[i].attestationId < rows[j].attestationId
  }

  ghost predicate InOrder(rows: seq<AttestationRow>) {
    forall i, j | 0 <= i < j < |rows| ::
      rows[i].witnessId < rows[j].witnessId
      || (rows[i].witnessId == rows[j].witnessId && rows[i].attestationId < rows[j].attestationId)
  }

  lemma {:induction false} InsertKeepsRows(row: AttestationRow, sorted: seq<AttestationRow>)
    ensures multiset(InsertOrdered(row, sorted)) == multiset(sorted) + multiset{row}
  {
    if sorted == [] || Before(row, sorted[0]) {
    } else {
      InsertKeepsRows(row, sorted[1..]);
      assert sorted == [sorted[0]] + sorted[1..];
    }
  }

  lemma {:induction false} InsertInOrder(row: AttestationRow, sorted: seq<AttestationRow>)
    requires InOrder(sorted)
    requires forall x | x in sorted :: x.attestationId != row.attestationId
    ensures InOrder(InsertOrdered(row, sorted))
  {
    if sorted == [] || Before(row, sorted[0]) {
    } else {
      var tail := InsertOrdered(row, sorted[1..]);
      InsertInOrder(row, sorted[1..]);
      InsertKeepsRows(row, sorted[1..]);
      assert sorted[0] in sorted;
      forall j | 0 <= j < |tail| ensures Before(sorted[0], tail[j]) {
        assert tail[j] in multiset(tail);
        assert tail[j] == row || tail[j] in sorted[1..];
      }
    }
  }

  /** The query returns the rows of the table, each once, in order. */
  lemma {:induction false} OrderedIsOrder(rows: seq<AttestationRow>)
    requires AttestationIdsAscending(rows)
    ensures InOrder(Ordered(rows)) && multiset(Ordered(rows)) == multiset(rows) && |Ordered(rows)| == |rows|
  {
    if rows == [] {
    } else {
      var (init, last) := (rows[..|rows| - 1], rows[|rows| - 1]);
      assert rows == init + [last];
      OrderedIsOrder(init);
      InsertKeepsRows(last, Ordered(init));
      forall x | x in Ordered(init) ensures x.attestationId < last.attestationId {
        assert x in multiset(Ordered(init));
        assert x in init;
      }
      InsertInOrder(last, Ordered(init));
      assert |Ordered(rows)| == |multiset(Ordered(rows))|;
    }
  }

  lemma {:induction false} FilterConcat(a: seq<AttestationRow>, b: seq<AttestationRow>, w: int)
    ensures Filter(a + b, w) == Filter(a, w) + Filter(b, w)
  {
    if b == [] {
      assert a + b == a;
    } else {
      assert (a + b)[..|a + b| - 1] == a + b[..|b| - 1];
      FilterConcat(a, b[..|b| - 1], w);
    }
  }

  lemma {:induction false} FilterNone(rows: seq<AttestationRow>, w: int)
    requires forall x | x in rows :: x.witnessId != w
    ensures Filter(rows, w) == []
  {
    if rows == [] {
    } else {
      FilterNone(rows[..|rows| - 1], w);
    }
  }

  lemma FirstIsLeast(sorted: seq<AttestationRow>)
    requires InOrder(sorted) && sorted != []
    ensures forall x | x in sorted :: sorted[0].witnessId <= x.witnessId
    ensures InOrder(sorted[1..])
  {}

  lemma OneFilter(row: AttestationRow, w: int)
    ensures Filter([row], w) == if row.witnessId == w then [row] else []
  {
    assert [row][..0] == [];
  }

  /** A row with a new greatest id that goes before all others is of a smaller witness. */
  lemma FilterFront(row: AttestationRow, sorted: seq<AttestationRow>, w: int)
    requires InOrder(sorted) && sorted != [] && Before(row, sorted[0])
    requires sorted[0].attestationId < row.attestationId
    ensures Filter([row] + sorted, w) == Filter(sorted, w) + if row.witnessId == w then [row] else []
  {
    FilterConcat([row], sorted, w);
    OneFilter(row, w);
    FirstIsLeast(sorted);
    if row.witnessId == w { FilterNone(sorted, w); }
  }

  lemma FilterBehind(first: AttestationRow, longer: seq<AttestationRow>, tail: seq<AttestationRow>, more: seq<AttestationRow>, w: int)
    requires Filter(longer, w) == Filter(tail, w) + more
    ensures Filter([first] + longer, w) == Filter([first] + tail, w) + more
  {
    FilterConcat([first], longer, w);
    FilterConcat([first], tail, w);
  }

  lemma {:induction false} FilterInsert(row: AttestationRow, sorted: seq<AttestationRow>, w: int)
    requires InOrder(sorted)
    requires forall x | x in sorted :: x.attestationId < row.attestationId
    ensures Filter(InsertOrdered(row, sorted), w) == Filter(sorted, w) + if row.witnessId == w then [row] else []
  {
    if sorted == [] {
      OneFilter(row, w);
    } else if Before(row, sorted[0]) {
      assert sorted[0] in sorted;
      FilterFront(row, sorted, w);
    } else {
      var (first, tail) := (sorted[0], sorted[1..]);
      FirstIsLeast(sorted);
      assert sorted == [first] + tail;
      FilterInsert(row, tail, w);
      FilterBehind(first, InsertOrdered(row, tail), tail, if row.witnessId == w then [row] else [], w);
    }
  }

  /** Grouping by witness keeps every witness's own rows, in their order. */
  lemma {:induction false} FilterOrdered(rows: seq<AttestationRow>, w: int)
    requires AttestationIdsAscending(rows)
    ensures Filter(Ordered(rows), w) == Filter(rows, w)
  {
    if rows == [] {
    } else {
      var (init, last) := (rows[..|rows| - 1], rows[|rows| - 1]);
      FilterOrdered(init, w);
      OrderedIsOrder(init);
      forall x | x in Ordered(init) ensures x.attestationId < last.attestationId {
        assert x in multiset(Ordered(init));
        assert x in init;
      }
      FilterInsert(last, Ordered(init), w);
    }
  }

  /** The walk stops at row `i`: every row before it is in order and it is not. */
  ghost predicate WalkStopsAt(c: Crypto, v: Verifier, ws: seq<WitnessRow>, rows: seq<AttestationRow>, i: nat, f: WitnessFault) {
    && i < |rows|
    && PassOk(c, Some(v), ws, rows[..i])
    && f.attestationId == rows[i].attestationId && f.witnessId == rows[i].witnessId
    && AttestationFault(c, Some(v), ws, rows[i], LastHash(rows[..i], rows[i].witnessId)) == Some(f.kind)
  }

  /** A verdict on rows in the order walked: their number, or the first fault. */
  ghost predicate IsWalkVerdict(c: Crypto, v: Verifier, ws: seq<WitnessRow>, rows: seq<AttestationRow>, r: Result<nat, WitnessFault>) {
    if r.Ok? then r.value == |rows| && PassOk(c, Some(v), ws, rows)
    else exists i: nat :: WalkStopsAt(c, v, ws, rows, i, r.error)
  }

  /** The grouped walk, the single pass in the order of the ids, and the check witness by
      witness give one verdict, and an accepting walk returns the length of the table. */
  lemma GroupedWalkIff(c: Crypto, ov: Option<Verifier>, ws: seq<WitnessRow>, rows: seq<AttestationRow>)
    requires AttestationIdsAscending(rows)
    ensures PassOk(c, ov, ws, Ordered(rows)) <==> PassOk(c, ov, ws, rows)
    ensures PassOk(c, ov, ws, Ordered(rows)) <==> forall w :: WitnessOk(c, ov, ws, rows, w)
    ensures ov.Some? ==> forall n: nat ::
      IsWalkVerdict(c, ov.value, ws, Ordered(rows), Ok(n)) <==> n == |rows| && forall w :: WitnessOk(c, ov, ws, rows, w)
  {
    OrderedIsOrder(rows);
    PassIffSubChains(c, ov, ws, rows);
    PassIffSubChains(c, ov, ws, Ordered(rows));
    forall w ensures WitnessOk(c, ov, ws, Ordered(rows), w) <==> WitnessOk(c, ov, ws, rows, w) {
      FilterOrdered(rows, w);
    }
  }

  // ---- what makes a row good --------------------------------------------------------------

  /** The verifier answers True for the stored signature, under the registered key, over the
      digest of the attested fields. */
  ghost predicate AttestationSigned(c: Crypto, v: Verifier, ws: seq<WitnessRow>, row: AttestationRow) {
    var (known, signature) := (FindWitness(ws, row.witnessId), FromHex(row.signatureHex));
    && known.Some? && signature.Some?
    && v.verify(Some(known.value.publicKeyHex), c.sha256(AttestedText(row)), signature.value) == Some(true)
  }

  /** Each fault of a row; a fault is reported only when the checks before it passed. */
  lemma AttestationFaultIff(c: Crypto, v: Verifier, ws: seq<WitnessRow>, row: AttestationRow, prev: string)
    ensures var fault := AttestationFault(c, Some(v), ws, row, prev);
            var (known, signature) := (FindWitness(ws, row.witnessId), FromHex(row.signatureHex));
            var answer := if known.None? || signature.None? then None
                          else v.verify(Some(known.value.publicKeyHex), c.sha256(AttestedText(row)), signature.value);
            var linked := known.Some? && row.prevAttestationHash == prev;
            var hashed := linked && row.attestationHash == Sha256Hex(c, AttestedText(row));
            && (fault == Some(UnknownWitness) <==> known.None?)
            && (fault == Some(PrevMismatch) <==> known.Some? && row.prevAttestationHash != prev)
            && (fault == Some(AttestationHashMismatch) <==> linked && row.attestationHash != Sha256Hex(c, AttestedText(row)))
            && (fault == Some(SignatureRaised) <==> hashed && answer == None)
            && (fault == Some(SignatureFailed) <==> hashed && answer == Some(false))
            && (fault == None <==> hashed && AttestationSigned(c, v, ws, row))
  {
    HexRoundTrip(c.sha256(AttestedText(row)));
  }

  lemma UnsignedFaultIff(c: Crypto, ws: seq<WitnessRow>, row: AttestationRow, prev: string)
    ensures AttestationFault(c, None, ws, row, prev) == None <==>
              && FindWitness(ws, row.witnessId).Some?
              && row.prevAttestationHash == prev && row.attestationHash == Sha256Hex(c, AttestedText(row))
  {}

  /** With a verifier a table is accepted exactly when links and hashes hold and the verifier
      answers True for every row. */
  lemma SignedPassIff(c: Crypto, v: Verifier, ws: seq<WitnessRow>, rows: seq<AttestationRow>)
    ensures PassOk(c, Some(v), ws, rows) <==>
              PassOk(c, None, ws, rows) && forall i | 0 <= i < |rows| :: AttestationSigned(c, v, ws, rows[i])
  {
    forall i | 0 <= i < |rows|
      ensures RowInOrder(c, Some(v), ws, rows, i) <==> RowInOrder(c, None, ws, rows, i) && AttestationSigned(c, v, ws, rows[i])
    {
      AttestationFaultIff(c, v, ws, rows[i], LastHash(rows[..i], rows[i].witnessId));
      UnsignedFaultIff(c, ws, rows[i], LastHash(rows[..i], rows[i].witnessId));
    }
  }

  /** A witness is found under its id exactly when the table has it, and the row found has
      that id. */
  lemma {:induction false} FindWitnessIff(ws: seq<WitnessRow>, id: int)
    ensures FindWitness(ws, id).Some? <==> exists i | 0 <= i < |ws| :: ws[i].witnessId == id
    ensures FindWitness(ws, id).Some? ==> FindWitness(ws, id).value in ws && FindWitness(ws, id).value.witnessId == id
  {
    if ws == [] {
    } else {
      FindWitnessIff(ws[1..], id);
      assert ws == [ws[0]] + ws[1..];
    }
  }
}
