/** What two witness chains with one head must share. */
module WitnessPins {
  import opened Base
  import opened Crypto
  import opened Json
  import opened Canonical
  import opened EntryChain
  import opened ChainCheck
  import opened WitnessChain
  import opened LedgerSpec
  import opened LedgerInv
  import opened LedgerRuns

  // ---- what the attestation hash covers ----------------------------------------------------

  /** Agreement on the five fields under the hash; the attestation id and the signature
      are outside it. */
  predicate SameAttested(a: AttestationRow, b: AttestationRow) {
    && a.witnessId == b.witnessId
    && a.chainHeadEntryId == b.chainHeadEntryId
    && a.chainHeadHash == b.chainHeadHash
    && a.signedAt == b.signedAt
    && a.prevAttestationHash == b.prevAttestationHash
  }

  /** The keys of the attested dict differ in length. */
  lemma AttestedKeys(row: AttestationRow)
    ensures var ms := AttestedFields(row);
            && |ms| == 5 && |ms[0].key| == 10 && |ms[1].key| == 19 && |ms[2].key| == 15
            && |ms[3].key| == 9 && |ms[4].key| == 21
            && forall i | 0 <= i < 5 :: ms[i].value.Int? || ms[i].value.Str?
  {}

  lemma AttestedKeysMeet(a: AttestationRow, b: AttestationRow)
    ensures forall i, j | 0 <= i < |AttestedFields(a)| && 0 <= j < |AttestedFields(b)| ::
              AttestedFields(a)[i].key == AttestedFields(b)[j].key ==> i == j
    ensures WellFormed(Obj(AttestedFields(a)))
  {
    AttestedKeys(a);
    AttestedKeys(b);
    var (ms, ns) := (AttestedFields(a), AttestedFields(b));
    forall i, j | 0 <= i < |ms| && 0 <= j < |ns| && ms[i].key == ns[j].key ensures i == j {
      assert |ms[i].key| == |ns[j].key|;
    }
    forall i, j | 0 <= i < j < |ms| ensures ms[i].key != ms[j].key {
      assert |ms[i].key| != |ms[j].key|;
    }
  }

  lemma SameAttestedFields(a: AttestationRow, b: AttestationRow)
    requires Same(Obj(AttestedFields(a)), Obj(AttestedFields(b)))
    ensures SameAttested(a, b)
  {
    AttestedKeysMeet(a, b);
    SameByPosition(AttestedFields(a), AttestedFields(b));
    SameLeaf(AttestedFields(a)[0].value, AttestedFields(b)[0].value);
    SameLeaf(AttestedFields(a)[1].value, AttestedFields(b)[1].value);
    SameLeaf(AttestedFields(a)[2].value, AttestedFields(b)[2].value);
    SameLeaf(AttestedFields(a)[3].value, AttestedFields(b)[3].value);
    SameLeaf(AttestedFields(a)[4].value, AttestedFields(b)[4].value);
  }

  /** Two attestations are hashed as one text exactly when they agree on the five fields. */
  lemma AttestedTextIff(a: AttestationRow, b: AttestationRow)
    ensures AttestedText(a) == AttestedText(b) <==> SameAttested(a, b)
  {
    AttestedKeysMeet(a, b);
    AttestedKeysMeet(b, a);
    CanonicalIffSame(Obj(AttestedFields(a)), Obj(AttestedFields(b)));
    if AttestedText(a) == AttestedText(b) {
      SameAttestedFields(a, b);
    }
  }

  // ---- two chains of one witness --------------------------------------------------------------

  function SubChainHead(sub: seq<AttestationRow>): string {
    if sub == [] then GENESIS else sub[|sub| - 1].attestationHash
  }

  ghost predicate SameAttestations(a: seq<AttestationRow>, b: seq<AttestationRow>) {
    |a| == |b| && forall i | 0 <= i < |a| :: SameAttested(a[i], b[i])
  }

  function CompareAttested(a: seq<AttestationRow>, b: seq<AttestationRow>): Finding {
    if a == [] && b == [] then Agree
    else if a == [] then GenesisPreimage(AttestedText(b[|b| - 1]))
    else if b == [] then GenesisPreimage(AttestedText(a[|a| - 1]))
    else
      var x, y := AttestedText(a[|a| - 1]), AttestedText(b[|b| - 1]);
      if x != y then Collision(x, y) else CompareAttested(a[..|a| - 1], b[..|b| - 1])
  }

  lemma SubChainPrefix(c: Crypto, ws: seq<WitnessRow>, sub: seq<AttestationRow>)
    requires sub != [] && SubChainOk(c, None, ws, sub)
    ensures var (init, last) := (sub[..|sub| - 1], sub[|sub| - 1]);
            && SubChainOk(c, None, ws, init)
            && last.prevAttestationHash == SubChainHead(init)
            && last.attestationHash == Sha256Hex(c, AttestedText(last))
  {
    var (init, last) := (sub[..|sub| - 1], sub[|sub| - 1]);
    assert sub == init + [last];
    SubChainExtend(c, None, ws, init, last);
  }

  lemma SameAttestationsExtend(a: seq<AttestationRow>, b: seq<AttestationRow>)
    requires a != [] && b != [] && SameAttested(a[|a| - 1], b[|b| - 1])
    ensures SameAttestations(a, b) <==> SameAttestations(a[..|a| - 1], b[..|b| - 1])
  {
    var (p, q) := (a[..|a| - 1], b[..|b| - 1]);
    if SameAttestations(p, q) {
      forall i | 0 <= i < |a| ensures SameAttested(a[i], b[i]) {
        if i < |p| { assert SameAttested(p[i], q[i]); }
      }
    }
  }

  /** Two valid chains of attestations that end in the same hash agree on all five fields,
      row by row, or the comparison hands over a collision or a genesis preimage. */
  lemma {:induction false} SubChainCollision(c: Crypto, ws: seq<WitnessRow>, vs: seq<WitnessRow>,
                                             a: seq<AttestationRow>, b: seq<AttestationRow>)
    requires SubChainOk(c, None, ws, a) && SubChainOk(c, None, vs, b)
    requires SubChainHead(a) == SubChainHead(b)
    ensures CompareAttested(a, b) == Agree <==> SameAttestations(a, b)
    ensures CompareAttested(a, b) != Agree ==> IsBreak(c, CompareAttested(a, b))
    decreases |a|
  {
    if a != [] { SubChainPrefix(c, ws, a); }
    if b != [] { SubChainPrefix(c, vs, b); }
    if a == [] || b == [] {
    } else {
      var (r, s) := (a[|a| - 1], b[|b| - 1]);
      HexInjective(c.sha256(AttestedText(r)), c.sha256(AttestedText(s)));
      AttestedTextIff(r, s);
      if SameAttested(r, s) {
        SubChainCollision(c, ws, vs, a[..|a| - 1], b[..|b| - 1]);
        SameAttestationsExtend(a, b);
      }
    }
  }

  /** The rows of one witness in an accepted table form a chain that ends in its last
      hash. */
  lemma AcceptedSubChain(c: Crypto, ov: Option<Verifier>, ws: seq<WitnessRow>, rows: seq<AttestationRow>, id: int)
    requires PassOk(c, ov, ws, rows)
    ensures SubChainOk(c, None, ws, Filter(rows, id)) && SubChainHead(Filter(rows, id)) == LastHash(rows, id)
  {
    forall i | 0 <= i < |rows| ensures RowInOrder(c, None, ws, rows, i) {
      assert RowInOrder(c, ov, ws, rows, i);
    }
    PassIffSubChains(c, None, ws, rows);
    assert WitnessOk(c, None, ws, rows, id);
    LastOfFilter(rows, id);
  }

  /** The last attestation of a witness in the ledger pins all its earlier ones: any table
      that the grouped walk accepts and in which the witness ends in the same hash holds the
      same attestations of that witness, or comparing them yields a break of the digest. */
  lemma WitnessHistoryPinned(w: World, db: Db, id: int, ov: Option<Verifier>, vs: seq<WitnessRow>, table: seq<AttestationRow>)
    requires DbInv(w, None, db)
    requires AttestationIdsAscending(table) && PassOk(w.crypto, ov, vs, Ordered(table))
    requires LastHash(table, id) == LastHash(db.attestations, id)
    ensures var (mine, theirs) := (Filter(db.attestations, id), Filter(table, id));
            && (CompareAttested(mine, theirs) == Agree <==> SameAttestations(mine, theirs))
            && (CompareAttested(mine, theirs) != Agree ==> IsBreak(w.crypto, CompareAttested(mine, theirs)))
  {
    AcceptedSubChain(w.crypto, None, db.witnesses, db.attestations, id);
    GroupedWalkIff(w.crypto, ov, vs, table);
    AcceptedSubChain(w.crypto, ov, vs, table, id);
    SubChainCollision(w.crypto, db.witnesses, vs, Filter(db.attestations, id), Filter(table, id));
  }

  /** Rows in order up to any of them, whose hash is then the last of its witness. */
  lemma AcceptedUpTo(c: Crypto, ov: Option<Verifier>, ws: seq<WitnessRow>, rows: seq<AttestationRow>, i: nat)
    requires PassOk(c, ov, ws, rows) && i < |rows|
    ensures var sub := Filter(rows[..i + 1], rows[i].witnessId);
            SubChainOk(c, None, ws, sub) && SubChainHead(sub) == rows[i].attestationHash
  {
    var init := rows[..i + 1];
    forall j | 0 <= j < |init| ensures RowInOrder(c, ov, ws, init, j) {
      assert RowInOrder(c, ov, ws, rows, j);
      assert init[..j] == rows[..j];
    }
    AcceptedSubChain(c, ov, ws, init, rows[i].witnessId);
  }

  /** Any hash that two accepted tables share, at any rows, pins the chains below it. */
  lemma SharedAttestationPins(c: Crypto, ws: seq<WitnessRow>, mine: seq<AttestationRow>, i: nat,
                              ov: Option<Verifier>, vs: seq<WitnessRow>, table: seq<AttestationRow>, k: nat)
    requires PassOk(c, None, ws, mine) && i < |mine|
    requires AttestationIdsAscending(table) && PassOk(c, ov, vs, Ordered(table)) && k < |table|
    requires table[k].attestationHash == mine[i].attestationHash
    ensures var (a, b) := (Filter(mine[..i + 1], mine[i].witnessId), Filter(table[..k + 1], table[k].witnessId));
            && (CompareAttested(a, b) == Agree <==> SameAttestations(a, b))
            && (CompareAttested(a, b) != Agree ==> IsBreak(c, CompareAttested(a, b)))
  {
    GroupedWalkIff(c, ov, vs, table);
    AcceptedUpTo(c, None, ws, mine, i);
    AcceptedUpTo(c, ov, vs, table, k);
    SubChainCollision(c, ws, vs, Filter(mine[..i + 1], mine[i].witnessId), Filter(table[..k + 1], table[k].witnessId));
  }

  /** Every attestation of the ledger pins the earlier ones of its witness, for all time:
      after any further calls, a table that the grouped walk accepts and that holds the same
      attestation hash at any row agrees with the ledger below it, or comparing them yields
      a break of the digest. */
  lemma AttestedHistoryPinned(w: World, db: Db, i: nat, reqs: seq<Request>,
                              ov: Option<Verifier>, vs: seq<WitnessRow>, table: seq<AttestationRow>, k: nat)
    requires DbInv(w, None, db) && i < |db.attestations|
    requires AttestationIdsAscending(table) && PassOk(w.crypto, ov, vs, Ordered(table))
    requires k < |table| && table[k].attestationHash == db.attestations[i].attestationHash
    ensures var after := ExecAll(w, db, reqs).attestations;
            && i < |after| && after[i] == db.attestations[i]
            && var (mine, theirs) := (Filter(after[..i + 1], after[i].witnessId), Filter(table[..k + 1], table[k].witnessId));
               && (CompareAttested(mine, theirs) == Agree <==> SameAttestations(mine, theirs))
               && (CompareAttested(mine, theirs) != Agree ==> IsBreak(w.crypto, CompareAttested(mine, theirs)))
  {
    ExecAllExtends(w, db, reqs);
    var after := ExecAll(w, db, reqs).attestations;
    assert after[i] == db.attestations[i] && after[..i + 1] == db.attestations[..i + 1];
    SharedAttestationPins(w.crypto, db.witnesses, db.attestations, i, ov, vs, table, k);
  }
}
