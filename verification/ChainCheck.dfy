/** Validity of a chain of rows, stated row by row, and what two valid chains with a
    common head must share. */
module ChainCheck {
  import opened Base
  import opened Crypto
  import opened EntryChain

  datatype FaultKind =
    | PreviousMismatch
    | HashMismatch
    | SignatureInvalid
    | SignatureNotHex   // bytes.fromhex raises ValueError
    | VerifierRaised    // the verifier's own exception passes through

  datatype ChainFault = ChainFault(entryId: int, kind: FaultKind)

  /** The hash a row must name as its previous one. */
  function ExpectedPrevious(rows: seq<EntryRow>, i: nat): string
    requires i <= |rows|
  {
    if i == 0 then GENESIS else rows[i - 1].entryHash
  }

  /** What the signature of a row shows to the verifier, if one is given. */
  function SignatureFault(c: Crypto, ov: Option<Verifier>, row: EntryRow): Option<FaultKind> {
    if ov.None? || row.signature.None? then None
    else
      match FromHex(row.signature.value)
      case None => Some(SignatureNotHex)
      case Some(sig) =>
        match ov.value.verify(row.signingKeyId, c.utf8(row.entryHash), sig)
        case None => Some(VerifierRaised)
        case Some(ok) => if ok then None else Some(SignatureInvalid)
  }

  ghost predicate LinkOk(rows: seq<EntryRow>, i: nat)
    requires i < |rows|
  {
    rows[i].previousHash == ExpectedPrevious(rows, i)
  }

  ghost predicate HashOk(c: Crypto, row: EntryRow) {
    row.entryHash == ComputeEntryHash(c, row)
  }

  ghost predicate RowOk(c: Crypto, ov: Option<Verifier>, rows: seq<EntryRow>, i: nat)
    requires i < |rows|
  {
    LinkOk(rows, i) && HashOk(c, rows[i]) && SignatureFault(c, ov, rows[i]).None?
  }

  /** Every link, every hash and every checked signature holds. */
  ghost predicate ValidChain(c: Crypto, ov: Option<Verifier>, rows: seq<EntryRow>) {
    forall i | 0 <= i < |rows| :: RowOk(c, ov, rows, i)
  }

  /** The fault reported for a row that is not in order: the link is looked at first,
      then the hash, then the signature. */
  ghost predicate IsFaultOf(c: Crypto, ov: Option<Verifier>, rows: seq<EntryRow>, i: nat, f: ChainFault)
    requires i < |rows|
  {
    && f.entryId == rows[i].entryId
    && if !LinkOk(rows, i) then f.kind == PreviousMismatch
       else if !HashOk(c, rows[i]) then f.kind == HashMismatch
       else SignatureFault(c, ov, rows[i]) == Some(f.kind)
  }

  /** The walk stops at row `i`: every row before it is in order and it is not. */
  ghost predicate RejectedAt(c: Crypto, ov: Option<Verifier>, rows: seq<EntryRow>, i: nat, f: ChainFault) {
    && i < |rows|
    && ValidChain(c, ov, rows[..i])
    && !RowOk(c, ov, rows, i)
    && IsFaultOf(c, ov, rows, i, f)
  }

  /** A verdict on a table: the number of rows when all are in order, otherwise the
      fault of the first row that is not. */
  ghost predicate IsVerdict(c: Crypto, ov: Option<Verifier>, rows: seq<EntryRow>, r: Result<nat, ChainFault>) {
    if r.Ok? then r.value == |rows| && ValidChain(c, ov, rows)
    else exists i: nat :: RejectedAt(c, ov, rows, i, r.error)
  }

  lemma ValidPrefix(c: Crypto, ov: Option<Verifier>, rows: seq<EntryRow>, k: nat)
    requires k <= |rows| && ValidChain(c, ov, rows)
    ensures ValidChain(c, ov, rows[..k])
  {
    forall i | 0 <= i < k ensures RowOk(c, ov, rows[..k], i) {
      assert RowOk(c, ov, rows, i);
    }
  }

  lemma PrefixRowsOk(c: Crypto, ov: Option<Verifier>, rows: seq<EntryRow>, k: nat)
    requires k <= |rows| && ValidChain(c, ov, rows[..k])
    ensures forall i | 0 <= i < k :: RowOk(c, ov, rows, i)
  {
    forall i | 0 <= i < k ensures RowOk(c, ov, rows, i) {
      assert RowOk(c, ov, rows[..k], i);
    }
  }

  /** A chain stays valid when a row in order is put on top. */
  lemma ValidExtend(c: Crypto, ov: Option<Verifier>, rows: seq<EntryRow>, row: EntryRow)
    requires ValidChain(c, ov, rows)
    requires row.previousHash == ExpectedPrevious(rows, |rows|) && HashOk(c, row) && SignatureFault(c, ov, row).None?
    ensures ValidChain(c, ov, rows + [row])
  {
    var all := rows + [row];
    forall i | 0 <= i < |all| ensures RowOk(c, ov, all, i) {
      if i < |rows| { assert RowOk(c, ov, rows, i); }
    }
  }

  /** A verdict is one or the other: no table is both accepted and rejected. */
  lemma VerdictUnique(c: Crypto, ov: Option<Verifier>, rows: seq<EntryRow>,
                      r: Result<nat, ChainFault>, s: Result<nat, ChainFault>)
    requires IsVerdict(c, ov, rows, r) && IsVerdict(c, ov, rows, s)
    ensures r == s
  {
    if r.Err? && s.Err? {
      var i: nat :| RejectedAt(c, ov, rows, i, r.error);
      var j: nat :| RejectedAt(c, ov, rows, j, s.error);
      PrefixRowsOk(c, ov, rows, i);
      PrefixRowsOk(c, ov, rows, j);
    }
  }

  // ---- two chains with one head -------------------------------------------------

  /** The hash at the head of a chain; an empty chain stands at the genesis value. */
  function HeadHash(rows: seq<EntryRow>): string {
    ExpectedPrevious(rows, |rows|)
  }

  ghost predicate SameChain(a: seq<EntryRow>, b: seq<EntryRow>) {
    && |a| == |b|
    && forall i | 0 <= i < |a| :: SameCovered(a[i], b[i]) && a[i].entryHash == b[i].entryHash
  }

  /** What a comparison of two chains from their heads down ends with. */
  datatype Finding =
    | Agree
    | Collision(x: string, y: string)
    | GenesisPreimage(x: string)

  function Compare(a: seq<EntryRow>, b: seq<EntryRow>): Finding {
    if a == [] && b == [] then Agree
    else if a == [] then GenesisPreimage(Preimage(b[|b| - 1]))
    else if b == [] then GenesisPreimage(Preimage(a[|a| - 1]))
    else
      var x, y := Preimage(a[|a| - 1]), Preimage(b[|b| - 1]);
      if x != y then Collision(x, y) else Compare(a[..|a| - 1], b[..|b| - 1])
  }

  /** A finding other than agreement is a concrete break of the digest. */
  predicate IsBreak(c: Crypto, f: Finding) {
    match f
    case Agree => false
    case Collision(x, y) => IsCollision(c, x, y)
    case GenesisPreimage(x) => Sha256Hex(c, x) == GENESIS
  }

  /** Two valid chains of any lengths that end in the same hash agree row by row on all
      covered fields, or the comparison hands over two different texts with one digest,
      or a text whose digest is the genesis value. */
  lemma {:induction false} CollisionExtraction(c: Crypto, a: seq<EntryRow>, b: seq<EntryRow>)
    requires ValidChain(c, None, a) && ValidChain(c, None, b)
    requires HeadHash(a) == HeadHash(b)
    ensures Compare(a, b) == Agree <==> SameChain(a, b)
    ensures Compare(a, b) != Agree ==> IsBreak(c, Compare(a, b))
    decreases |a|
  {
    if a != [] { assert RowOk(c, None, a, |a| - 1); }
    if b != [] { assert RowOk(c, None, b, |b| - 1); }
    if a == [] || b == [] {
    } else {
      var (r, s) := (a[|a| - 1], b[|b| - 1]);
      HexInjective(c.sha256(Preimage(r)), c.sha256(Preimage(s)));
      PreimageIffCovered(r, s);
      if Preimage(r) == Preimage(s) {
        ValidPrefix(c, None, a, |a| - 1);
        ValidPrefix(c, None, b, |b| - 1);
        CollisionExtraction(c, a[..|a| - 1], b[..|b| - 1]);
        SameChainExtend(a, b);
      }
    }
  }

  lemma SameChainExtend(a: seq<EntryRow>, b: seq<EntryRow>)
    requires a != [] && b != []
    requires SameCovered(a[|a| - 1], b[|b| - 1]) && a[|a| - 1].entryHash == b[|b| - 1].entryHash
    ensures SameChain(a, b) <==> SameChain(a[..|a| - 1], b[..|b| - 1])
  {
    var (p, q) := (a[..|a| - 1], b[..|b| - 1]);
    if SameChain(p, q) {
      forall i | 0 <= i < |a| ensures SameCovered(a[i], b[i]) && a[i].entryHash == b[i].entryHash {
        if i < |p| { assert SameCovered(p[i], q[i]); }
      }
    }
  }

  ghost predicate IdsFrom1(rows: seq<EntryRow>) {
    forall i | 0 <= i < |rows| :: rows[i].entryId == i + 1
  }

  /** Positive and strictly increasing, as SQLite keeps ids it assigned itself. */
  ghost predicate IdsAscending(rows: seq<EntryRow>) {
    && (forall i | 0 <= i < |rows| :: rows[i].entryId >= 1)
    && (forall i, j | 0 <= i < j < |rows| :: rows[i].entryId < rows[j].entryId)
  }

  /** When one chain has the ids 1..n and the other positive increasing ids that do not
      run past n, a genesis preimage can only come up because the other chain does not
      start at id 1; a chain that starts there leaves agreement or a collision. */
  lemma {:induction false} NoGenesisPreimage(a: seq<EntryRow>, b: seq<EntryRow>)
    requires IdsFrom1(a) && IdsAscending(b)
    requires b != [] ==> b[|b| - 1].entryId <= |a|
    ensures Compare(a, b).GenesisPreimage? ==> if b == [] then a != [] else b[0].entryId > 1
    decreases |a|
  {
    if a == [] || b == [] || Preimage(a[|a| - 1]) != Preimage(b[|b| - 1]) {
    } else {
      PreimageIffCovered(a[|a| - 1], b[|b| - 1]);
      NoGenesisPreimage(a[..|a| - 1], b[..|b| - 1]);
    }
  }

  function Shorter(a: seq<EntryRow>, b: seq<EntryRow>): nat {
    if |a| < |b| then |a| else |b|
  }

  function FromEnd(rows: seq<EntryRow>, k: nat): EntryRow
    requires 1 <= k <= |rows|
  {
    rows[|rows| - k]
  }

  /** The chains differ in length, and the shorter one agrees with the end of the longer. */
  ghost predicate EndsAlike(a: seq<EntryRow>, b: seq<EntryRow>) {
    |a| != |b| && forall k | 1 <= k <= Shorter(a, b) :: SameCovered(FromEnd(a, k), FromEnd(b, k))
  }

  lemma EndsAlikeStep(a: seq<EntryRow>, b: seq<EntryRow>)
    requires a != [] && b != []
    ensures EndsAlike(a, b) <==> SameCovered(a[|a| - 1], b[|b| - 1]) && EndsAlike(a[..|a| - 1], b[..|b| - 1])
  {
    var (p, q) := (a[..|a| - 1], b[..|b| - 1]);
    forall k | 1 <= k <= Shorter(p, q) ensures FromEnd(p, k) == FromEnd(a, k + 1) && FromEnd(q, k) == FromEnd(b, k + 1) {}
    assert FromEnd(a, 1) == a[|a| - 1] && FromEnd(b, 1) == b[|b| - 1];
    if SameCovered(a[|a| - 1], b[|b| - 1]) && EndsAlike(p, q) {
      forall k | 1 <= k <= Shorter(a, b) ensures SameCovered(FromEnd(a, k), FromEnd(b, k)) {
        if k > 1 { assert SameCovered(FromEnd(p, k - 1), FromEnd(q, k - 1)); }
      }
    }
  }

  /** The exact condition for a genesis preimage to come up. */
  lemma {:induction false} PreimageFindingIff(a: seq<EntryRow>, b: seq<EntryRow>)
    ensures Compare(a, b).GenesisPreimage? <==> EndsAlike(a, b)
    decreases |a|
  {
    if a == [] || b == [] {
    } else {
      PreimageIffCovered(a[|a| - 1], b[|b| - 1]);
      CompareStep(a, b);
      EndsAlikeStep(a, b);
      PreimageFindingIff(a[..|a| - 1], b[..|b| - 1]);
    }
  }

  lemma CompareStep(a: seq<EntryRow>, b: seq<EntryRow>)
    requires a != [] && b != []
    ensures Compare(a, b).GenesisPreimage? <==>
            Preimage(a[|a| - 1]) == Preimage(b[|b| - 1]) && Compare(a[..|a| - 1], b[..|b| - 1]).GenesisPreimage?
  {}

  function ZeroBytes(n: nat): Bytes {
    if n == 0 then [] else [0] + ZeroBytes(n - 1)
  }

  lemma {:induction false} HexOfZeros(n: nat)
    ensures ToHex(ZeroBytes(n)) == Zeros(2 * n)
  {
    if n == 0 {
    } else {
      HexOfZeros(n - 1);
      assert Zeros(2 * n) == "0" + ("0" + Zeros(2 * (n - 1)));
    }
  }

  /** Under a digest that is always zero, rows that are all zeros in their hashes form a
      chain. */
  lemma ZeroChain(c: Crypto, rows: seq<EntryRow>)
    requires forall x :: c.sha256(x) == ZeroBytes(32)
    requires forall i | 0 <= i < |rows| :: rows[i].previousHash == GENESIS && rows[i].entryHash == GENESIS
    ensures ValidChain(c, None, rows) && HeadHash(rows) == GENESIS
  {
    HexOfZeros(32);
    forall i | 0 <= i < |rows| ensures RowOk(c, None, rows, i) {
      assert HashOk(c, rows[i]);
    }
  }

  /** Positive, strictly increasing ids do not rule a genesis preimage out: under that
      digest the rows 1, 2 and the row 2 alone are both valid chains with one head. */
  lemma AscendingIdsAreNotEnough(c: Crypto, row: EntryRow, next: EntryRow)
    requires forall x :: c.sha256(x) == ZeroBytes(32)
    requires row.entryId == 1 && row.previousHash == GENESIS && row.entryHash == GENESIS
    requires next.entryId == 2 && next.previousHash == GENESIS && next.entryHash == GENESIS
    ensures ValidChain(c, None, [row, next]) && ValidChain(c, None, [next])
    ensures HeadHash([row, next]) == HeadHash([next])
    ensures IdsFrom1([row, next]) && IdsAscending([next])
    ensures Compare([row, next], [next]).GenesisPreimage?
  {
    ZeroChain(c, [row, next]);
    ZeroChain(c, [next]);
    PreimageFindingIff([row, next], [next]);
    assert FromEnd([row, next], 1) == FromEnd([next], 1) == next;
  }

  // ---- what a verifier adds ----------------------------------------------------------

  /** The verifier answers True for the stored signature, under the stored key id, over the
      bytes of the stored hash text. */
  ghost predicate SignedRow(c: Crypto, v: Verifier, row: EntryRow)
    requires row.signature.Some?
  {
    var signature := FromHex(row.signature.value);
    signature.Some? && v.verify(row.signingKeyId, c.utf8(row.entryHash), signature.value) == Some(true)
  }

  /** Each outcome of the signature check. */
  lemma SignatureFaultIff(c: Crypto, v: Verifier, row: EntryRow)
    ensures var fault := SignatureFault(c, Some(v), row);
            var bytes := if row.signature.Some? then FromHex(row.signature.value) else None;
            && (fault == Some(SignatureNotHex) <==> row.signature.Some? && bytes.None?)
            && (fault == Some(VerifierRaised) <==>
                  bytes.Some? && v.verify(row.signingKeyId, c.utf8(row.entryHash), bytes.value) == None)
            && (fault == Some(SignatureInvalid) <==>
                  bytes.Some? && v.verify(row.signingKeyId, c.utf8(row.entryHash), bytes.value) == Some(false))
            && (fault == None <==> row.signature.Some? ==> SignedRow(c, v, row))
  {}

  /** With a verifier a table is accepted exactly when it is accepted without one and the
      verifier answers True for every row that carries a signature. */
  lemma SignedChainIff(c: Crypto, v: Verifier, rows: seq<EntryRow>)
    ensures ValidChain(c, Some(v), rows) <==>
              && ValidChain(c, None, rows)
              && forall i | 0 <= i < |rows| && rows[i].signature.Some? :: SignedRow(c, v, rows[i])
  {
    forall i | 0 <= i < |rows|
      ensures RowOk(c, Some(v), rows, i) <==>
        RowOk(c, None, rows, i) && (rows[i].signature.Some? ==> SignedRow(c, v, rows[i]))
    {
      SignatureFaultIff(c, v, rows[i]);
    }
  }
}
