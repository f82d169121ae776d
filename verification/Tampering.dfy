/** Exactly which edits of a single stored row `verify_chain` notices. */
module Tampering {
  import opened Base
  import opened Crypto
  import opened EntryChain
  import opened ChainCheck

  /** A table with one row replaced is still accepted exactly when the new row is in order
      by itself, linked to the row before it, and, unless it is the last row, still ends in
      the old entry hash. */
  lemma EditAcceptedIff(c: Crypto, ov: Option<Verifier>, rows: seq<EntryRow>, i: nat, row: EntryRow)
    requires i < |rows| && ValidChain(c, ov, rows)
    ensures ValidChain(c, ov, rows[i := row]) <==>
      && row.previousHash == ExpectedPrevious(rows, i)
      && HashOk(c, row) && SignatureFault(c, ov, row).None?
      && (i + 1 < |rows| ==> row.entryHash == rows[i].entryHash)
  {
    var edited := rows[i := row];
    forall k | 0 <= k < |rows| && k != i && k != i + 1 ensures RowOk(c, ov, edited, k) {
      assert RowOk(c, ov, rows, k);
    }
    if i + 1 < |rows| {
      assert RowOk(c, ov, rows, i + 1);
      assert RowOk(c, ov, edited, i + 1) <==> row.entryHash == rows[i].entryHash;
    }
    if ValidChain(c, ov, edited) {
      assert RowOk(c, ov, edited, i);
      if i + 1 < |rows| { assert RowOk(c, ov, edited, i + 1); }
    }
  }

  /** An accepted edit of a row that is not the last, or of any row whose stored hash is
      left as it was, changes no covered field, or else the two preimages collide. */
  lemma CoveredEditIsNoticed(c: Crypto, ov: Option<Verifier>, rows: seq<EntryRow>, i: nat, row: EntryRow)
    requires i < |rows| && ValidChain(c, ov, rows)
    requires i + 1 < |rows| || row.entryHash == rows[i].entryHash
    requires ValidChain(c, ov, rows[i := row])
    ensures SameCovered(rows[i], row) || IsCollision(c, Preimage(rows[i]), Preimage(row))
  {
    EditAcceptedIff(c, ov, rows, i, row);
    assert RowOk(c, ov, rows, i);
    HexInjective(c.sha256(Preimage(rows[i])), c.sha256(Preimage(row)));
    PreimageIffCovered(rows[i], row);
  }

  /** Two preimages that do not collide have one hash exactly when they agree. */
  lemma HashTellsCovered(c: Crypto, a: EntryRow, b: EntryRow)
    requires !IsCollision(c, Preimage(a), Preimage(b))
    ensures ComputeEntryHash(c, a) == ComputeEntryHash(c, b) <==> SameCovered(a, b)
  {
    PreimageIffCovered(a, b);
    if ComputeEntryHash(c, a) == ComputeEntryHash(c, b) {
      HexInjective(c.sha256(Preimage(a)), c.sha256(Preimage(b)));
    }
  }

  /** An edit that leaves the stored hash of its row as it was goes unnoticed exactly when
      it changes no covered field; otherwise the walk stops at that row. */
  lemma FieldEditIff(c: Crypto, rows: seq<EntryRow>, i: nat, row: EntryRow)
    requires i < |rows| && ValidChain(c, None, rows)
    requires row.entryHash == rows[i].entryHash && !IsCollision(c, Preimage(rows[i]), Preimage(row))
    ensures ValidChain(c, None, rows[i := row]) <==> SameCovered(rows[i], row)
    ensures !SameCovered(rows[i], row) ==>
              var kind := if row.previousHash == rows[i].previousHash then HashMismatch else PreviousMismatch;
              RejectedAt(c, None, rows[i := row], i, ChainFault(row.entryId, kind))
  {
    var edited := rows[i := row];
    HashTellsCovered(c, rows[i], row);
    EditAcceptedIff(c, None, rows, i, row);
    assert RowOk(c, None, rows, i);
    if !SameCovered(rows[i], row) {
      ValidPrefix(c, None, rows, i);
      assert edited[..i] == rows[..i];
      assert !RowOk(c, None, edited, i);
    }
  }

  /** The last row is outside this guarantee: with its hash recomputed, any other actor,
      action, payload or time in it is accepted by a walk without a verifier. Only a
      recorded anchor or attestation, or a signature, speaks against it. */
  lemma LastRowIsOpen(c: Crypto, rows: seq<EntryRow>, actor: string, action: string, payload: string, timestamp: string)
    requires rows != [] && ValidChain(c, None, rows)
    ensures var last := rows[|rows| - 1];
            var row := last.(actor := actor, action := action, payload := payload, timestamp := timestamp);
            var edited := row.(entryHash := ComputeEntryHash(c, row));
            ValidChain(c, None, rows[|rows| - 1 := edited])
  {
    var last := rows[|rows| - 1];
    var row := last.(actor := actor, action := action, payload := payload, timestamp := timestamp);
    var edited := row.(entryHash := ComputeEntryHash(c, row));
    assert HashedFields(edited) == HashedFields(row);
    assert RowOk(c, None, rows, |rows| - 1);
    EditAcceptedIff(c, None, rows, |rows| - 1, edited);
  }

  /** Signatures, key ids, and the format version among those from 2 up are not under the
      hash: a walk without a verifier accepts any values in them. */
  lemma UncoveredFieldsAreOpen(c: Crypto, rows: seq<EntryRow>, i: nat, signature: Option<string>, keyId: Option<string>, version: int)
    requires i < |rows| && ValidChain(c, None, rows)
    requires version >= 2 <==> rows[i].FormatVersion() >= 2
    ensures ValidChain(c, None, rows[i := rows[i].(signature := signature, signingKeyId := keyId, formatVersion := Some(version))])
  {
    var row := rows[i].(signature := signature, signingKeyId := keyId, formatVersion := Some(version));
    assert HashedFields(row) == HashedFields(rows[i]);
    assert RowOk(c, None, rows, i);
    EditAcceptedIff(c, None, rows, i, row);
  }
}
