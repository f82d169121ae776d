/** Queries on the table of witness attestations. */
module AttestationTable {
  import opened Base
  import opened Clock
  import opened WitnessChain
  import Text

  /** The optional filters; times are texts compared with the stored texts. */
  datatype Query = Query(witnessId: Option<int>, headId: Option<int>, since: Option<string>, until: Option<string>)

  predicate Matches(row: AttestationRow, q: Query) {
    && (q.witnessId.Some? ==> row.witnessId == q.witnessId.value)
    && (q.headId.Some? ==> row.chainHeadEntryId == q.headId.value)
    && (q.since.Some? ==> Text.AtMost(q.since.value, row.signedAt))
    && (q.until.Some? ==> Text.AtMost(row.signedAt, q.until.value))
  }

  /** WHERE ... ORDER BY attestation_id LIMIT ?; a negative limit is none. */
  function Select(rows: seq<AttestationRow>, q: Query, limit: int): seq<AttestationRow> {
    if rows == [] || limit == 0 then []
    else if Matches(rows[0], q) then [rows[0]] + Select(rows[1..], q, limit - 1)
    else Select(rows[1..], q, limit)
  }

  /** `sofar` is what the query has selected before row `i`. */
  ghost predicate Selecting(rows: seq<AttestationRow>, q: Query, limit: int, i: nat, sofar: seq<AttestationRow>)
    requires i <= |rows|
  {
    Select(rows, q, limit) == sofar + Select(rows[i..], q, limit - |sofar|)
  }

  lemma SelectRow(rows: seq<AttestationRow>, q: Query, limit: int, i: nat, sofar: seq<AttestationRow>)
    requires i < |rows| && |sofar| != limit && Selecting(rows, q, limit, i, sofar)
    ensures Selecting(rows, q, limit, i + 1, if Matches(rows[i], q) then sofar + [rows[i]] else sofar)
  {
    assert rows[i..][1..] == rows[i + 1..];
  }

  lemma SelectStart(rows: seq<AttestationRow>, q: Query, limit: int)
    ensures Selecting(rows, q, limit, 0, [])
  {
    assert rows[0..] == rows;
  }

  lemma SelectEnd(rows: seq<AttestationRow>, q: Query, limit: int, i: nat, sofar: seq<AttestationRow>)
    requires i <= |rows| && Selecting(rows, q, limit, i, sofar) && (i == |rows| || |sofar| == limit)
    ensures sofar == Select(rows, q, limit)
  {}

  /** Without a limit the query selects exactly the rows that match; with one, the first
      of them. */
  lemma {:induction false} SelectsFirst(rows: seq<AttestationRow>, q: Query, limit: int)
    ensures forall x :: x in Select(rows, q, -1) <==> x in rows && Matches(x, q)
    ensures var all := Select(rows, q, -1);
            Select(rows, q, limit) == if limit < 0 || |all| <= limit then all else all[..limit]
    decreases |rows|
  {
    if rows == [] {
    } else {
      assert rows == [rows[0]] + rows[1..];
      SelectsFirst(rows[1..], q, if Matches(rows[0], q) then limit - 1 else limit);
      NoLimit(rows[1..], q, -2);
      if limit < 0 { NoLimit(rows, q, limit); }
    }
  }

  lemma {:induction false} NoLimit(rows: seq<AttestationRow>, q: Query, limit: int)
    requires limit < 0
    ensures Select(rows, q, limit) == Select(rows, q, -1)
    decreases |rows|
  {
    if rows == [] {
    } else {
      NoLimit(rows[1..], q, limit - 1);
      NoLimit(rows[1..], q, limit);
      NoLimit(rows[1..], q, -2);
    }
  }

  /** `r` holds matching rows, at most as many as the limit, in ascending id order, and
      leaves a matching row out only in favour of `limit` rows with lower ids. */
  ghost predicate AreFirst(rows: seq<AttestationRow>, q: Query, limit: int, r: seq<AttestationRow>) {
    && (limit >= 0 ==> |r| <= limit)
    && AttestationIdsAscending(r)
    && (forall x | x in r :: x in rows && Matches(x, q))
    && (forall x | x in rows && Matches(x, q) ::
          x in r || (|r| == limit && forall y | y in r :: y.attestationId < x.attestationId))
  }

  lemma {:induction false} SelectAreFirst(rows: seq<AttestationRow>, q: Query, limit: int)
    requires AttestationIdsAscending(rows)
    ensures AreFirst(rows, q, limit, Select(rows, q, limit))
    decreases |rows|
  {
    if rows == [] || limit == 0 {
    } else {
      assert rows == [rows[0]] + rows[1..];
      assert forall x | x in rows[1..] :: rows[0].attestationId < x.attestationId;
      if Matches(rows[0], q) {
        SelectAreFirst(rows[1..], q, limit - 1);
        FirstTake(rows[0], rows[1..], q, limit, Select(rows[1..], q, limit - 1));
      } else {
        SelectAreFirst(rows[1..], q, limit);
        FirstSkip(rows[0], rows[1..], q, limit, Select(rows[1..], q, limit));
      }
    }
  }

  lemma FirstSkip(row: AttestationRow, tail: seq<AttestationRow>, q: Query, limit: int, r: seq<AttestationRow>)
    requires AreFirst(tail, q, limit, r) && !Matches(row, q)
    ensures AreFirst([row] + tail, q, limit, r)
  {
    assert forall x :: x in [row] + tail <==> x == row || x in tail;
  }

  lemma FirstTake(row: AttestationRow, tail: seq<AttestationRow>, q: Query, limit: int, r: seq<AttestationRow>)
    requires AreFirst(tail, q, limit - 1, r) && Matches(row, q) && limit != 0
    requires forall x | x in tail :: row.attestationId < x.attestationId
    ensures AreFirst([row] + tail, q, limit, [row] + r)
  {
    assert forall x :: x in [row] + tail <==> x == row || x in tail;
    assert forall x :: x in [row] + r <==> x == row || x in r;
    forall j | 0 <= j < |r| ensures row.attestationId < r[j].attestationId {
      assert r[j] in r && r[j] in tail;
    }
  }

  /** Filters given in the written form select exactly the attestations signed in the
      closed interval between the two times. */
  lemma IntervalIsExact(row: AttestationRow, signed: UtcTime, since: UtcTime, until: UtcTime)
    requires row.signedAt == Format(signed)
    ensures Matches(row, Query(None, None, Some(Format(since)), Some(Format(until)))) <==>
            Instant(since) <= Instant(signed) <= Instant(until)
  {
    TextIsChronological(signed, since);
    TextIsChronological(until, signed);
  }

  /** Each filter by itself, and that filters add up. */
  lemma FiltersAreExact(row: AttestationRow, q: Query, signed: UtcTime, time: UtcTime, id: int)
    requires row.signedAt == Format(signed)
    ensures Matches(row, Query(None, None, None, None))
    ensures Matches(row, Query(Some(id), None, None, None)) <==> row.witnessId == id
    ensures Matches(row, Query(None, Some(id), None, None)) <==> row.chainHeadEntryId == id
    ensures Matches(row, Query(None, None, Some(Format(time)), None)) <==> Instant(time) <= Instant(signed)
    ensures Matches(row, Query(None, None, None, Some(Format(time)))) <==> Instant(signed) <= Instant(time)
    ensures Matches(row, q) <==>
              && Matches(row, Query(q.witnessId, None, None, None)) && Matches(row, Query(None, q.headId, None, None))
              && Matches(row, Query(None, None, q.since, None)) && Matches(row, Query(None, None, None, q.until))
  {
    TextIsChronological(signed, time);
    TextIsChronological(time, signed);
  }
}
