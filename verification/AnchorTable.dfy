/** Queries on the anchors table. */
module AnchorTable {
  import opened Base
  import opened Clock
  import opened LedgerSpec
  import Text

  /** Unconfirmed, with a proof, and not older than the cutoff; the comparison is one of
      stored texts. */
  predicate Eligible(row: AnchorRow, cutoff: Option<UtcTime>) {
    && row.confirmedAt.None? && row.otsProofBlob.Some?
    && (cutoff.Some? ==> Text.AtMost(Format(cutoff.value), row.submittedAt))
  }

  /** WHERE ... ORDER BY anchor_id LIMIT ?; a negative limit is none. */
  function SelectUnconfirmed(rows: seq<AnchorRow>, cutoff: Option<UtcTime>, limit: int): seq<AnchorRow> {
    if rows == [] || limit == 0 then []
    else if Eligible(rows[0], cutoff) then [rows[0]] + SelectUnconfirmed(rows[1..], cutoff, limit - 1)
    else SelectUnconfirmed(rows[1..], cutoff, limit)
  }

  /** `sofar` is what the query has selected before row `i`. */
  ghost predicate Selecting(rows: seq<AnchorRow>, cutoff: Option<UtcTime>, limit: int, i: nat, sofar: seq<AnchorRow>)
    requires i <= |rows|
  {
    SelectUnconfirmed(rows, cutoff, limit) == sofar + SelectUnconfirmed(rows[i..], cutoff, limit - |sofar|)
  }

  lemma SelectRow(rows: seq<AnchorRow>, cutoff: Option<UtcTime>, limit: int, i: nat, sofar: seq<AnchorRow>)
    requires i < |rows| && |sofar| != limit && Selecting(rows, cutoff, limit, i, sofar)
    ensures Selecting(rows, cutoff, limit, i + 1, if Eligible(rows[i], cutoff) then sofar + [rows[i]] else sofar)
  {
    assert rows[i..][1..] == rows[i + 1..];
  }

  lemma SelectStart(rows: seq<AnchorRow>, cutoff: Option<UtcTime>, limit: int)
    ensures Selecting(rows, cutoff, limit, 0, [])
  {
    assert rows[0..] == rows;
  }

  lemma SelectEnd(rows: seq<AnchorRow>, cutoff: Option<UtcTime>, limit: int, i: nat, sofar: seq<AnchorRow>)
    requires i <= |rows| && Selecting(rows, cutoff, limit, i, sofar) && (i == |rows| || |sofar| == limit)
    ensures sofar == SelectUnconfirmed(rows, cutoff, limit)
  {}

  function SelectAll(rows: seq<AnchorRow>, limit: int): seq<AnchorRow> {
    if limit < 0 || |rows| <= limit then rows else rows[..limit]
  }

  /** The ids of the table, in its order. */
  ghost predicate AnchorIdsAscending(rows: seq<AnchorRow>) {
    forall i, j | 0 <= i < j < |rows| :: rows[i].anchorId < rows[j].anchorId
  }

  /** `r` holds eligible rows, at most as many as the limit, in ascending id order, and
      leaves an eligible row out only in favour of `limit` rows with lower ids. */
  ghost predicate AreLowest(rows: seq<AnchorRow>, cutoff: Option<UtcTime>, limit: int, r: seq<AnchorRow>) {
    && (limit >= 0 ==> |r| <= limit)
    && AnchorIdsAscending(r)
    && (forall x | x in r :: x in rows && Eligible(x, cutoff))
    && (forall x | x in rows && Eligible(x, cutoff) ::
          x in r || (|r| == limit && forall y | y in r :: y.anchorId < x.anchorId))
  }

  lemma LowestSkip(row: AnchorRow, tail: seq<AnchorRow>, cutoff: Option<UtcTime>, limit: int, r: seq<AnchorRow>)
    requires AreLowest(tail, cutoff, limit, r) && !Eligible(row, cutoff)
    ensures AreLowest([row] + tail, cutoff, limit, r)
  {
    assert forall x :: x in [row] + tail <==> x == row || x in tail;
  }

  lemma LowestTake(row: AnchorRow, tail: seq<AnchorRow>, cutoff: Option<UtcTime>, limit: int, r: seq<AnchorRow>)
    requires AreLowest(tail, cutoff, limit - 1, r) && Eligible(row, cutoff) && limit != 0
    requires forall x | x in tail :: row.anchorId < x.anchorId
    ensures AreLowest([row] + tail, cutoff, limit, [row] + r)
  {
    assert forall x :: x in [row] + tail <==> x == row || x in tail;
    assert forall x :: x in [row] + r <==> x == row || x in r;
    forall j | 0 <= j < |r| ensures row.anchorId < r[j].anchorId {
      assert r[j] in r && r[j] in tail;
    }
  }

  lemma FirstIsLowest(rows: seq<AnchorRow>)
    requires rows != [] && AnchorIdsAscending(rows)
    ensures forall x | x in rows[1..] :: rows[0].anchorId < x.anchorId
  {}

  /** The query selects the eligible rows with the lowest ids. */
  lemma {:induction false} SelectsLowest(rows: seq<AnchorRow>, cutoff: Option<UtcTime>, limit: int)
    requires AnchorIdsAscending(rows)
    ensures AreLowest(rows, cutoff, limit, SelectUnconfirmed(rows, cutoff, limit))
    decreases |rows|
  {
    if rows != [] && limit != 0 {
      var tail := rows[1..];
      assert rows == [rows[0]] + tail && AnchorIdsAscending(tail);
      if Eligible(rows[0], cutoff) {
        SelectsLowest(tail, cutoff, limit - 1);
        FirstIsLowest(rows);
        LowestTake(rows[0], tail, cutoff, limit, SelectUnconfirmed(tail, cutoff, limit - 1));
      } else {
        SelectsLowest(tail, cutoff, limit);
        LowestSkip(rows[0], tail, cutoff, limit, SelectUnconfirmed(tail, cutoff, limit));
      }
    }
  }

  /** With the cutoff at `now` minus the given minutes, the text filter selects exactly the
      anchors submitted within that window. */
  lemma WindowIsExact(row: AnchorRow, submitted: UtcTime, now: UtcTime, minutes: nat, cutoff: UtcTime)
    requires row.confirmedAt.None? && row.otsProofBlob.Some? && row.submittedAt == Format(submitted)
    requires Instant(cutoff) == Instant(now) - minutes * 60_000_000
    ensures Eligible(row, Some(cutoff)) <==> Instant(now) - Instant(submitted) <= minutes * 60_000_000
  {
    TextIsChronological(submitted, cutoff);
  }

  /** Without a cutoff, the default of the query but not of the poller, age does not matter:
      with no limit exactly the unconfirmed anchors with a proof are selected. */
  lemma {:induction false} NoCutoffSelectsPending(rows: seq<AnchorRow>, limit: int)
    requires limit < 0
    ensures forall x :: x in SelectUnconfirmed(rows, None, limit) <==>
              x in rows && x.confirmedAt.None? && x.otsProofBlob.Some?
    decreases |rows|
  {
    if rows == [] {
    } else {
      var tail := rows[1..];
      assert rows == [rows[0]] + tail;
      NoCutoffSelectsPending(tail, if Eligible(rows[0], None) then limit - 1 else limit);
    }
  }

  /** Which anchors the query takes: unconfirmed, with a proof, and submitted at the cutoff
      or later. */
  lemma EligibleIff(row: AnchorRow, submitted: UtcTime, cutoff: Option<UtcTime>)
    requires row.submittedAt == Format(submitted)
    ensures Eligible(row, cutoff) <==>
              && row.confirmedAt.None? && row.otsProofBlob.Some?
              && (cutoff.Some? ==> Instant(cutoff.value) <= Instant(submitted))
  {
    if cutoff.Some? { TextIsChronological(submitted, cutoff.value); }
  }
}
