/** The background poller: every pending anchor is upgraded once, and confirmed when its
    proof has reached a Bitcoin block. */
module Poller {
  import opened Base
  import opened Clock
  import opened ProofTree
  import opened Upgrade
  import opened Heights
  import opened LedgerSpec
  import opened LedgerClass
  import opened AnchorTable

  /** The answers of the calendars, of the block lookup and of the clock, for each anchor. */
  datatype Network = Network(
    calendar: (int, nat, PendingAt) -> Option<Stamp>,
    blockHash: (int, int) -> Option<string>,
    clock: int -> UtcTime)

  function CalendarFor(net: Network, id: int): Calendar {
    (i: nat, p: PendingAt) => net.calendar(id, i, p)
  }

  /** What one anchor comes to: a proof with a height, none yet, or an exception. */
  datatype Attempt = Confirmable(proof: Stamp, height: int) | Waiting | Broken

  function TryUpgrade(w: World, net: Network, anchor: AnchorRow): Attempt
    requires anchor.otsProofBlob.Some?
  {
    var head := FromHex(anchor.chainHeadHash);
    if head.None? then Broken
    else
      var stored := w.codec.deserialise(anchor.otsProofBlob.value, head.value);
      if stored.None? then Broken else TryTree(w, net, anchor.anchorId, stored.value)
  }

  function TryTree(w: World, net: Network, id: int, stored: Stamp): Attempt {
    var pending := PendingOf(AllPairs(stored));
    if pending == [] then Waiting
    else
      var merged := MergeAnswers(w.apply, stored, pending, CalendarFor(net, id), 0);
      if merged.None? then Broken
      else
        var h := FirstHeight(AllPairs(merged.value));
        if h.None? then Waiting else Confirmable(merged.value, h.value)
  }

  function ConfirmRequest(w: World, net: Network, id: int, proof: Stamp, height: int): Request {
    Request.Confirm(id, w.codec.serialise(proof), height, net.blockHash(id, height), net.clock(id))
  }

  datatype Outcome = Upgraded | StillPending | Errored

  /** `_upgrade_one`; Errored stands for an exception that reaches the caller. */
  method UpgradeOne(ledger: Ledger, net: Network, anchor: AnchorRow) returns (o: Outcome)
    requires anchor.otsProofBlob.Some?
    modifies ledger`anchors
    ensures var a := TryUpgrade(ledger.world, net, anchor);
            && ledger.anchors == (if a.Confirmable?
                  then ConfirmRows(old(ledger.anchors), ConfirmRequest(ledger.world, net, anchor.anchorId, a.proof, a.height))
                  else old(ledger.anchors))
            && (o.Upgraded? <==> a.Confirmable? && FindAnchor(ledger.anchors, anchor.anchorId).Some?)
            && (o.StillPending? <==> a.Waiting?)
    ensures ReadsFormed(ledger.world.codec, ledger.world.apply) && CalendarsFormed(ledger.world.apply, net) ==>
              (o.Upgraded? <==> ReachesBlock(ledger.world, net, anchor) && FindAnchor(old(ledger.anchors), anchor.anchorId).Some?)
  {
    ghost var before := ledger.anchors;
    if ReadsFormed(ledger.world.codec, ledger.world.apply) && CalendarsFormed(ledger.world.apply, net) {
      UpgradeOutcomeIff(ledger.world, net, anchor);
    }
    var w := ledger.world;
    var head := FromHex(anchor.chainHeadHash);
    if head.None? { return Errored; }
    var stored := w.codec.deserialise(anchor.otsProofBlob.value, head.value);
    if stored.None? { return Errored; }
    var pending := CollectPending(stored.value);
    if pending == [] { return StillPending; }
    var merged := AskCalendars(w.apply, stored.value, pending, CalendarFor(net, anchor.anchorId));
    if merged.None? { return Errored; }
    var height := FirstBitcoin(merged.value);
    if height.None? { return StillPending; }
    var blob := w.codec.serialise(merged.value);
    var blockHash := net.blockHash(anchor.anchorId, height.value);
    FindAfterConfirm(ledger.anchors, ConfirmRequest(w, net, anchor.anchorId, merged.value, height.value), anchor.anchorId);
    var r := ledger.ConfirmAnchor(anchor.anchorId, blob, height.value, blockHash, net.clock(anchor.anchorId));
    o := if r.Raised? then Errored else Upgraded;
  }

  // ---- a whole run ---------------------------------------------------------------------------

  datatype Counters = Counters(attempted: nat, upgraded: nat, stillPending: nat, failed: nat)

  predicate IsPending(row: AnchorRow) {
    row.confirmedAt.None? && row.otsProofBlob.Some?
  }

  function PendingCount(rows: seq<AnchorRow>): nat {
    if rows == [] then 0 else (if IsPending(rows[0]) then 1 else 0) + PendingCount(rows[1..])
  }

  /** What a run makes of one row that it attempts. */
  function RowAfter(w: World, net: Network, row: AnchorRow): AnchorRow
    requires row.otsProofBlob.Some?
  {
    var a := TryUpgrade(w, net, row);
    if a.Confirmable? then ConfirmedRow(row, ConfirmRequest(w, net, row.anchorId, a.proof, a.height)) else row
  }

  /** How an attempt is counted. */
  function OutcomeOf(a: Attempt): Outcome {
    match a
    case Confirmable(_, _) => Upgraded
    case Waiting => StillPending
    case Broken => Errored
  }

  function CountOutcomes(w: World, net: Network, rows: seq<AnchorRow>, o: Outcome): nat
    requires forall x | x in rows :: x.otsProofBlob.Some?
  {
    if rows == [] then 0
    else
      var last := rows[|rows| - 1];
      CountOutcomes(w, net, rows[..|rows| - 1], o) + if OutcomeOf(TryUpgrade(w, net, last)) == o then 1 else 0
  }

  /** The three counters after these attempts. */
  ghost predicate Counted(w: World, net: Network, rows: seq<AnchorRow>, upgraded: nat, stillPending: nat, failed: nat) {
    && (forall x | x in rows :: x.otsProofBlob.Some?)
    && upgraded == CountOutcomes(w, net, rows, Upgraded)
    && stillPending == CountOutcomes(w, net, rows, StillPending)
    && failed == CountOutcomes(w, net, rows, Errored)
    && upgraded + stillPending + failed == |rows|
  }

  lemma CountOne(w: World, net: Network, rows: seq<AnchorRow>, row: AnchorRow, upgraded: nat, stillPending: nat, failed: nat)
    requires Counted(w, net, rows, upgraded, stillPending, failed) && row.otsProofBlob.Some?
    ensures var o := OutcomeOf(TryUpgrade(w, net, row));
            Counted(w, net, rows + [row], if o.Upgraded? then upgraded + 1 else upgraded,
                    if o.StillPending? then stillPending + 1 else stillPending, if o.Errored? then failed + 1 else failed)
  {
    assert (rows + [row])[..|rows|] == rows;
  }

  /** The table after the first `i` of the attempted anchors. */
  ghost predicate AfterAttempts(w: World, net: Network, before: seq<AnchorRow>, attempted: seq<AnchorRow>, after: seq<AnchorRow>)
    requires forall x | x in attempted :: x.otsProofBlob.Some?
  {
    && |after| == |before|
    && forall k | 0 <= k < |before| ::
         after[k] == if before[k] in attempted then RowAfter(w, net, before[k]) else before[k]
  }

  lemma {:induction false} CountSame(a: seq<AnchorRow>, b: seq<AnchorRow>)
    requires |a| == |b| && forall k | 0 <= k < |a| :: IsPending(a[k]) <==> IsPending(b[k])
    ensures PendingCount(a) == PendingCount(b)
  {
    if a == [] {
    } else {
      CountSame(a[1..], b[1..]);
    }
  }

  lemma {:induction false} CountDrops(a: seq<AnchorRow>, b: seq<AnchorRow>, k: nat)
    requires |a| == |b| && k < |a| && IsPending(a[k]) && !IsPending(b[k])
    requires forall j | 0 <= j < |a| && j != k :: IsPending(a[j]) <==> IsPending(b[j])
    ensures PendingCount(b) + 1 == PendingCount(a)
  {
    if k == 0 {
      CountSame(a[1..], b[1..]);
    } else {
      CountDrops(a[1..], b[1..], k - 1);
    }
  }

  /** The table after one more attempt. */
  function NextTable(w: World, net: Network, now: seq<AnchorRow>, anchor: AnchorRow): (next: seq<AnchorRow>)
    requires anchor.otsProofBlob.Some?
    ensures |next| == |now|
  {
    var a := TryUpgrade(w, net, anchor);
    if a.Confirmable? then ConfirmRows(now, ConfirmRequest(w, net, anchor.anchorId, a.proof, a.height)) else now
  }

  /** Only the row of the attempted anchor can change. */
  lemma OneRowChanges(w: World, net: Network, now: seq<AnchorRow>, anchor: AnchorRow, k: nat)
    requires AnchorIdsAscending(now) && k < |now| && now[k] == anchor && anchor.otsProofBlob.Some?
    ensures var next := NextTable(w, net, now, anchor);
            next[k] == RowAfter(w, net, anchor) && forall j | 0 <= j < |now| && j != k :: next[j] == now[j]
  {
    forall j | 0 <= j < |now| && j != k ensures now[j].anchorId != anchor.anchorId {
      if j < k { assert now[j].anchorId < now[k].anchorId; } else { assert now[k].anchorId < now[j].anchorId; }
    }
  }

  lemma IdsStay(w: World, net: Network, before: seq<AnchorRow>, attempted: seq<AnchorRow>, now: seq<AnchorRow>)
    requires forall x | x in attempted :: x.otsProofBlob.Some?
    requires AnchorIdsAscending(before) && AfterAttempts(w, net, before, attempted, now)
    ensures AnchorIdsAscending(now)
  {
    forall k | 0 <= k < |now| ensures now[k].anchorId == before[k].anchorId {}
  }

  /** One attempt on a table in which the anchor is still as it was listed. */
  lemma AttemptStep(w: World, net: Network, before: seq<AnchorRow>, attempted: seq<AnchorRow>, now: seq<AnchorRow>, anchor: AnchorRow)
    requires AnchorIdsAscending(before) && forall x | x in attempted + [anchor] :: x.otsProofBlob.Some?
    requires AfterAttempts(w, net, before, attempted, now)
    requires anchor in before && anchor !in attempted && IsPending(anchor)
    ensures var next := NextTable(w, net, now, anchor);
            && AfterAttempts(w, net, before, attempted + [anchor], next)
            && FindAnchor(next, anchor.anchorId).Some?
            && PendingCount(next) + (if TryUpgrade(w, net, anchor).Confirmable? then 1 else 0) == PendingCount(now)
  {
    var next := NextTable(w, net, now, anchor);
    var k :| 0 <= k < |before| && before[k] == anchor;
    assert now[k] == anchor;
    IdsStay(w, net, before, attempted, now);
    OneRowChanges(w, net, now, anchor, k);
    forall j | 0 <= j < |before| && j != k ensures before[j] != anchor {
      if j < k { assert before[j].anchorId < before[k].anchorId; } else { assert before[k].anchorId < before[j].anchorId; }
    }
    FindsAnchor(next, k, anchor.anchorId);
    if TryUpgrade(w, net, anchor).Confirmable? { CountDrops(now, next, k); }
  }

  lemma {:induction false} FindsAnchor(rows: seq<AnchorRow>, k: nat, id: int)
    requires k < |rows| && rows[k].anchorId == id
    ensures FindAnchor(rows, id).Some?
  {
    if k == 0 || rows[0].anchorId == id {
    } else {
      FindsAnchor(rows[1..], k - 1, id);
    }
  }

  /** Where a run stands after some attempts: the table, the counters and the number of
      pending proofs. */
  ghost predicate Progress(w: World, net: Network, before: seq<AnchorRow>, attempted: seq<AnchorRow>, now: seq<AnchorRow>,
                           upgraded: nat, stillPending: nat, failed: nat)
  {
    && Counted(w, net, attempted, upgraded, stillPending, failed)
    && AfterAttempts(w, net, before, attempted, now)
    && PendingCount(now) + upgraded == PendingCount(before)
  }

  lemma ProgressStep(w: World, net: Network, before: seq<AnchorRow>, attempted: seq<AnchorRow>, now: seq<AnchorRow>, anchor: AnchorRow,
                     upgraded: nat, stillPending: nat, failed: nat)
    requires Progress(w, net, before, attempted, now, upgraded, stillPending, failed)
    requires AnchorIdsAscending(before) && anchor in before && anchor !in attempted && IsPending(anchor)
    ensures var (next, o) := (NextTable(w, net, now, anchor), OutcomeOf(TryUpgrade(w, net, anchor)));
            && FindAnchor(next, anchor.anchorId).Some?
            && Progress(w, net, before, attempted + [anchor], next, if o.Upgraded? then upgraded + 1 else upgraded,
                        if o.StillPending? then stillPending + 1 else stillPending, if o.Errored? then failed + 1 else failed)
  {
    AttemptStep(w, net, before, attempted, now, anchor);
    CountOne(w, net, attempted, anchor, upgraded, stillPending, failed);
  }

  /** `upgrade_pending_anchors`: at most 500 eligible anchors, those with the lowest ids,
      are attempted; every attempt is counted once, under its own outcome; the table ends
      with exactly the confirmable ones confirmed, and the number of pending proofs has
      fallen by the number upgraded. */
  method UpgradePendingAnchors(ledger: Ledger, net: Network, cutoff: Option<UtcTime>) returns (n: Counters)
    requires AnchorIdsAscending(ledger.anchors)
    modifies ledger`anchors
    ensures var attempted := SelectUnconfirmed(old(ledger.anchors), cutoff, 500);
            && n.attempted == |attempted| <= 500
            && n.attempted == n.upgraded + n.stillPending + n.failed
            && (forall x | x in attempted :: x.otsProofBlob.Some?)
            && AfterAttempts(ledger.world, net, old(ledger.anchors), attempted, ledger.anchors)
            && n.upgraded == CountOutcomes(ledger.world, net, attempted, Upgraded)
            && n.stillPending == CountOutcomes(ledger.world, net, attempted, StillPending)
            && n.failed == CountOutcomes(ledger.world, net, attempted, Errored)
            && PendingCount(ledger.anchors) + n.upgraded == PendingCount(old(ledger.anchors))
  {
    var w := ledger.world;
    ghost var before := ledger.anchors;
    var pending := ledger.ListUnconfirmedAnchors(cutoff, 500);
    var upgraded, stillPending, failed := 0, 0, 0;
    for i := 0 to |pending|
      invariant Progress(w, net, before, pending[..i], ledger.anchors, upgraded, stillPending, failed)
    {
      var anchor := pending[i];
      assert anchor in pending && anchor !in pending[..i];
      assert pending[..i + 1] == pending[..i] + [anchor];
      ProgressStep(w, net, before, pending[..i], ledger.anchors, anchor, upgraded, stillPending, failed);
      var outcome := UpgradeOne(ledger, net, anchor);
      match outcome
      case Upgraded => upgraded := upgraded + 1;
      case StillPending => stillPending := stillPending + 1;
      case Errored => failed := failed + 1;
    }
    assert pending[..|pending|] == pending;
    n := Counters(|pending|, upgraded, stillPending, failed);
  }

  /** No run turns a confirmed anchor back into a pending one. */
  lemma ConfirmedStays(w: World, net: Network, before: seq<AnchorRow>, attempted: seq<AnchorRow>, after: seq<AnchorRow>, k: nat)
    requires forall x | x in attempted :: x.otsProofBlob.Some?
    requires AfterAttempts(w, net, before, attempted, after)
    requires k < |before| && before[k].confirmedAt.Some?
    ensures after[k].confirmedAt.Some?
  {}

  lemma {:induction false} FindAfterConfirm(rows: seq<AnchorRow>, req: Request, id: int)
    requires req.Confirm?
    ensures FindAnchor(ConfirmRows(rows, req), id).Some? <==> FindAnchor(rows, id).Some?
  {
    if rows == [] {
    } else {
      assert ConfirmRows(rows, req)[1..] == ConfirmRows(rows[1..], req);
      FindAfterConfirm(rows[1..], req, id);
    }
  }

  // ---- the upgraded proof ----------------------------------------------------------------------

  /** The assumption on reading: whatever bytes are read, the result is a formed proof of
      the message it was read for. */
  ghost predicate ReadsFormed(codec: Codec, f: Apply) {
    forall blob, msg {:trigger codec.deserialise(blob, msg)} ::
      codec.deserialise(blob, msg).Some? ==>
        WellFormed(f, codec.deserialise(blob, msg).value) && codec.deserialise(blob, msg).value.msg == msg
  }

  ghost predicate CalendarsFormed(f: Apply, net: Network) {
    forall id, i, p {:trigger net.calendar(id, i, p)} ::
      net.calendar(id, i, p).Some? ==> WellFormed(f, net.calendar(id, i, p).value)
  }

  lemma TreeUpgradeIsExact(w: World, net: Network, id: int, stored: Stamp)
    requires WellFormed(w.apply, stored) && CalendarsFormed(w.apply, net)
    ensures var pending := PendingOf(AllPairs(stored));
            var calendar := CalendarFor(net, id);
            var a := TryTree(w, net, id, stored);
            && (a.Broken? <==> !AnswersMatch(pending, calendar, 0))
            && (a.Confirmable? ==>
                  && WellFormed(w.apply, a.proof) && a.proof.msg == stored.msg
                  && (forall p :: p in AllPairs(a.proof) <==> p in AllPairs(stored) || Answered(pending, calendar, 0, p))
                  && FirstHeight(AllPairs(a.proof)) == Some(a.height) && HasHeight(a.proof, a.height))
  {
    var pending := PendingOf(AllPairs(stored));
    CollectedIsPending(stored);
    AnswersFormed(w.apply, net, id, pending);
    MergeAnswersExact(w.apply, stored, pending, CalendarFor(net, id), 0);
    var a := TryTree(w, net, id, stored);
    if a.Confirmable? { FirstHeightFound(AllPairs(a.proof)); }
  }

  lemma AnswersFormed(f: Apply, net: Network, id: int, pending: seq<PendingAt>)
    requires CalendarsFormed(f, net)
    ensures FormedAnswers(f, pending, CalendarFor(net, id))
  {}

  /** A confirmable anchor's proof is the stored proof with exactly the attestations of the
      answers added; it proves the same head, and the height reported is one of its Bitcoin
      attestations. An answer for another commitment breaks the attempt, and nothing else
      in the loop does. */
  lemma UpgradeIsExact(w: World, net: Network, anchor: AnchorRow)
    requires anchor.otsProofBlob.Some? && ReadsFormed(w.codec, w.apply) && CalendarsFormed(w.apply, net)
    requires FromHex(anchor.chainHeadHash).Some?
    requires w.codec.deserialise(anchor.otsProofBlob.value, FromHex(anchor.chainHeadHash).value).Some?
    ensures var stored := w.codec.deserialise(anchor.otsProofBlob.value, FromHex(anchor.chainHeadHash).value).value;
            var pending := PendingOf(AllPairs(stored));
            var calendar := CalendarFor(net, anchor.anchorId);
            var a := TryUpgrade(w, net, anchor);
            && (a.Broken? <==> !AnswersMatch(pending, calendar, 0))
            && (a.Confirmable? ==>
                  && WellFormed(w.apply, a.proof) && a.proof.msg == FromHex(anchor.chainHeadHash).value
                  && (forall p :: p in AllPairs(a.proof) <==> p in AllPairs(stored) || Answered(pending, calendar, 0, p))
                  && FirstHeight(AllPairs(a.proof)) == Some(a.height) && HasHeight(a.proof, a.height))
  {
    var stored := w.codec.deserialise(anchor.otsProofBlob.value, FromHex(anchor.chainHeadHash).value).value;
    TreeUpgradeIsExact(w, net, anchor.anchorId, stored);
  }

  // ---- when there is one -----------------------------------------------------------------------

  /** A Bitcoin attestation stands in the stored proof or in an answer. */
  ghost predicate BlockShown(stored: Stamp, calendar: Calendar) {
    exists m, h :: Pair(m, Bitcoin(h)) in AllPairs(stored)
      || Answered(PendingOf(AllPairs(stored)), calendar, 0, Pair(m, Bitcoin(h)))
  }

  /** The stored proof still waits for a calendar. */
  ghost predicate HasPending(stored: Stamp) {
    exists m, uri :: Pair(m, Pending(uri)) in AllPairs(stored)
  }

  lemma HasPendingIff(stored: Stamp)
    ensures HasPending(stored) <==> PendingOf(AllPairs(stored)) != []
  {
    var pending := PendingOf(AllPairs(stored));
    if pending != [] {
      InPendingOf(AllPairs(stored), pending[0]);
      assert Pair(pending[0].commitment, Pending(pending[0].uri)) in AllPairs(stored);
    }
    if m, uri :| Pair(m, Pending(uri)) in AllPairs(stored) {
      InPendingOf(AllPairs(stored), PendingAt(m, uri));
    }
  }

  /** What an attempt on a formed proof comes to, in all cases. */
  lemma TreeOutcomeIff(w: World, net: Network, id: int, stored: Stamp)
    requires WellFormed(w.apply, stored) && CalendarsFormed(w.apply, net)
    ensures var (a, calendar) := (TryTree(w, net, id, stored), CalendarFor(net, id));
            var matched := AnswersMatch(PendingOf(AllPairs(stored)), calendar, 0);
            && (a.Confirmable? <==> HasPending(stored) && matched && BlockShown(stored, calendar))
            && (a.Waiting? <==> matched && !(HasPending(stored) && BlockShown(stored, calendar)))
            && (a.Broken? <==> !matched)
  {
    var (pending, calendar) := (PendingOf(AllPairs(stored)), CalendarFor(net, id));
    HasPendingIff(stored);
    CollectedIsPending(stored);
    AnswersFormed(w.apply, net, id, pending);
    MergeAnswersExact(w.apply, stored, pending, calendar, 0);
    var merged := MergeAnswers(w.apply, stored, pending, calendar, 0);
    if merged.Some? { ShownIff(stored, calendar, merged.value); }
  }

  lemma ShownIff(stored: Stamp, calendar: Calendar, merged: Stamp)
    requires forall p :: p in AllPairs(merged) <==>
               p in AllPairs(stored) || Answered(PendingOf(AllPairs(stored)), calendar, 0, p)
    ensures FirstHeight(AllPairs(merged)).Some? <==> BlockShown(stored, calendar)
  {
    FirstHeightFound(AllPairs(merged));
    if FirstHeight(AllPairs(merged)).Some? {
      var m :| Pair(m, Bitcoin(FirstHeight(AllPairs(merged)).value)) in AllPairs(merged);
    }
  }

  /** The anchor's proof can be read, waits for a calendar, gets no answer for another
      commitment, and shows a Bitcoin attestation, of its own or of an answer. */
  ghost predicate ReachesBlock(w: World, net: Network, anchor: AnchorRow)
    requires anchor.otsProofBlob.Some?
  {
    var head := FromHex(anchor.chainHeadHash);
    head.Some? &&
    var stored := w.codec.deserialise(anchor.otsProofBlob.value, head.value);
    var calendar := CalendarFor(net, anchor.anchorId);
    stored.Some? && HasPending(stored.value) && BlockShown(stored.value, calendar)
      && AnswersMatch(PendingOf(AllPairs(stored.value)), calendar, 0)
  }

  /** An exception: an unreadable proof, or an answer for another commitment. */
  ghost predicate Breaks(w: World, net: Network, anchor: AnchorRow)
    requires anchor.otsProofBlob.Some?
  {
    var head := FromHex(anchor.chainHeadHash);
    head.Some? ==>
      var stored := w.codec.deserialise(anchor.otsProofBlob.value, head.value);
      stored.Some? ==> !AnswersMatch(PendingOf(AllPairs(stored.value)), CalendarFor(net, anchor.anchorId), 0)
  }

  /** What an attempt on an anchor comes to, in all cases. */
  lemma UpgradeOutcomeIff(w: World, net: Network, anchor: AnchorRow)
    requires anchor.otsProofBlob.Some? && ReadsFormed(w.codec, w.apply) && CalendarsFormed(w.apply, net)
    ensures TryUpgrade(w, net, anchor).Confirmable? <==> ReachesBlock(w, net, anchor)
    ensures TryUpgrade(w, net, anchor).Broken? <==> Breaks(w, net, anchor)
  {
    var head := FromHex(anchor.chainHeadHash);
    if head.Some? {
      var stored := w.codec.deserialise(anchor.otsProofBlob.value, head.value);
      if stored.Some? { TreeOutcomeIff(w, net, anchor.anchorId, stored.value); }
    }
  }

  /** What the poller writes into the row of a confirmable anchor. */
  lemma ConfirmedByPoller(w: World, net: Network, anchor: AnchorRow)
    requires anchor.otsProofBlob.Some? && TryUpgrade(w, net, anchor).Confirmable?
    ensures var (row, a) := (RowAfter(w, net, anchor), TryUpgrade(w, net, anchor));
            && row.otsProofBlob == Some(w.codec.serialise(a.proof)) && row.bitcoinBlockHeight == Some(a.height)
            && row.bitcoinBlockHash == net.blockHash(anchor.anchorId, a.height)
            && row.confirmedAt.Some? && Parse(row.confirmedAt.value) == Some(net.clock(anchor.anchorId))
            && row.(otsProofBlob := None, bitcoinBlockHeight := None, bitcoinBlockHash := None, confirmedAt := None)
                 == anchor.(otsProofBlob := None, bitcoinBlockHeight := None, bitcoinBlockHash := None, confirmedAt := None)
  {
    ParseFormat(net.clock(anchor.anchorId));
  }
}
