/** The command that re-reads every stored proof, and its agreement with the poller. */
module AnchorCheck {
  import opened Base
  import opened ProofTree
  import opened Heights
  import opened LedgerSpec
  import opened LedgerClass
  import opened AnchorTable
  import opened Poller

  datatype RowVerdict = Verified | NotConfirmed | Rejected

  /** The decision for one anchor; every exception in it is a rejection. */
  function CheckRow(codec: Codec, row: AnchorRow): RowVerdict {
    if row.confirmedAt.None? || row.otsProofBlob.None? then NotConfirmed
    else
      var head := FromHex(row.chainHeadHash);
      if head.None? then Rejected
      else
        var proof := codec.deserialise(row.otsProofBlob.value, head.value);
        if proof.None? then Rejected
        else
          var height := FirstHeight(AllPairs(proof.value));
          if height.Some? && row.bitcoinBlockHeight == height then Verified else Rejected
  }

  function CountOf(codec: Codec, rows: seq<AnchorRow>, v: RowVerdict): nat {
    if rows == [] then 0
    else CountOf(codec, rows[..|rows| - 1], v) + if CheckRow(codec, rows[|rows| - 1]) == v then 1 else 0
  }

  lemma {:induction false} CountPositive(codec: Codec, rows: seq<AnchorRow>, v: RowVerdict)
    ensures CountOf(codec, rows, v) > 0 <==> exists i | 0 <= i < |rows| :: CheckRow(codec, rows[i]) == v
  {
    if rows == [] {
    } else {
      var init := rows[..|rows| - 1];
      CountPositive(codec, init, v);
      if CountOf(codec, rows, v) > 0 && CheckRow(codec, rows[|rows| - 1]) != v {
        var i :| 0 <= i < |init| && CheckRow(codec, init[i]) == v;
        assert rows[i] == init[i];
      }
      if i :| 0 <= i < |rows| && CheckRow(codec, rows[i]) == v {
        if i < |init| { assert init[i] == rows[i]; }
      }
    }
  }

  /** The guarded part of the loop: the stored proof is read and shows the stored height. */
  method HeightMatches(codec: Codec, row: AnchorRow) returns (ok: bool)
    requires row.confirmedAt.Some? && row.otsProofBlob.Some?
    ensures ok <==> CheckRow(codec, row) == Verified
    ensures !ok <==> CheckRow(codec, row) == Rejected
  {
    var head := FromHex(row.chainHeadHash);
    if head.None? { return false; }
    var proof := codec.deserialise(row.otsProofBlob.value, head.value);
    if proof.None? { return false; }
    var height := FirstBitcoin(proof.value);
    ok := height.Some? && row.bitcoinBlockHeight.Some? && height.value == row.bitcoinBlockHeight.value;
  }

  lemma CountOne(codec: Codec, rows: seq<AnchorRow>, i: nat, v: RowVerdict)
    requires i < |rows|
    ensures CountOf(codec, rows[..i + 1], v) == CountOf(codec, rows[..i], v) + if CheckRow(codec, rows[i]) == v then 1 else 0
  {
    assert rows[..i + 1][..i] == rows[..i];
  }

  /** `_check_anchors`: the first 500 anchors are read and each is counted once, under its
      own verdict; the exit code is 1 exactly when one of them is rejected. */
  method CheckAnchors(ledger: Ledger) returns (confirmed: nat, pending: nat, failed: nat, exitCode: nat)
    ensures var rows := SelectAll(ledger.anchors, 500);
            && |rows| <= 500 && rows <= ledger.anchors
            && confirmed == CountOf(ledger.world.codec, rows, Verified)
            && pending == CountOf(ledger.world.codec, rows, NotConfirmed)
            && failed == CountOf(ledger.world.codec, rows, Rejected)
            && confirmed + pending + failed == |rows|
            && exitCode == (if exists i | 0 <= i < |rows| :: CheckRow(ledger.world.codec, rows[i]) == Rejected then 1 else 0)
  {
    var codec := ledger.world.codec;
    var rows := ledger.GetAnchors(500);
    confirmed, pending, failed := 0, 0, 0;
    for i := 0 to |rows|
      invariant confirmed == CountOf(codec, rows[..i], Verified)
      invariant pending == CountOf(codec, rows[..i], NotConfirmed)
      invariant failed == CountOf(codec, rows[..i], Rejected)
      invariant confirmed + pending + failed == i
    {
      var row := rows[i];
      CountOne(codec, rows, i, Verified);
      CountOne(codec, rows, i, NotConfirmed);
      CountOne(codec, rows, i, Rejected);
      if row.confirmedAt.Some? && row.otsProofBlob.Some? {
        var ok := HeightMatches(codec, row);
        if ok { confirmed := confirmed + 1; } else { failed := failed + 1; }
      } else {
        pending := pending + 1;
      }
    }
    assert rows[..|rows|] == rows;
    CountPositive(codec, rows, Rejected);
    exitCode := if failed > 0 then 1 else 0;
  }

  // ---- agreement with the poller ---------------------------------------------------------------

  /** The row the poller leaves behind for a confirmable anchor. */
  function PolledRow(w: World, net: Network, anchor: AnchorRow, proof: Stamp, height: int): AnchorRow {
    ConfirmedRow(anchor, ConfirmRequest(w, net, anchor.anchorId, proof, height))
  }

  /** The command accepts what the poller confirmed exactly when the proof, read back from
      its bytes, still shows the confirmed height first. */
  lemma AcceptsIffSameFirst(w: World, net: Network, anchor: AnchorRow, proof: Stamp, height: int)
    requires FromHex(anchor.chainHeadHash) == Some(proof.msg)
    requires ReadsBack(w.codec, proof)
    ensures var row := PolledRow(w, net, anchor, proof, height);
            CheckRow(w.codec, row) == Verified <==>
              FirstHeight(AllPairs(w.codec.deserialise(w.codec.serialise(proof), proof.msg).value)) == Some(height)
  {}

  /** When all heights that can come first are one height, in particular when all Bitcoin
      attestations of the proof share one, the command accepts what the poller confirmed. */
  lemma SettledIsAccepted(w: World, net: Network, anchor: AnchorRow, proof: Stamp, height: int)
    requires FromHex(anchor.chainHeadHash) == Some(proof.msg)
    requires ReadsBack(w.codec, proof)
    requires FirstHeight(AllPairs(proof)) == Some(height)
    requires Settled(proof) || forall h, k :: HasHeight(proof, h) && HasHeight(proof, k) ==> h == k
    ensures CheckRow(w.codec, PolledRow(w, net, anchor, proof, height)) == Verified
  {
    if !Settled(proof) { OneHeightSettles(proof); }
    AcceptsIffSameFirst(w, net, anchor, proof, height);
    SettledAgree(proof, w.codec.deserialise(w.codec.serialise(proof), proof.msg).value);
  }

  /** The library, reading one proof back in a given arrangement. */
  function ReadsAs(codec: Codec, proof: Stamp, r: Stamp): Codec {
    var blob := codec.serialise(proof);
    Codec(codec.serialise, (b, m) => if b == blob && m == proof.msg then Some(r) else codec.deserialise(b, m))
  }

  lemma CheckOfReading(w: World, net: Network, anchor: AnchorRow, proof: Stamp, height: int, r: Stamp)
    requires FromHex(anchor.chainHeadHash) == Some(proof.msg)
    ensures CheckRow(ReadsAs(w.codec, proof, r), PolledRow(w, net, anchor, proof, height)) == Verified <==>
              FirstHeight(AllPairs(r)) == Some(height)
  {}

  /** Poller and command are sure to agree, in whatever order the proof is read back,
      exactly when all heights that can come first are one height. */
  lemma AgreementIff(w: World, net: Network, anchor: AnchorRow, proof: Stamp, height: int)
    requires FromHex(anchor.chainHeadHash) == Some(proof.msg)
    requires WellFormed(w.apply, proof) && FirstHeight(AllPairs(proof)) == Some(height)
    ensures var row := PolledRow(w, net, anchor, proof, height);
            Settled(proof) <==>
            forall r :: WellFormed(w.apply, r) && Rearranged(proof, r) ==>
              CheckRow(ReadsAs(w.codec, proof, r), row) == Verified
  {
    FirstHeightStableIff(w.apply, proof);
    var row := PolledRow(w, net, anchor, proof, height);
    forall r ensures CheckRow(ReadsAs(w.codec, proof, r), row) == Verified <==> FirstHeight(AllPairs(r)) == Some(height) {
      CheckOfReading(w, net, anchor, proof, height, r);
    }
  }

  /** A proof confirmed in two blocks by two calendars, on two branches: the poller stores
      the height of the first branch; read back with the branches in the other order, the
      proof shows the other height, and the command rejects the row. */
  lemma TwoBlocksDisagree(w: World, net: Network, anchor: AnchorRow, a: Op, b: Op)
    requires FromHex(anchor.chainHeadHash).Some? && a != b
    ensures var msg := FromHex(anchor.chainHeadHash).value;
            var first := Branch(a, Stamp(w.apply(a, msg), [Bitcoin(850000)], []));
            var second := Branch(b, Stamp(w.apply(b, msg), [Bitcoin(850001)], []));
            var (proof, reread) := (Stamp(msg, [], [first, second]), Stamp(msg, [], [second, first]));
            && WellFormed(w.apply, proof) && WellFormed(w.apply, reread) && Rearranged(proof, reread)
            && FirstHeight(AllPairs(proof)) == Some(850000)
            && CheckRow(ReadsAs(w.codec, proof, reread), PolledRow(w, net, anchor, proof, 850000)) == Rejected
  {
    var msg := FromHex(anchor.chainHeadHash).value;
    var first := Branch(a, Stamp(w.apply(a, msg), [Bitcoin(850000)], []));
    var second := Branch(b, Stamp(w.apply(b, msg), [Bitcoin(850001)], []));
    SwappedBranches(w.apply, msg, first, second);
    var (proof, reread) := (Stamp(msg, [], [first, second]), Stamp(msg, [], [second, first]));
    TwoBranches(msg, first, second);
    TwoBranches(msg, second, first);
    CheckOfReading(w, net, anchor, proof, 850000, reread);
  }

  lemma TwoBranches(msg: Bytes, first: Branch, second: Branch)
    requires first.child.ops == [] && |first.child.atts| == 1 && first.child.atts[0].Bitcoin?
    ensures FirstHeight(AllPairs(Stamp(msg, [], [first, second]))) == Some(first.child.atts[0].height)
  {
    var own := OwnPairs(first.child.msg, first.child.atts);
    assert own[0] == Pair(first.child.msg, first.child.atts[0]);
    assert FirstHeight(own) == Some(first.child.atts[0].height);
    FirstHeightConcat(own, BranchPairs(first.child.ops));
    assert AllPairs(first.child) == own + BranchPairs(first.child.ops);
    assert FirstHeight(PairsUnder(first)) == Some(first.child.atts[0].height);
    FirstHeightConcat(PairsUnder(first), BranchPairs([first, second][1..]));
    assert FirstHeight(BranchPairs([first, second])) == Some(first.child.atts[0].height);
    FirstHeightConcat(OwnPairs(msg, []), BranchPairs([first, second]));
  }

  /** Two branches in either order are one proof. */
  lemma SwappedBranches(f: Apply, msg: Bytes, first: Branch, second: Branch)
    requires first.op != second.op && BranchFormed(f, msg, first) && BranchFormed(f, msg, second)
    ensures var (proof, reread) := (Stamp(msg, [], [first, second]), Stamp(msg, [], [second, first]));
            WellFormed(f, proof) && WellFormed(f, reread) && Rearranged(proof, reread)
  {
    PairFormed(f, msg, first, second);
    PairFormed(f, msg, second, first);
    var (bs, cs) := ([first, second], [second, first]);
    TwinRefl(first);
    TwinRefl(second);
    forall i | 0 <= i < 2 ensures HasTwin(bs[i], cs) && HasSource(bs, cs[i]) {
      assert IsTwin(bs[i], cs[1 - i]) && IsTwin(bs[1 - i], cs[i]);
    }
  }

  lemma PairFormed(f: Apply, msg: Bytes, first: Branch, second: Branch)
    requires first.op != second.op && BranchFormed(f, msg, first) && BranchFormed(f, msg, second)
    ensures WellFormed(f, Stamp(msg, [], [first, second]))
  {
    var bs := [first, second];
    assert forall i | 0 <= i < |bs| :: bs[i] == first || bs[i] == second;
  }

  /** Each verdict: pending without a confirmation or a proof, verified when the proof reads
      back for the head and shows the stored height first, rejected in every other case. */
  lemma VerdictIff(codec: Codec, row: AnchorRow)
    ensures var pending := row.confirmedAt.None? || row.otsProofBlob.None?;
            var verified := !pending && exists head, proof ::
              FromHex(row.chainHeadHash) == Some(head)
              && codec.deserialise(row.otsProofBlob.value, head) == Some(proof)
              && FirstHeight(AllPairs(proof)).Some? && row.bitcoinBlockHeight == FirstHeight(AllPairs(proof));
            && (CheckRow(codec, row) == NotConfirmed <==> pending)
            && (CheckRow(codec, row) == Verified <==> verified)
            && (CheckRow(codec, row) == Rejected <==> !pending && !verified)
  {}
}
