/** Upgrading one proof: the pending attestations of the tree are collected, each
    calendar is asked for its part, and the answers are merged in place. */
module Upgrade {
  import opened Base
  import opened ProofTree

  datatype PendingAt = PendingAt(commitment: Bytes, uri: string)

  /** What the calendar at a URL answers for the i-th pending attestation; None stands
      for every exception the loop absorbs. */
  type Calendar = (nat, PendingAt) -> Option<Stamp>

  // ---- collecting ----------------------------------------------------------------

  function PendingOf(ps: seq<Pair>): seq<PendingAt> {
    if ps == [] then []
    else if ps[0].att.Pending? then [PendingAt(ps[0].msg, ps[0].att.uri)] + PendingOf(ps[1..])
    else PendingOf(ps[1..])
  }

  lemma {:induction false} PendingConcat(a: seq<Pair>, b: seq<Pair>)
    ensures PendingOf(a + b) == PendingOf(a) + PendingOf(b)
  {
    if a == [] {
      assert a + b == b;
    } else {
      assert (a + b)[1..] == a[1..] + b;
      PendingConcat(a[1..], b);
    }
  }

  lemma {:induction false} InPendingOf(ps: seq<Pair>, q: PendingAt)
    ensures q in PendingOf(ps) <==> Pair(q.commitment, Pending(q.uri)) in ps
  {
    if ps == [] {
    } else {
      InPendingOf(ps[1..], q);
      assert ps == [ps[0]] + ps[1..];
    }
  }

  /** `_collect_pending`: one closure appends to the shared list on the way down. */
  method CollectPending(ts: Stamp) returns (out: seq<PendingAt>)
    ensures out == PendingOf(AllPairs(ts))
  {
    out := Walk(ts, []);
  }

  method Walk(node: Stamp, before: seq<PendingAt>) returns (out: seq<PendingAt>)
    ensures out == before + PendingOf(AllPairs(node))
  {
    out := before;
    var own := OwnPairs(node.msg, node.atts);
    for i := 0 to |node.atts|
      invariant out + PendingOf(OwnPairs(node.msg, node.atts[i..])) == before + PendingOf(own)
    {
      if node.atts[i].Pending? {
        out := out + [PendingAt(node.msg, node.atts[i].uri)];
      }
    }
    assert out == before + PendingOf(own);
    for i := 0 to |node.ops|
      invariant out + PendingOf(BranchPairs(node.ops[i..])) == before + PendingOf(own) + PendingOf(BranchPairs(node.ops))
    {
      var b := node.ops[i];
      PendingConcat(PairsUnder(b), BranchPairs(node.ops[i + 1..]));
      out := Walk(b.child, out);
    }
    PendingConcat(own, BranchPairs(node.ops));
    assert node.ops[|node.ops|..] == [];
    assert out + PendingOf(BranchPairs([])) == out;
    assert out == before + (PendingOf(own) + PendingOf(BranchPairs(node.ops)));
  }

  // ---- merging at a commitment -----------------------------------------------------

  /** NotFound is the result False; Failed stands for the ValueError of the merge. */
  datatype MergeResult = NotFound | Merged(ts: Stamp) | Failed

  /** `_merge_at_commitment`: the answer goes to the first node, in the order of the
      walk, that carries the commitment. */
  function MergeAt(f: Apply, ts: Stamp, commitment: Bytes, partial: Stamp): MergeResult
    decreases ts, 1
  {
    if ts.msg == commitment then
      var m := Merge(f, ts, partial);
      if m.None? then Failed else Merged(m.value)
    else MergeBelow(f, ts, 0, commitment, partial)
  }

  /** The branches from the i-th on. */
  function MergeBelow(f: Apply, ts: Stamp, i: nat, commitment: Bytes, partial: Stamp): MergeResult
    requires i <= |ts.ops|
    decreases ts, 0, |ts.ops| - i
  {
    if i == |ts.ops| then NotFound
    else
      var b := ts.ops[i];
      match MergeAt(f, b.child, commitment, partial)
      case NotFound => MergeBelow(f, ts, i + 1, commitment, partial)
      case Failed => Failed
      case Merged(child) => Merged(ts.(ops := ts.ops[i := Branch(b.op, child)]))
  }

  /** The merge finds its node exactly when the commitment is a message of the tree; it
      then adds the answer's attestations, loses none, and keeps the tree formed. */
  lemma {:induction false} MergeAtIsUnion(f: Apply, ts: Stamp, commitment: Bytes, partial: Stamp)
    requires WellFormed(f, ts) && WellFormed(f, partial)
    ensures MergeAt(f, ts, commitment, partial).NotFound? <==> commitment !in Messages(ts)
    ensures MergeAt(f, ts, commitment, partial).Failed? <==> commitment in Messages(ts) && partial.msg != commitment
    ensures var r := MergeAt(f, ts, commitment, partial);
            r.Merged? ==> MergedInto(f, ts, partial, r.ts)
    decreases ts, 1
  {
    if ts.msg == commitment {
      if partial.msg == commitment { MergeIsUnion(f, ts, partial); }
    } else {
      MergeBelowIsUnion(f, ts, 0, commitment, partial);
      assert ts.ops[0..] == ts.ops;
    }
  }

  /** `after` is `before` with everything the partial proof holds. */
  ghost predicate MergedInto(f: Apply, before: Stamp, partial: Stamp, after: Stamp) {
    && WellFormed(f, after) && after.msg == before.msg
    && (forall p :: p in AllPairs(after) <==> p in AllPairs(before) || p in AllPairs(partial))
    && Messages(before) <= Messages(after)
  }

  lemma {:induction false} MergeBelowIsUnion(f: Apply, ts: Stamp, i: nat, commitment: Bytes, partial: Stamp)
    requires i <= |ts.ops| && WellFormed(f, ts) && WellFormed(f, partial)
    ensures var r := MergeBelow(f, ts, i, commitment, partial);
            && (r.NotFound? <==> commitment !in BranchMessages(ts.ops[i..]))
            && (r.Failed? <==> commitment in BranchMessages(ts.ops[i..]) && partial.msg != commitment)
            && (r.Merged? ==> MergedInto(f, ts, partial, r.ts))
    decreases ts, 0, |ts.ops| - i
  {
    if i == |ts.ops| {
    } else {
      var b := ts.ops[i];
      assert BranchFormed(f, ts.msg, b);
      assert ts.ops[i..][1..] == ts.ops[i + 1..];
      MergeAtIsUnion(f, b.child, commitment, partial);
      var r := MergeAt(f, b.child, commitment, partial);
      if r.NotFound? {
        MergeBelowIsUnion(f, ts, i + 1, commitment, partial);
      } else if r.Merged? {
        BranchReplaced(ts.ops, i, Branch(b.op, r.ts));
        ChildReplaced(f, ts, i, partial, r.ts);
      }
    }
  }

  lemma ChildReplaced(f: Apply, ts: Stamp, i: nat, partial: Stamp, child: Stamp)
    requires i < |ts.ops| && WellFormed(f, ts) && MergedInto(f, ts.ops[i].child, partial, child)
    ensures MergedInto(f, ts, partial, ts.(ops := ts.ops[i := Branch(ts.ops[i].op, child)]))
  {
    var b := Branch(ts.ops[i].op, child);
    var after := ts.(ops := ts.ops[i := b]);
    BranchReplaced(ts.ops, i, b);
    assert BranchFormed(f, ts.msg, ts.ops[i]);
    forall k | 0 <= k < |after.ops| ensures BranchFormed(f, after.msg, after.ops[k]) {
      if k != i { assert BranchFormed(f, ts.msg, ts.ops[k]); }
    }
    assert DistinctOps(after.ops);
    assert BranchesFormed(f, after.msg, after.ops);
    assert WellFormed(f, after);
    assert Messages(ts) <= Messages(after);
    assert forall p :: p in AllPairs(after) <==> p in OwnPairs(ts.msg, ts.atts) || p in BranchPairs(after.ops);
    assert forall p :: p in AllPairs(ts) <==> p in OwnPairs(ts.msg, ts.atts) || p in BranchPairs(ts.ops);
  }

  /** `_merge_at_commitment` as written: the first branch that takes the answer ends the
      loop. */
  method MergeAtCommitment(f: Apply, ts: Stamp, commitment: Bytes, partial: Stamp) returns (r: MergeResult)
    ensures r == MergeAt(f, ts, commitment, partial)
  {
    if ts.msg == commitment {
      var m := Merge(f, ts, partial);
      return if m.None? then Failed else Merged(m.value);
    }
    for i := 0 to |ts.ops|
      invariant MergeAt(f, ts, commitment, partial) == MergeBelow(f, ts, i, commitment, partial)
    {
      var b := ts.ops[i];
      var below := MergeAtCommitment(f, b.child, commitment, partial);
      if below.Merged? {
        return Merged(ts.(ops := ts.ops[i := Branch(b.op, below.ts)]));
      } else if below.Failed? {
        return Failed;
      }
    }
    return NotFound;
  }

  // ---- the whole loop --------------------------------------------------------------

  /** The tree after the answers from the i-th pending attestation on; None when a merge
      raised. The result of a merge that finds no node is ignored, as in the loop. */
  function MergeAnswers(f: Apply, ts: Stamp, pending: seq<PendingAt>, calendar: Calendar, i: nat): Option<Stamp>
    requires i <= |pending|
    decreases |pending| - i
  {
    if i == |pending| then Some(ts)
    else if calendar(i, pending[i]).None? then MergeAnswers(f, ts, pending, calendar, i + 1)
    else
      match MergeAt(f, ts, pending[i].commitment, calendar(i, pending[i]).value)
      case Failed => None
      case NotFound => MergeAnswers(f, ts, pending, calendar, i + 1)
      case Merged(next) => MergeAnswers(f, next, pending, calendar, i + 1)
  }

  /** An attestation some calendar answered with, from the i-th question on. */
  ghost predicate Answered(pending: seq<PendingAt>, calendar: Calendar, i: nat, p: Pair) {
    exists k | i <= k < |pending| :: calendar(k, pending[k]).Some? && p in AllPairs(calendar(k, pending[k]).value)
  }

  /** A calendar answers with a formed proof, or not at all. */
  ghost predicate FormedAnswers(f: Apply, pending: seq<PendingAt>, calendar: Calendar) {
    forall k | 0 <= k < |pending| ::
      calendar(k, pending[k]).Some? ==> WellFormed(f, calendar(k, pending[k]).value)
  }

  /** Every answer is a proof of the commitment that was asked for. */
  ghost predicate AnswersMatch(pending: seq<PendingAt>, calendar: Calendar, i: nat) {
    forall k | i <= k < |pending| ::
      calendar(k, pending[k]).Some? ==> calendar(k, pending[k]).value.msg == pending[k].commitment
  }

  /** The loop raises exactly when an answer proves something else than it was asked for.
      Otherwise the tree ends with its own attestations and those of all answers, no more
      and no less, and no answer misses its node. */
  lemma {:induction false} MergeAnswersExact(f: Apply, ts: Stamp, pending: seq<PendingAt>, calendar: Calendar, i: nat)
    requires i <= |pending| && WellFormed(f, ts) && FormedAnswers(f, pending, calendar)
    requires forall k | i <= k < |pending| :: pending[k].commitment in Messages(ts)
    ensures var r := MergeAnswers(f, ts, pending, calendar, i);
            && (r.Some? <==> AnswersMatch(pending, calendar, i))
            && (r.Some? ==>
                  && WellFormed(f, r.value) && r.value.msg == ts.msg
                  && Messages(ts) <= Messages(r.value)
                  && forall p :: p in AllPairs(r.value) <==> p in AllPairs(ts) || Answered(pending, calendar, i, p))
    decreases |pending| - i
  {
    if i == |pending| {
    } else {
      var answer := calendar(i, pending[i]);
      if answer.None? {
        MergeAnswersExact(f, ts, pending, calendar, i + 1);
      } else {
        MergeAtIsUnion(f, ts, pending[i].commitment, answer.value);
        var m := MergeAt(f, ts, pending[i].commitment, answer.value);
        if m.Merged? { MergeAnswersExact(f, m.ts, pending, calendar, i + 1); }
      }
      AnsweredFrom(pending, calendar, i);
    }
  }

  lemma AnsweredFrom(pending: seq<PendingAt>, calendar: Calendar, i: nat)
    requires i < |pending|
    ensures forall p :: Answered(pending, calendar, i, p) <==>
              (calendar(i, pending[i]).Some? && p in AllPairs(calendar(i, pending[i]).value))
              || Answered(pending, calendar, i + 1, p)
    ensures AnswersMatch(pending, calendar, i) <==>
              (calendar(i, pending[i]).Some? ==> calendar(i, pending[i]).value.msg == pending[i].commitment)
              && AnswersMatch(pending, calendar, i + 1)
  {}

  /** Everything that is collected names a message of the tree. */
  lemma {:induction false} PairMessages(ts: Stamp)
    ensures forall p :: p in AllPairs(ts) ==> p.msg in Messages(ts)
    decreases ts, 1
  {
    InOwnPairs(ts.msg, ts.atts);
    BranchPairMessages(ts.ops);
  }

  lemma {:induction false} BranchPairMessages(bs: seq<Branch>)
    ensures forall p :: p in BranchPairs(bs) ==> p.msg in BranchMessages(bs)
    decreases bs, 0
  {
    if bs == [] {
    } else {
      PairMessagesUnder(bs[0]);
      BranchPairMessages(bs[1..]);
    }
  }

  lemma {:induction false} PairMessagesUnder(b: Branch)
    ensures forall p :: p in PairsUnder(b) ==> p.msg in MessagesUnder(b)
    decreases b, 0
  {
    PairMessages(b.child);
  }

  /** What is collected is exactly the pending attestations of the tree, and every one of
      them stands at a node the merge can find. */
  lemma CollectedIsPending(ts: Stamp)
    ensures forall q :: q in PendingOf(AllPairs(ts)) <==> Pair(q.commitment, Pending(q.uri)) in AllPairs(ts)
    ensures forall k | 0 <= k < |PendingOf(AllPairs(ts))| :: PendingOf(AllPairs(ts))[k].commitment in Messages(ts)
  {
    var pending := PendingOf(AllPairs(ts));
    forall q ensures q in pending <==> Pair(q.commitment, Pending(q.uri)) in AllPairs(ts) {
      InPendingOf(AllPairs(ts), q);
    }
    PairMessages(ts);
    forall k | 0 <= k < |pending| ensures pending[k].commitment in Messages(ts) {
      assert pending[k] in pending;
      assert Pair(pending[k].commitment, Pending(pending[k].uri)).msg in Messages(ts);
    }
  }

  /** The merge never misses: after any number of earlier answers have been merged, the
      node of a collected commitment is still found. */
  lemma MergeNeverMisses(f: Apply, ts: Stamp, calendar: Calendar, k: nat, partial: Stamp)
    requires WellFormed(f, ts) && WellFormed(f, partial)
    requires FormedAnswers(f, PendingOf(AllPairs(ts)), calendar)
    requires k < |PendingOf(AllPairs(ts))|
    ensures var pending := PendingOf(AllPairs(ts));
            var before := MergeAnswers(f, ts, pending[..k], calendar, 0);
            before.Some? ==> !MergeAt(f, before.value, pending[k].commitment, partial).NotFound?
  {
    var pending := PendingOf(AllPairs(ts));
    var before := MergeAnswers(f, ts, pending[..k], calendar, 0);
    CollectedIsPending(ts);
    MergeAnswersExact(f, ts, pending[..k], calendar, 0);
    if before.Some? {
      MergeAtIsUnion(f, before.value, pending[k].commitment, partial);
    }
  }

  /** The calendar loop of `_upgrade_one`. */
  method AskCalendars(f: Apply, ts0: Stamp, pending: seq<PendingAt>, calendar: Calendar) returns (r: Option<Stamp>)
    ensures r == MergeAnswers(f, ts0, pending, calendar, 0)
  {
    var ts := ts0;
    for i := 0 to |pending|
      invariant MergeAnswers(f, ts0, pending, calendar, 0) == MergeAnswers(f, ts, pending, calendar, i)
    {
      var answer := calendar(i, pending[i]);
      if answer.Some? {
        var m := MergeAtCommitment(f, ts, pending[i].commitment, answer.value);
        match m
        case Failed => return None;
        case NotFound =>
        case Merged(next) => ts := next;
      }
    }
    return Some(ts);
  }
}
