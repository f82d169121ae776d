/** OpenTimestamps proofs as trees: a message, the attestations made on it, and one
    branch for each operation applied to it. Sets and dicts keep the order in which
    Python iterates over them. */
module ProofTree {
  import opened Base

  datatype Op = Op(tag: nat, argument: Bytes)

  datatype Attestation =
    | Pending(uri: string)
    | Bitcoin(height: int)
    | Unknown(tag: Bytes, payload: Bytes)

  datatype Stamp = Stamp(msg: Bytes, atts: seq<Attestation>, ops: seq<Branch>)

  datatype Branch = Branch(op: Op, child: Stamp)

  datatype Pair = Pair(msg: Bytes, att: Attestation)

  /** The message an operation produces. */
  type Apply = (Op, Bytes) -> Bytes

  ghost predicate Distinct<T(!new)>(s: seq<T>) {
    forall i, j | 0 <= i < j < |s| :: s[i] != s[j]
  }

  ghost predicate DistinctOps(bs: seq<Branch>) {
    forall i, j | 0 <= i < j < |bs| :: bs[i].op != bs[j].op
  }

  /** Every child message is its operation applied to the parent's message. */
  ghost predicate WellFormed(f: Apply, ts: Stamp)
    decreases ts, 1
  {
    Distinct(ts.atts) && DistinctOps(ts.ops) && BranchesFormed(f, ts.msg, ts.ops)
  }

  ghost predicate BranchesFormed(f: Apply, msg: Bytes, bs: seq<Branch>)
    decreases bs, 0
  {
    forall i | 0 <= i < |bs| :: BranchFormed(f, msg, bs[i])
  }

  ghost predicate BranchFormed(f: Apply, msg: Bytes, b: Branch)
    decreases b, 0
  {
    b.child.msg == f(b.op, msg) && WellFormed(f, b.child)
  }

  // ---- walking the tree ----------------------------------------------------------

  function OwnPairs(msg: Bytes, atts: seq<Attestation>): seq<Pair> {
    if atts == [] then [] else [Pair(msg, atts[0])] + OwnPairs(msg, atts[1..])
  }

  /** `all_attestations()`: a node before its branches. */
  function AllPairs(ts: Stamp): seq<Pair>
    decreases ts, 1
  {
    OwnPairs(ts.msg, ts.atts) + BranchPairs(ts.ops)
  }

  function BranchPairs(bs: seq<Branch>): seq<Pair>
    decreases bs, 0
  {
    if bs == [] then [] else PairsUnder(bs[0]) + BranchPairs(bs[1..])
  }

  function PairsUnder(b: Branch): seq<Pair>
    decreases b, 0
  {
    AllPairs(b.child)
  }

  function Messages(ts: Stamp): set<Bytes>
    decreases ts, 1
  {
    {ts.msg} + BranchMessages(ts.ops)
  }

  function BranchMessages(bs: seq<Branch>): set<Bytes>
    decreases bs, 0
  {
    if bs == [] then {} else MessagesUnder(bs[0]) + BranchMessages(bs[1..])
  }

  function MessagesUnder(b: Branch): set<Bytes>
    decreases b, 0
  {
    Messages(b.child)
  }

  lemma {:induction false} InOwnPairs(msg: Bytes, atts: seq<Attestation>)
    ensures forall p :: p in OwnPairs(msg, atts) <==> p.msg == msg && p.att in atts
  {
    if atts == [] {
    } else {
      InOwnPairs(msg, atts[1..]);
      assert atts == [atts[0]] + atts[1..];
    }
  }

  lemma {:induction false} InBranchPairs(bs: seq<Branch>)
    ensures forall p :: p in BranchPairs(bs) <==> exists i | 0 <= i < |bs| :: p in AllPairs(bs[i].child)
  {
    if bs == [] {
    } else {
      var tail := bs[1..];
      InBranchPairs(tail);
      forall p ensures p in BranchPairs(bs) <==> exists i | 0 <= i < |bs| :: p in AllPairs(bs[i].child) {
        if p in BranchPairs(tail) {
          var i :| 0 <= i < |tail| && p in AllPairs(tail[i].child);
          assert bs[i + 1] == tail[i];
        }
        if i :| 0 <= i < |bs| && p in AllPairs(bs[i].child) {
          if i > 0 { assert tail[i - 1] == bs[i]; }
        }
      }
    }
  }

  // ---- merging -------------------------------------------------------------------

  /** `set.update` */
  function AddAttestations(ours: seq<Attestation>, theirs: seq<Attestation>): seq<Attestation>
    decreases |theirs|
  {
    if theirs == [] then ours
    else
      var more := if theirs[0] in ours then ours else ours + [theirs[0]];
      AddAttestations(more, theirs[1..])
  }

  function FindOp(bs: seq<Branch>, op: Op): (i: nat)
    ensures i <= |bs|
    ensures i < |bs| ==> bs[i].op == op
    ensures forall k | 0 <= k < i :: bs[k].op != op
  {
    if bs == [] then 0 else if bs[0].op == op then 0 else 1 + FindOp(bs[1..], op)
  }

  /** `Timestamp.merge`: the union of two proofs of one message. None stands for the
      ValueError raised on different messages. */
  function Merge(f: Apply, ours: Stamp, theirs: Stamp): Option<Stamp>
    decreases theirs, 1
  {
    if ours.msg != theirs.msg then None
    else
      match MergeBranches(f, ours.msg, ours.ops, theirs.ops)
      case None => None
      case Some(ops) => Some(Stamp(ours.msg, AddAttestations(ours.atts, theirs.atts), ops))
  }

  function MergeBranches(f: Apply, msg: Bytes, ours: seq<Branch>, theirs: seq<Branch>): Option<seq<Branch>>
    decreases theirs, 0
  {
    if theirs == [] then Some(ours)
    else
      match MergeBranch(f, msg, ours, theirs[0])
      case None => None
      case Some(more) => MergeBranches(f, msg, more, theirs[1..])
  }

  /** The branch of an operation is created empty when it is missing. */
  function MergeBranch(f: Apply, msg: Bytes, ours: seq<Branch>, b: Branch): Option<seq<Branch>>
    decreases b, 0
  {
    var i := FindOp(ours, b.op);
    var child := if i < |ours| then ours[i].child else Stamp(f(b.op, msg), [], []);
    match Merge(f, child, b.child)
    case None => None
    case Some(m) =>
      Some(if i < |ours| then ours[i := Branch(b.op, m)] else ours + [Branch(b.op, m)])
  }

  lemma {:induction false} AddKeeps(ours: seq<Attestation>, theirs: seq<Attestation>)
    requires Distinct(ours)
    ensures var r := AddAttestations(ours, theirs);
            Distinct(r) && forall x :: x in r <==> x in ours || x in theirs
    decreases |theirs|
  {
    if theirs == [] {
    } else {
      var more := if theirs[0] in ours then ours else ours + [theirs[0]];
      AddKeeps(more, theirs[1..]);
      assert theirs == [theirs[0]] + theirs[1..];
    }
  }

  /** On well-formed proofs of one message the merge succeeds and is the exact union. */
  lemma {:induction false} MergeIsUnion(f: Apply, ours: Stamp, theirs: Stamp)
    requires WellFormed(f, ours) && WellFormed(f, theirs) && ours.msg == theirs.msg
    ensures var r := Merge(f, ours, theirs);
            && r.Some? && WellFormed(f, r.value) && r.value.msg == ours.msg
            && (forall p :: p in AllPairs(r.value) <==> p in AllPairs(ours) || p in AllPairs(theirs))
            && Messages(ours) <= Messages(r.value)
    decreases theirs, 1
  {
    AddKeeps(ours.atts, theirs.atts);
    MergeBranchesUnion(f, ours.msg, ours.ops, theirs.ops);
    InOwnPairs(ours.msg, ours.atts);
    InOwnPairs(ours.msg, theirs.atts);
    InOwnPairs(ours.msg, AddAttestations(ours.atts, theirs.atts));
  }

  lemma {:induction false} MergeBranchesUnion(f: Apply, msg: Bytes, ours: seq<Branch>, theirs: seq<Branch>)
    requires DistinctOps(ours) && BranchesFormed(f, msg, ours) && BranchesFormed(f, msg, theirs)
    ensures var r := MergeBranches(f, msg, ours, theirs);
            && r.Some? && DistinctOps(r.value) && BranchesFormed(f, msg, r.value)
            && (forall p :: p in BranchPairs(r.value) <==> p in BranchPairs(ours) || p in BranchPairs(theirs))
            && BranchMessages(ours) <= BranchMessages(r.value)
    decreases theirs, 0
  {
    if theirs == [] {
    } else {
      MergeBranchUnion(f, msg, ours, theirs[0]);
      var more := MergeBranch(f, msg, ours, theirs[0]).value;
      assert BranchesFormed(f, msg, theirs[1..]);
      MergeBranchesUnion(f, msg, more, theirs[1..]);
    }
  }

  lemma {:induction false} MergeBranchUnion(f: Apply, msg: Bytes, ours: seq<Branch>, b: Branch)
    requires DistinctOps(ours) && BranchesFormed(f, msg, ours)
    requires BranchFormed(f, msg, b)
    ensures var r := MergeBranch(f, msg, ours, b);
            && r.Some? && DistinctOps(r.value) && BranchesFormed(f, msg, r.value)
            && (forall p :: p in BranchPairs(r.value) <==> p in BranchPairs(ours) || p in AllPairs(b.child))
            && BranchMessages(ours) <= BranchMessages(r.value)
    decreases b, 0
  {
    var i := FindOp(ours, b.op);
    if i < |ours| {
      MergeIsUnion(f, ours[i].child, b.child);
      var m := Merge(f, ours[i].child, b.child).value;
      BranchReplaced(ours, i, Branch(b.op, m));
    } else {
      var empty := Stamp(f(b.op, msg), [], []);
      MergeIsUnion(f, empty, b.child);
      var m := Merge(f, empty, b.child).value;
      assert AllPairs(empty) == [];
      BranchAppended(ours, Branch(b.op, m));
    }
  }

  /** What a branch contributes when it takes the place of another. */
  lemma {:induction false} BranchReplaced(bs: seq<Branch>, i: nat, b: Branch)
    requires i < |bs|
    requires forall p :: p in AllPairs(bs[i].child) ==> p in AllPairs(b.child)
    requires Messages(bs[i].child) <= Messages(b.child)
    ensures forall p :: p in BranchPairs(bs[i := b]) <==> p in BranchPairs(bs) || p in AllPairs(b.child)
    ensures BranchMessages(bs) <= BranchMessages(bs[i := b])
    ensures forall p :: p in AllPairs(bs[i].child) ==> p in BranchPairs(bs)
  {
    if i == 0 {
      assert bs[0 := b][1..] == bs[1..];
    } else {
      assert bs[i := b][1..] == bs[1..][i - 1 := b];
      BranchReplaced(bs[1..], i - 1, b);
    }
  }

  lemma {:induction false} BranchAppended(bs: seq<Branch>, b: Branch)
    ensures forall p :: p in BranchPairs(bs + [b]) <==> p in BranchPairs(bs) || p in AllPairs(b.child)
    ensures BranchMessages(bs) <= BranchMessages(bs + [b])
  {
    if bs == [] {
      assert bs + [b] == [b];
      assert BranchPairs([b]) == AllPairs(b.child) + BranchPairs([]);
    } else {
      assert (bs + [b])[1..] == bs[1..] + [b];
      BranchAppended(bs[1..], b);
    }
  }

  // ---- the attestations, independently of the walk ---------------------------------

  /** The attestation stands on a node of the tree with this message. */
  ghost predicate Holds(ts: Stamp, p: Pair)
    decreases ts, 1
  {
    || (p.msg == ts.msg && p.att in ts.atts)
    || exists i | 0 <= i < |ts.ops| :: HoldsUnder(ts.ops[i], p)
  }

  ghost predicate HoldsUnder(b: Branch, p: Pair)
    decreases b, 0
  {
    Holds(b.child, p)
  }

  /** The walk finds exactly the attestations of all nodes. */
  lemma {:induction false} AllPairsIff(ts: Stamp, p: Pair)
    ensures p in AllPairs(ts) <==> Holds(ts, p)
    decreases ts, 1
  {
    InOwnPairs(ts.msg, ts.atts);
    InBranchPairs(ts.ops);
    forall i | 0 <= i < |ts.ops| ensures p in AllPairs(ts.ops[i].child) <==> HoldsUnder(ts.ops[i], p) {
      UnderIff(ts.ops[i], p);
    }
  }

  lemma {:induction false} UnderIff(b: Branch, p: Pair)
    ensures p in AllPairs(b.child) <==> HoldsUnder(b, p)
    decreases b, 0
  {
    AllPairsIff(b.child, p);
  }
}
