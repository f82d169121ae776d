/** Which Bitcoin height a proof shows first, and when storing the proof and reading it
    back can change the answer. */
module Heights {
  import opened Base
  import opened ProofTree

  function FirstHeight(ps: seq<Pair>): Option<int> {
    if ps == [] then None
    else if ps[0].att.Bitcoin? then Some(ps[0].att.height)
    else FirstHeight(ps[1..])
  }

  /** `_first_bitcoin_attestation` */
  method FirstBitcoin(ts: Stamp) returns (r: Option<int>)
    ensures r == FirstHeight(AllPairs(ts))
  {
    var all := AllPairs(ts);
    for i := 0 to |all|
      invariant FirstHeight(all) == FirstHeight(all[i..])
    {
      if all[i].att.Bitcoin? { return Some(all[i].att.height); }
    }
    return None;
  }

  ghost predicate HasHeight(ts: Stamp, h: int) {
    exists m :: Pair(m, Bitcoin(h)) in AllPairs(ts)
  }

  lemma {:induction false} FirstHeightFound(ps: seq<Pair>)
    ensures FirstHeight(ps).Some? ==> exists m :: Pair(m, Bitcoin(FirstHeight(ps).value)) in ps
    ensures FirstHeight(ps).None? ==> forall m, h :: Pair(m, Bitcoin(h)) !in ps
  {
    if ps == [] {
    } else {
      if ps[0].att.Bitcoin? {
        assert Pair(ps[0].msg, Bitcoin(ps[0].att.height)) in ps;
      } else {
        FirstHeightFound(ps[1..]);
        assert ps == [ps[0]] + ps[1..];
      }
    }
  }

  lemma {:induction false} FirstHeightConcat(a: seq<Pair>, b: seq<Pair>)
    ensures FirstHeight(a + b) == if FirstHeight(a).Some? then FirstHeight(a) else FirstHeight(b)
  {
    if a == [] {
      assert a + b == b;
    } else {
      assert (a + b)[1..] == a[1..] + b;
      FirstHeightConcat(a[1..], b);
    }
  }

  // ---- storing and reading back ----------------------------------------------------

  /** The same proof up to the order of its sets and dicts. */
  ghost predicate Rearranged(a: Stamp, b: Stamp)
    decreases a, 1
  {
    && a.msg == b.msg
    && (forall x :: x in a.atts <==> x in b.atts)
    && (forall i | 0 <= i < |a.ops| :: HasTwin(a.ops[i], b.ops))
    && (forall j | 0 <= j < |b.ops| :: HasSource(a.ops, b.ops[j]))
  }

  ghost predicate HasTwin(x: Branch, bs: seq<Branch>)
    decreases x, 1
  {
    exists j | 0 <= j < |bs| :: IsTwin(x, bs[j])
  }

  ghost predicate HasSource(bs: seq<Branch>, y: Branch)
    decreases bs, 0
  {
    exists i | 0 <= i < |bs| :: IsTwin(bs[i], y)
  }

  ghost predicate IsTwin(x: Branch, y: Branch)
    decreases x, 0
  {
    x.op == y.op && Rearranged(x.child, y.child)
  }

  /** The serialisation of the OpenTimestamps library; None stands for its errors. */
  datatype Codec = Codec(serialise: Stamp -> Bytes, deserialise: (Bytes, Bytes) -> Option<Stamp>)

  /** The expectation of the library for one proof: it is read back as the same proof, its
      sets and dicts in whatever order. */
  ghost predicate ReadsBack(codec: Codec, proof: Stamp) {
    var r := codec.deserialise(codec.serialise(proof), proof.msg);
    r.Some? && Rearranged(proof, r.value)
  }

  lemma {:induction false} RearrangedPairs(a: Stamp, b: Stamp)
    requires Rearranged(a, b)
    ensures forall p :: p in AllPairs(a) <==> p in AllPairs(b)
    decreases a, 1
  {
    InOwnPairs(a.msg, a.atts);
    InOwnPairs(b.msg, b.atts);
    InBranchPairs(a.ops);
    InBranchPairs(b.ops);
    forall i, p | 0 <= i < |a.ops| && p in AllPairs(a.ops[i].child) ensures p in BranchPairs(b.ops) {
      assert HasTwin(a.ops[i], b.ops);
      var j :| 0 <= j < |b.ops| && IsTwin(a.ops[i], b.ops[j]);
      RearrangedPairs(a.ops[i].child, b.ops[j].child);
    }
    forall j, p | 0 <= j < |b.ops| && p in AllPairs(b.ops[j].child) ensures p in BranchPairs(a.ops) {
      assert HasSource(a.ops, b.ops[j]);
      var i :| 0 <= i < |a.ops| && IsTwin(a.ops[i], b.ops[j]);
      RearrangedPairs(a.ops[i].child, b.ops[j].child);
    }
  }

  lemma {:induction false} RearrangedRefl(a: Stamp)
    ensures Rearranged(a, a)
    decreases a, 1
  {
    forall i | 0 <= i < |a.ops| ensures HasTwin(a.ops[i], a.ops) && HasSource(a.ops, a.ops[i]) {
      TwinRefl(a.ops[i]);
    }
  }

  lemma {:induction false} TwinRefl(b: Branch)
    ensures IsTwin(b, b)
    decreases b, 0
  {
    RearrangedRefl(b.child);
  }

  // ---- which heights can come first --------------------------------------------------

  ghost predicate OwnBitcoin(ts: Stamp) {
    exists h :: Bitcoin(h) in ts.atts
  }

  /** Some order of iteration makes `h` the first height of the proof: the attestations
      of a node come before those below it. */
  ghost predicate Front(ts: Stamp, h: int)
    decreases ts, 1
  {
    if OwnBitcoin(ts) then Bitcoin(h) in ts.atts
    else exists i | 0 <= i < |ts.ops| :: FrontUnder(ts.ops[i], h)
  }

  ghost predicate FrontUnder(b: Branch, h: int)
    decreases b, 0
  {
    Front(b.child, h)
  }

  /** All heights that can come first are one height. */
  ghost predicate Settled(ts: Stamp) {
    forall h, k :: Front(ts, h) && Front(ts, k) ==> h == k
  }

  lemma {:induction false} FirstOfOwn(ts: Stamp)
    ensures OwnBitcoin(ts) <==> FirstHeight(OwnPairs(ts.msg, ts.atts)).Some?
    ensures OwnBitcoin(ts) ==> Bitcoin(FirstHeight(OwnPairs(ts.msg, ts.atts)).value) in ts.atts
  {
    InOwnPairs(ts.msg, ts.atts);
    FirstHeightFound(OwnPairs(ts.msg, ts.atts));
    if h :| Bitcoin(h) in ts.atts {
      assert Pair(ts.msg, Bitcoin(h)) in OwnPairs(ts.msg, ts.atts);
    }
  }

  /** The height found is one that can come first. */
  lemma {:induction false} FirstIsFront(ts: Stamp)
    ensures FirstHeight(AllPairs(ts)).Some? ==> Front(ts, FirstHeight(AllPairs(ts)).value)
    decreases ts, 1
  {
    FirstHeightConcat(OwnPairs(ts.msg, ts.atts), BranchPairs(ts.ops));
    FirstOfOwn(ts);
    if !OwnBitcoin(ts) && FirstHeight(BranchPairs(ts.ops)).Some? {
      var i := FirstInBranch(ts.ops);
      FirstIsFront(ts.ops[i].child);
      assert FrontUnder(ts.ops[i], FirstHeight(AllPairs(ts)).value);
    }
  }

  lemma {:induction false} FirstInBranch(bs: seq<Branch>) returns (i: nat)
    requires FirstHeight(BranchPairs(bs)).Some?
    ensures i < |bs| && FirstHeight(BranchPairs(bs)) == FirstHeight(AllPairs(bs[i].child))
  {
    FirstHeightConcat(PairsUnder(bs[0]), BranchPairs(bs[1..]));
    if FirstHeight(PairsUnder(bs[0])).Some? {
      i := 0;
    } else {
      i := FirstInBranch(bs[1..]);
      i := i + 1;
    }
  }

  lemma {:induction false} RearrangedFront(a: Stamp, b: Stamp, h: int)
    requires Rearranged(a, b)
    ensures Front(a, h) <==> Front(b, h)
    decreases a, 1
  {
    assert OwnBitcoin(a) <==> OwnBitcoin(b);
    if !OwnBitcoin(a) {
      forall i | 0 <= i < |a.ops| && FrontUnder(a.ops[i], h) ensures Front(b, h) {
        assert HasTwin(a.ops[i], b.ops);
        var j :| 0 <= j < |b.ops| && IsTwin(a.ops[i], b.ops[j]);
        RearrangedFront(a.ops[i].child, b.ops[j].child, h);
        assert FrontUnder(b.ops[j], h);
      }
      forall j | 0 <= j < |b.ops| && FrontUnder(b.ops[j], h) ensures Front(a, h) {
        assert HasSource(a.ops, b.ops[j]);
        var i :| 0 <= i < |a.ops| && IsTwin(a.ops[i], b.ops[j]);
        RearrangedFront(a.ops[i].child, b.ops[j].child, h);
        assert FrontUnder(a.ops[i], h);
      }
    }
  }

  /** Front heights are heights of the proof. */
  lemma {:induction false} FrontIsHeight(ts: Stamp, h: int)
    requires Front(ts, h)
    ensures HasHeight(ts, h)
    decreases ts, 1
  {
    InOwnPairs(ts.msg, ts.atts);
    if OwnBitcoin(ts) {
      assert Pair(ts.msg, Bitcoin(h)) in AllPairs(ts);
    } else {
      var i :| 0 <= i < |ts.ops| && FrontUnder(ts.ops[i], h);
      FrontIsHeight(ts.ops[i].child, h);
      var m :| Pair(m, Bitcoin(h)) in AllPairs(ts.ops[i].child);
      InBranchPairs(ts.ops);
      assert Pair(m, Bitcoin(h)) in AllPairs(ts);
    }
  }

  /** A proof whose Bitcoin attestations share one height is settled. */
  lemma OneHeightSettles(ts: Stamp)
    requires forall h, k :: HasHeight(ts, h) && HasHeight(ts, k) ==> h == k
    ensures Settled(ts)
  {
    forall h, k | Front(ts, h) && Front(ts, k) ensures h == k {
      FrontIsHeight(ts, h);
      FrontIsHeight(ts, k);
    }
  }

  /** The element at `i` moved to the front, as `x`. */
  function ToFront<T>(s: seq<T>, i: nat, x: T): seq<T>
    requires i < |s|
  {
    [x] + s[..i] + s[i + 1..]
  }

  lemma ToFrontAt<T>(s: seq<T>, i: nat, x: T, k: nat) returns (j: nat)
    requires i < |s| && k < |s|
    ensures var r := ToFront(s, i, x);
            |r| == |s| && j < |r| && r[j] == (if k == i then x else s[k]) && (j == 0 <==> k == i)
  {
    j := if k == i then 0 else if k < i then k + 1 else k;
  }

  /** Where an element of the moved sequence came from. */
  function Origin(i: nat, j: nat): nat {
    if j == 0 then i else if j <= i then j - 1 else j
  }

  lemma AttestationToFront(msg: Bytes, atts: seq<Attestation>, i: nat)
    requires i < |atts| && Distinct(atts)
    ensures var r := ToFront(atts, i, atts[i]);
            Distinct(r) && (forall x :: x in r <==> x in atts) && OwnPairs(msg, r)[..1] == [Pair(msg, atts[i])]
  {
    var r := ToFront(atts, i, atts[i]);
    forall j | 0 <= j < |r| ensures r[j] == atts[Origin(i, j)] {}
    forall x | x in atts ensures x in r {
      var k :| 0 <= k < |atts| && atts[k] == x;
      var j := ToFrontAt(atts, i, atts[i], k);
    }
  }

  lemma TwinsToFront(bs: seq<Branch>, i: nat, first: Branch)
    requires i < |bs| && IsTwin(bs[i], first)
    ensures var r := ToFront(bs, i, first);
            && (forall k | 0 <= k < |bs| :: HasTwin(bs[k], r))
            && (forall j | 0 <= j < |r| :: HasSource(bs, r[j]))
  {
    var r := ToFront(bs, i, first);
    forall k | 0 <= k < |bs| ensures HasTwin(bs[k], r) {
      var j := ToFrontAt(bs, i, first, k);
      TwinRefl(bs[k]);
      assert IsTwin(bs[k], r[j]);
    }
    forall j | 0 <= j < |r| ensures HasSource(bs, r[j]) {
      var k := Origin(i, j);
      TwinRefl(bs[k]);
      assert IsTwin(bs[k], r[j]);
    }
  }

  lemma FormedToFront(f: Apply, msg: Bytes, bs: seq<Branch>, i: nat, first: Branch)
    requires i < |bs| && DistinctOps(bs) && BranchesFormed(f, msg, bs)
    requires first.op == bs[i].op && BranchFormed(f, msg, first)
    ensures DistinctOps(ToFront(bs, i, first)) && BranchesFormed(f, msg, ToFront(bs, i, first))
  {
    var r := ToFront(bs, i, first);
    forall j | 0 <= j < |r| ensures r[j].op == bs[Origin(i, j)].op && BranchFormed(f, msg, r[j]) {
      assert BranchFormed(f, msg, bs[Origin(i, j)]);
    }
  }

  lemma BranchToFront(f: Apply, ts: Stamp, i: nat, child: Stamp)
    requires i < |ts.ops| && WellFormed(f, ts) && WellFormed(f, child) && Rearranged(ts.ops[i].child, child)
    ensures var first := Branch(ts.ops[i].op, child);
            var r := ts.(ops := ToFront(ts.ops, i, first));
            WellFormed(f, r) && Rearranged(ts, r)
  {
    var first := Branch(ts.ops[i].op, child);
    assert BranchFormed(f, ts.msg, ts.ops[i]);
    assert BranchFormed(f, ts.msg, first);
    assert IsTwin(ts.ops[i], first);
    FormedToFront(f, ts.msg, ts.ops, i, first);
    TwinsToFront(ts.ops, i, first);
  }

  /** Any front height is the first height of some arrangement of the proof. */
  lemma {:induction false} FrontCanBeFirst(f: Apply, ts: Stamp, h: int) returns (r: Stamp)
    requires WellFormed(f, ts) && Front(ts, h)
    ensures WellFormed(f, r) && Rearranged(ts, r) && FirstHeight(AllPairs(r)) == Some(h)
    decreases ts, 1
  {
    if OwnBitcoin(ts) {
      var i :| 0 <= i < |ts.atts| && ts.atts[i] == Bitcoin(h);
      r := ts.(atts := ToFront(ts.atts, i, ts.atts[i]));
      AttestationToFront(ts.msg, ts.atts, i);
      RearrangedRefl(ts);
      FirstHeightConcat(OwnPairs(r.msg, r.atts), BranchPairs(r.ops));
    } else {
      var i :| 0 <= i < |ts.ops| && FrontUnder(ts.ops[i], h);
      assert BranchFormed(f, ts.msg, ts.ops[i]);
      var child := FrontCanBeFirst(f, ts.ops[i].child, h);
      var first := Branch(ts.ops[i].op, child);
      r := ts.(ops := ToFront(ts.ops, i, first));
      BranchToFront(f, ts, i, child);
      FirstOfOwn(ts);
      FirstHeightConcat(OwnPairs(r.msg, r.atts), BranchPairs(r.ops));
      FirstHeightConcat(PairsUnder(first), BranchPairs(r.ops[1..]));
    }
  }

  /** The first height survives every rearrangement of the proof exactly when all heights
      that can come first are one height. */
  lemma FirstHeightStableIff(f: Apply, ts: Stamp)
    requires WellFormed(f, ts)
    ensures Settled(ts) <==>
            forall r :: WellFormed(f, r) && Rearranged(ts, r) ==> FirstHeight(AllPairs(r)) == FirstHeight(AllPairs(ts))
  {
    if Settled(ts) {
      forall r | WellFormed(f, r) && Rearranged(ts, r)
        ensures FirstHeight(AllPairs(r)) == FirstHeight(AllPairs(ts))
      {
        SettledAgree(ts, r);
      }
    } else {
      var h, k :| Front(ts, h) && Front(ts, k) && h != k;
      var r := FrontCanBeFirst(f, ts, h);
      var s := FrontCanBeFirst(f, ts, k);
    }
  }

  lemma SettledAgree(ts: Stamp, r: Stamp)
    requires Settled(ts) && Rearranged(ts, r)
    ensures FirstHeight(AllPairs(r)) == FirstHeight(AllPairs(ts))
  {
    var (x, y) := (FirstHeight(AllPairs(ts)), FirstHeight(AllPairs(r)));
    RearrangedPairs(ts, r);
    FirstHeightFound(AllPairs(ts));
    FirstHeightFound(AllPairs(r));
    assert x.Some? <==> y.Some?;
    if x.Some? {
      FirstIsFront(ts);
      FirstIsFront(r);
      RearrangedFront(ts, r, y.value);
    }
  }
}
