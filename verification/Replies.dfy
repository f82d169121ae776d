/** The replies of the calls: every call answers as in the serial run of the calls that have
    written, except that two of them read their row again after releasing the lock. */
module Replies {
  import opened Base
  import opened Clock
  import opened ChainCheck
  import opened WitnessChain
  import opened LedgerSpec
  import opened LedgerInv
  import opened LedgerRuns
  import opened Concurrency
  import opened Scheduling

  /** The tables after the first `i` calls that have written. */
  function TablesAt(w: World, db0: Db, s: Sys, i: nat): Db
    requires i <= |s.calls| && forall k | 0 <= k < |s.calls| :: s.calls[k] < |s.tasks|
  {
    ExecAll(w, db0, Requests(s.tasks, s.calls[..i]))
  }

  /** A section that was run on the tables after `i` calls: as the next of the calls that
      have written, or without a write. */
  ghost predicate Answered(w: World, db0: Db, s: Sys, t: nat, i: nat, reply: Reply)
    requires t < |s.tasks| && CallsOk(s)
  {
    && i <= |s.calls| && Checked(s.tasks[t].req).None?
    && Drive(w, TablesAt(w, db0, s, i), s.tasks[t].req, Entered).1 == reply
    && (if t in s.calls then i < |s.calls| && s.calls[i] == t
        else Drive(w, TablesAt(w, db0, s, i), s.tasks[t].req, Entered).0 == TablesAt(w, db0, s, i))
  }

  /** The call returned after a second read, of the tables after `j` calls. */
  ghost predicate Returned(w: World, db0: Db, s: Sys, t: nat, i: nat, j: nat, section: Reply, reply: Reply)
    requires t < |s.tasks| && CallsOk(s)
  {
    && Answered(w, db0, s, t, i, section)
    && i <= j <= |s.calls| && (t in s.calls ==> i < j)
    && reply == ReadBack(TablesAt(w, db0, s, j), s.tasks[t].req, section)
  }

  ghost predicate ReplyOk(w: World, db0: Db, s: Sys, t: nat)
    requires t < |s.tasks| && CallsOk(s)
  {
    match s.tasks[t].phase
    case Started => true
    case Holding(_) => true
    case Written(r) => exists i :: Answered(w, db0, s, t, i, r)
    case Leaving(r) => exists i :: Answered(w, db0, s, t, i, r)
    case Released(r) => exists i :: Answered(w, db0, s, t, i, r)
    case Finished(r) =>
      if Checked(s.tasks[t].req).Some? then r == Raised(Checked(s.tasks[t].req).value)
      else exists i, j, section :: Returned(w, db0, s, t, i, j, section, r)
  }

  ghost predicate RepliesOk(w: World, db0: Db, s: Sys)
    requires CallsOk(s)
  {
    forall t | 0 <= t < |s.tasks| :: ReplyOk(w, db0, s, t)
  }

  // ---- what later steps leave alone ------------------------------------------------------------

  /** Calls are only added, and requests never change. */
  ghost predicate Grows(s: Sys, after: Sys) {
    && CallsOk(s) && CallsOk(after) && s.calls <= after.calls && |s.tasks| <= |after.tasks|
    && forall u | 0 <= u < |s.tasks| :: after.tasks[u].req == s.tasks[u].req
  }

  lemma TablesStay(w: World, db0: Db, s: Sys, after: Sys, i: nat)
    requires Grows(s, after) && i <= |s.calls|
    ensures TablesAt(w, db0, after, i) == TablesAt(w, db0, s, i)
  {
    assert after.calls[..i] == s.calls[..i];
    forall k | 0 <= k < i ensures after.tasks[s.calls[k]].req == s.tasks[s.calls[k]].req {}
    assert Requests(after.tasks, s.calls[..i]) == Requests(s.tasks, s.calls[..i]);
  }

  lemma AnsweredStays(w: World, db0: Db, s: Sys, after: Sys, u: nat, i: nat, r: Reply)
    requires Grows(s, after) && u < |s.tasks| && (u in after.calls <==> u in s.calls)
    requires Answered(w, db0, s, u, i, r)
    ensures Answered(w, db0, after, u, i, r)
  {
    TablesStay(w, db0, s, after, i);
  }

  lemma ReturnedStays(w: World, db0: Db, s: Sys, after: Sys, u: nat, i: nat, j: nat, section: Reply, r: Reply)
    requires Grows(s, after) && u < |s.tasks| && (u in after.calls <==> u in s.calls)
    requires Returned(w, db0, s, u, i, j, section, r)
    ensures Returned(w, db0, after, u, i, j, section, r)
  {
    AnsweredStays(w, db0, s, after, u, i, section);
    TablesStay(w, db0, s, after, j);
  }

  /** A task that does not move keeps its reply in order. */
  lemma ReplyStays(w: World, db0: Db, s: Sys, after: Sys, u: nat)
    requires Grows(s, after) && u < |s.tasks| && after.tasks[u] == s.tasks[u] && (u in after.calls <==> u in s.calls)
    requires ReplyOk(w, db0, s, u)
    ensures ReplyOk(w, db0, after, u)
  {
    match s.tasks[u].phase
    case Started =>
    case Holding(_) =>
    case Written(r) =>
      var i :| Answered(w, db0, s, u, i, r);
      AnsweredStays(w, db0, s, after, u, i, r);
    case Leaving(r) =>
      var i :| Answered(w, db0, s, u, i, r);
      AnsweredStays(w, db0, s, after, u, i, r);
    case Released(r) =>
      var i :| Answered(w, db0, s, u, i, r);
      AnsweredStays(w, db0, s, after, u, i, r);
    case Finished(r) =>
      if Checked(s.tasks[u].req).None? {
        var i, j, section :| Returned(w, db0, s, u, i, j, section, r);
        ReturnedStays(w, db0, s, after, u, i, j, section, r);
      }
  }

  // ---- the step of the task itself -------------------------------------------------------------

  lemma TablesNow(w: World, db0: Db, s: Sys)
    requires SysInv(w, db0, s)
    ensures TablesAt(w, db0, s, |s.calls|) == s.db
  {
    assert s.calls[..|s.calls|] == s.calls;
  }

  /** A stretch that writes or leaves hands over the reply of the whole section on the
      current tables. */
  lemma SectionEnds(w: World, db0: Db, s: Sys, t: nat, l: Local)
    requires SysInv(w, db0, s) && t < |s.tasks| && s.tasks[t].phase == Holding(l)
    ensures Fits(s.tasks[t].req, l) && Checked(s.tasks[t].req).None?
    ensures var (r, whole) := (Advance(w, s.db, s.tasks[t].req, l), Drive(w, s.db, s.tasks[t].req, Entered));
            && (r.Write? ==> r.db == whole.0 && r.reply == whole.1)
            && (r.Leave? ==> s.db == whole.0 && r.reply == whole.1)
  {
    assert LocalsOk(w, s.db, s.tasks[t]);
  }

  lemma NotYetWritten(s: Sys, t: nat)
    requires CallsOk(s) && t < |s.tasks| && !HasWritten(s.tasks[t].phase)
    ensures t !in s.calls
  {}

  lemma HoldingReply(w: World, db0: Db, s: Sys, t: nat, l: Local)
    requires SysInv(w, db0, s) && t < |s.tasks| && s.tasks[t].phase == Holding(l)
    requires Fits(s.tasks[t].req, l) && Checked(s.tasks[t].req).None?
    ensures var after := RunSection(w, s, t, l);
            Grows(s, after) ==> ReplyOk(w, db0, after, t)
  {
    var after := RunSection(w, s, t, l);
    if Grows(s, after) {
      SectionEnds(w, db0, s, t, l);
      NotYetWritten(s, t);
      TablesNow(w, db0, s);
      TablesStay(w, db0, s, after, |s.calls|);
      match Advance(w, s.db, s.tasks[t].req, l)
      case Continue(_) =>
      case Leave(reply) => assert Answered(w, db0, after, t, |s.calls|, reply);
      case Write(_, reply) => assert Answered(w, db0, after, t, |s.calls|, reply);
    }
  }

  lemma ReleasedReply(w: World, db0: Db, s: Sys, t: nat, section: Reply, after: Sys)
    requires SysInv(w, db0, s) && t < |s.tasks| && s.tasks[t].phase == Released(section) && ReplyOk(w, db0, s, t)
    requires after == SetPhase(s, t, Finished(ReadBack(s.db, s.tasks[t].req, section))) && Grows(s, after)
    ensures ReplyOk(w, db0, after, t)
  {
    var i :| Answered(w, db0, s, t, i, section);
    AnsweredStays(w, db0, s, after, t, i, section);
    TablesNow(w, db0, s);
    TablesStay(w, db0, s, after, |s.calls|);
    assert Returned(w, db0, after, t, i, |s.calls|, section, ReadBack(s.db, s.tasks[t].req, section));
  }

  lemma PassedOn(w: World, db0: Db, s: Sys, t: nat, r: Reply, after: Sys)
    requires CallsOk(s) && t < |s.tasks| && Grows(s, after) && after.calls == s.calls
    requires s.tasks[t].phase == Written(r) || s.tasks[t].phase == Leaving(r)
    requires after.tasks[t].phase == Leaving(r) || after.tasks[t].phase == Released(r)
    requires ReplyOk(w, db0, s, t)
    ensures ReplyOk(w, db0, after, t)
  {
    var i :| Answered(w, db0, s, t, i, r);
    AnsweredStays(w, db0, s, after, t, i, r);
  }

  lemma OwnReply(w: World, db0: Db, s: Sys, t: nat)
    requires SysInv(w, db0, s) && t < |s.tasks| && ReplyOk(w, db0, s, t) && Grows(s, RunTask(w, s, t))
    ensures ReplyOk(w, db0, RunTask(w, s, t), t)
  {
    var after := RunTask(w, s, t);
    match s.tasks[t].phase
    case Started =>
    case Holding(l) =>
      assert LocalsOk(w, s.db, s.tasks[t]);
      HoldingReply(w, db0, s, t, l);
    case Written(r) => PassedOn(w, db0, s, t, r, after);
    case Leaving(r) => PassedOn(w, db0, s, t, r, after);
    case Released(section) => ReleasedReply(w, db0, s, t, section, after);
    case Finished(_) =>
  }

  /** A step moves one task, or adds one, and adds at most that task to the calls. */
  lemma RunShape(w: World, s: Sys, t: nat)
    requires t < |s.tasks|
    ensures var after := RunTask(w, s, t);
            && |after.tasks| == |s.tasks| && after.tasks[t].req == s.tasks[t].req
            && (forall u | 0 <= u < |s.tasks| && u != t :: after.tasks[u] == s.tasks[u])
            && (after.calls == s.calls || after.calls == s.calls + [t])
  {}

  lemma RunGrows(w: World, s: Sys, t: nat)
    requires t < |s.tasks| && CallsOk(s) && CallsOk(RunTask(w, s, t))
    ensures Grows(s, RunTask(w, s, t))
    ensures forall u | 0 <= u < |s.tasks| && u != t ::
              RunTask(w, s, t).tasks[u] == s.tasks[u] && (u in RunTask(w, s, t).calls <==> u in s.calls)
  {
    RunShape(w, s, t);
  }

  lemma RunReplies(w: World, db0: Db, s: Sys, t: nat)
    requires t < |s.tasks| && SysInv(w, db0, s) && SysInv(w, db0, RunTask(w, s, t)) && RepliesOk(w, db0, s)
    ensures RepliesOk(w, db0, RunTask(w, s, t))
  {
    var after := RunTask(w, s, t);
    RunShape(w, s, t);
    RunGrows(w, s, t);
    OwnReply(w, db0, s, t);
    forall u | 0 <= u < |after.tasks| ensures ReplyOk(w, db0, after, u) {
      if u != t { ReplyStays(w, db0, s, after, u); }
    }
  }

  lemma SpawnReplies(w: World, db0: Db, s: Sys, req: Request)
    requires SysInv(w, db0, s) && RepliesOk(w, db0, s)
    ensures CallsOk(Step(w, s, Spawn(req))) && RepliesOk(w, db0, Step(w, s, Spawn(req)))
  {
    var after := Step(w, s, Spawn(req));
    assert Grows(s, after);
    forall u | 0 <= u < |after.tasks| ensures ReplyOk(w, db0, after, u) {
      if u < |s.tasks| { ReplyStays(w, db0, s, after, u); }
    }
  }

  lemma RepliesStep(w: World, db0: Db, s: Sys, e: Event)
    requires SysInv(w, db0, s) && SysInv(w, db0, Step(w, s, e)) && RepliesOk(w, db0, s)
    ensures RepliesOk(w, db0, Step(w, s, e))
  {
    match e
    case Spawn(req) => SpawnReplies(w, db0, s, req);
    case Run(t) => if t < |s.tasks| { RunReplies(w, db0, s, t); }
  }

  /** In every reachable state of every interleaving, every call past its section has the
      reply of a whole section on the tables of the serial run at its place. */
  lemma {:induction false} EveryReplyIsSerial(w: World, db0: Db, es: seq<Event>)
    ensures var s := Schedule(w, Init(db0), es);
            SysInv(w, db0, s) && RepliesOk(w, db0, s)
    decreases |es|
  {
    EveryInterleavingIsSerial(w, db0, es);
    if es == [] {
    } else {
      EveryReplyIsSerial(w, db0, es[..|es| - 1]);
      EveryInterleavingIsSerial(w, db0, es[..|es| - 1]);
      RepliesStep(w, db0, Schedule(w, Init(db0), es[..|es| - 1]), es[|es| - 1]);
    }
  }

  // ---- what a caller gets ----------------------------------------------------------------------

  lemma {:induction false} ExecAllConcat(w: World, db: Db, a: seq<Request>, b: seq<Request>)
    ensures ExecAll(w, db, a + b) == ExecAll(w, ExecAll(w, db, a), b)
    decreases |b|
  {
    if b == [] {
      assert a + b == a;
    } else {
      assert (a + b)[..|a + b| - 1] == a + b[..|b| - 1];
      ExecAllConcat(w, db, a, b[..|b| - 1]);
    }
  }

  /** The requests of the calls that wrote after the first `a` and among the first `j`. */
  function Between(s: Sys, a: nat, j: nat): seq<Request>
    requires a <= j <= |s.calls| && forall k | 0 <= k < |s.calls| :: s.calls[k] < |s.tasks|
  {
    Requests(s.tasks, s.calls[a..j])
  }

  lemma TablesBetween(w: World, db0: Db, s: Sys, a: nat, j: nat)
    requires a <= j <= |s.calls| && forall k | 0 <= k < |s.calls| :: s.calls[k] < |s.tasks|
    ensures TablesAt(w, db0, s, j) == ExecAll(w, TablesAt(w, db0, s, a), Between(s, a, j))
  {
    assert Requests(s.tasks, s.calls[..j]) == Requests(s.tasks, s.calls[..a]) + Between(s, a, j);
    ExecAllConcat(w, db0, Requests(s.tasks, s.calls[..a]), Between(s, a, j));
  }

  /** The place of a call in the serial run: it is run on the tables after `i` calls, leaves
      those after `a`, and is the call numbered `i` if it has written. */
  ghost predicate InPlace(w: World, db0: Db, s: Sys, t: nat, i: nat, a: nat)
    requires t < |s.tasks| && CallsOk(s)
  {
    && i <= a <= |s.calls|
    && Exec(w, TablesAt(w, db0, s, i), s.tasks[t].req).0 == TablesAt(w, db0, s, a)
    && (if t in s.calls then a == i + 1 && s.calls[i] == t else a == i)
  }

  lemma PlaceOfReply(w: World, db0: Db, s: Sys, t: nat, i: nat, reply: Reply) returns (a: nat)
    requires t < |s.tasks| && CallsOk(s) && Answered(w, db0, s, t, i, reply)
    ensures InPlace(w, db0, s, t, i, a)
  {
    if t in s.calls {
      a := i + 1;
      assert s.calls[..a] == s.calls[..i] + [t];
      RequestsGrow(s.tasks, s.tasks, s.calls[..i], t);
      ExecAllOne(w, db0, Requests(s.tasks, s.calls[..i]), s.tasks[t].req);
    } else {
      a := i;
    }
  }

  /** A call that has finished returned, from its place in the serial run, what its section
      and a second read of the tables after `j` calls give. */
  lemma FinishedReply(w: World, db0: Db, es: seq<Event>, t: nat, reply: Reply) returns (i: nat, a: nat, j: nat)
    requires var s := Schedule(w, Init(db0), es);
             t < |s.tasks| && s.tasks[t].phase == Finished(reply) && Checked(s.tasks[t].req).None?
    ensures var s := Schedule(w, Init(db0), es);
            && CallsOk(s) && InPlace(w, db0, s, t, i, a) && a <= j <= |s.calls|
            && reply == ReadBack(TablesAt(w, db0, s, j), s.tasks[t].req, Drive(w, TablesAt(w, db0, s, i), s.tasks[t].req, Entered).1)
            && TablesAt(w, db0, s, j) == ExecAll(w, TablesAt(w, db0, s, a), Between(s, a, j))
  {
    var s := Schedule(w, Init(db0), es);
    EveryReplyIsSerial(w, db0, es);
    assert ReplyOk(w, db0, s, t);
    var section: Reply;
    i, j, section :| Returned(w, db0, s, t, i, j, section, reply);
    a := PlaceOfReply(w, db0, s, t, i, section);
    TablesBetween(w, db0, s, a, j);
  }

  /** A call that does not read again returns exactly what it returns in the serial run. */
  lemma SerialReply(w: World, db0: Db, es: seq<Event>, t: nat, reply: Reply) returns (i: nat, a: nat)
    requires var s := Schedule(w, Init(db0), es);
             t < |s.tasks| && s.tasks[t].phase == Finished(reply) && Checked(s.tasks[t].req).None?
             && !s.tasks[t].req.Confirm? && !s.tasks[t].req.Retire?
    ensures var s := Schedule(w, Init(db0), es);
            CallsOk(s) && InPlace(w, db0, s, t, i, a) && reply == Exec(w, TablesAt(w, db0, s, i), s.tasks[t].req).1
  {
    var j: nat;
    i, a, j := FinishedReply(w, db0, es, t, reply);
  }

  // ---- retire_witness --------------------------------------------------------------------------

  /** The second read of a retirement differs from the first exactly when the witness was
      not known and has been registered in between. */
  lemma RetireReadsIff(w: World, db: Db, req: Request, more: seq<Request>)
    requires req.Retire? && IdsFrom1(db.entries)
    ensures var own := Exec(w, db, req);
            var later := ExecAll(w, own.0, more);
            ReadBack(later, req, own.1) == own.1 <==>
              FindWitness(db.witnesses, req.witnessId).Some? || FindWitness(later.witnesses, req.witnessId).None?
  {
    var id := req.witnessId;
    var own := Exec(w, db, req).0;
    var later := ExecAll(w, own, more);
    assert own == db.(witnesses := RetireRows(db.witnesses, id, Format(req.now)));
    FindAfterRetire(db.witnesses, id, Format(req.now), id);
    ExecAllExtends(w, own, more);
    FindWitnessLater(own.witnesses, later.witnesses, id);
  }

  /** `retire_witness` returns what it returns in the serial run exactly when the witness
      was known to it, or is still unknown at its second read. */
  lemma RetireReplyIff(w: World, db0: Db, es: seq<Event>, t: nat, reply: Reply) returns (i: nat, a: nat, j: nat)
    requires IdsFrom1(db0.entries)
    requires var s := Schedule(w, Init(db0), es);
             t < |s.tasks| && s.tasks[t].phase == Finished(reply) && s.tasks[t].req.Retire?
    ensures var s := Schedule(w, Init(db0), es);
            && CallsOk(s) && InPlace(w, db0, s, t, i, a) && a <= j <= |s.calls|
            && reply == ReadBack(TablesAt(w, db0, s, j), s.tasks[t].req, reply)
            && (reply == Exec(w, TablesAt(w, db0, s, i), s.tasks[t].req).1 <==>
                  || FindWitness(TablesAt(w, db0, s, i).witnesses, s.tasks[t].req.witnessId).Some?
                  || FindWitness(TablesAt(w, db0, s, j).witnesses, s.tasks[t].req.witnessId).None?)
  {
    i, a, j := FinishedReply(w, db0, es, t, reply);
    var s := Schedule(w, Init(db0), es);
    IdsAt(w, db0, s, i);
    RetireReadsIff(w, TablesAt(w, db0, s, i), s.tasks[t].req, Between(s, a, j));
  }

  lemma IdsAt(w: World, db0: Db, s: Sys, i: nat)
    requires CallsOk(s) && i <= |s.calls| && IdsFrom1(db0.entries)
    ensures IdsFrom1(TablesAt(w, db0, s, i).entries)
  {
    ExecAllExtends(w, db0, Requests(s.tasks, s.calls[..i]));
  }

  // ---- confirm_anchor --------------------------------------------------------------------------

  /** The last confirmation of an anchor among some calls. */
  function LastConfirm(reqs: seq<Request>, id: int): Option<Request> {
    if reqs == [] then None
    else if reqs[|reqs| - 1].Confirm? && reqs[|reqs| - 1].anchorId == id then Some(reqs[|reqs| - 1])
    else LastConfirm(reqs[..|reqs| - 1], id)
  }

  lemma {:induction false} LastConfirmIsOne(reqs: seq<Request>, id: int)
    ensures LastConfirm(reqs, id).Some? ==> LastConfirm(reqs, id).value.Confirm? && LastConfirm(reqs, id).value.anchorId == id
  {
    if reqs == [] {
    } else {
      LastConfirmIsOne(reqs[..|reqs| - 1], id);
    }
  }

  lemma {:induction false} FindAnchorAppend(rows: seq<AnchorRow>, row: AnchorRow, id: int)
    ensures FindAnchor(rows, id).Some? ==> FindAnchor(rows + [row], id) == FindAnchor(rows, id)
  {
    if rows == [] {
    } else {
      assert (rows + [row])[1..] == rows[1..] + [row];
      FindAnchorAppend(rows[1..], row, id);
    }
  }

  lemma {:induction false} FindConfirmed(rows: seq<AnchorRow>, req: Request, id: int)
    requires req.Confirm?
    ensures var (before, after) := (FindAnchor(rows, id), FindAnchor(ConfirmRows(rows, req), id));
            && (before.Some? <==> after.Some?)
            && (before.Some? ==> after.value == if id == req.anchorId then ConfirmedRow(before.value, req) else before.value)
  {
    if rows == [] {
    } else {
      assert ConfirmRows(rows, req)[1..] == ConfirmRows(rows[1..], req);
      FindConfirmed(rows[1..], req, id);
    }
  }

  lemma {:induction false} FoundId(rows: seq<AnchorRow>, id: int)
    ensures FindAnchor(rows, id).Some? ==> FindAnchor(rows, id).value.anchorId == id
  {
    if rows == [] {
    } else {
      FoundId(rows[1..], id);
    }
  }

  lemma AnchorAfterCall(w: World, db: Db, req: Request, id: int)
    requires IdsFrom1(db.entries) && FindAnchor(db.anchors, id).Some?
    ensures FindAnchor(Exec(w, db, req).0.anchors, id) ==
              Some(if req.Confirm? && req.anchorId == id then ConfirmedRow(FindAnchor(db.anchors, id).value, req)
                   else FindAnchor(db.anchors, id).value)
  {
    var after := Exec(w, db, req).0;
    if req.Confirm? {
      ConfirmEffect(w, db, req);
      FindConfirmed(db.anchors, req, id);
    } else {
      ExecChangesOneTable(w, db, req);
      if row :| after == db.(anchors := db.anchors + [row]) { FindAnchorAppend(db.anchors, row, id); }
    }
  }

  lemma AnchorTwice(row: AnchorRow, a: Request, b: Request)
    requires a.Confirm? && b.Confirm?
    ensures ConfirmedRow(ConfirmedRow(row, a), b) == ConfirmedRow(row, b)
  {}

  /** After any calls an anchor shows the last of their confirmations of it. */
  lemma {:induction false} AnchorAfterRun(w: World, db: Db, reqs: seq<Request>, id: int)
    requires IdsFrom1(db.entries) && FindAnchor(db.anchors, id).Some?
    ensures LastConfirm(reqs, id).Some? ==> LastConfirm(reqs, id).value.Confirm?
    ensures FindAnchor(ExecAll(w, db, reqs).anchors, id) ==
              Some(if LastConfirm(reqs, id).None? then FindAnchor(db.anchors, id).value
                   else ConfirmedRow(FindAnchor(db.anchors, id).value, LastConfirm(reqs, id).value))
    decreases |reqs|
  {
    LastConfirmIsOne(reqs, id);
    if reqs == [] {
    } else {
      var init := reqs[..|reqs| - 1];
      AnchorAfterRun(w, db, init, id);
      ExecAllExtends(w, db, init);
      AnchorAfterCall(w, ExecAll(w, db, init), reqs[|reqs| - 1], id);
    }
  }

  /** Two confirmations that write the same four columns. */
  predicate SameConfirmation(a: Request, b: Request)
    requires a.Confirm? && b.Confirm?
  {
    a.blob == b.blob && a.height == b.height && a.blockHash == b.blockHash && a.now == b.now
  }

  lemma SameConfirmationIff(row: AnchorRow, a: Request, b: Request)
    requires a.Confirm? && b.Confirm?
    ensures ConfirmedRow(row, a) == ConfirmedRow(row, b) <==> SameConfirmation(a, b)
  {
    ParseFormat(a.now);
    ParseFormat(b.now);
  }

  /** No other confirmation of the anchor came after the call's own, or the last one wrote
      the same values. */
  ghost predicate NotOverwritten(req: Request, more: seq<Request>)
    requires req.Confirm?
  {
    LastConfirm(more, req.anchorId).Some? ==>
      LastConfirm(more, req.anchorId).value.Confirm? && SameConfirmation(LastConfirm(more, req.anchorId).value, req)
  }

  /** The second read of a confirmation agrees with the first exactly when the anchor
      existed and its confirmation was not overwritten, or it did not and still does not. */
  lemma ConfirmReadsIff(w: World, db: Db, req: Request, more: seq<Request>)
    requires req.Confirm? && IdsFrom1(db.entries)
    ensures var own := Exec(w, db, req);
            var later := ExecAll(w, own.0, more);
            && (FindAnchor(db.anchors, req.anchorId).Some? ==>
                  (ReadBack(later, req, own.1) == own.1 <==> NotOverwritten(req, more)))
            && (FindAnchor(db.anchors, req.anchorId).None? ==>
                  (ReadBack(later, req, own.1) == own.1 <==> FindAnchor(later.anchors, req.anchorId).None?))
  {
    var id := req.anchorId;
    var own := Exec(w, db, req).0;
    ConfirmEffect(w, db, req);
    FindConfirmed(db.anchors, req, id);
    if FindAnchor(db.anchors, id).Some? {
      var row := FindAnchor(db.anchors, id).value;
      AnchorAfterRun(w, own, more, id);
      if LastConfirm(more, id).Some? {
        AnchorTwice(row, req, LastConfirm(more, id).value);
        SameConfirmationIff(row, LastConfirm(more, id).value, req);
      }
    }
  }

  /** `confirm_anchor` returns what it returns in the serial run exactly when, between its
      write and its second read, no other call confirmed the anchor with other values; for
      an anchor that does not exist, when it was not created in between. */
  lemma ConfirmReplyIff(w: World, db0: Db, es: seq<Event>, t: nat, reply: Reply) returns (i: nat, a: nat, j: nat)
    requires IdsFrom1(db0.entries)
    requires var s := Schedule(w, Init(db0), es);
             t < |s.tasks| && s.tasks[t].phase == Finished(reply) && s.tasks[t].req.Confirm?
    ensures var s := Schedule(w, Init(db0), es);
            && CallsOk(s) && InPlace(w, db0, s, t, i, a) && a <= j <= |s.calls|
            && reply == ReadBack(TablesAt(w, db0, s, j), s.tasks[t].req, reply)
            && var (req, serial) := (s.tasks[t].req, Exec(w, TablesAt(w, db0, s, i), s.tasks[t].req).1);
               && (FindAnchor(TablesAt(w, db0, s, i).anchors, req.anchorId).Some? ==>
                     (reply == serial <==> NotOverwritten(req, Between(s, a, j))))
               && (FindAnchor(TablesAt(w, db0, s, i).anchors, req.anchorId).None? ==>
                     (reply == serial <==> FindAnchor(TablesAt(w, db0, s, j).anchors, req.anchorId).None?))
  {
    i, a, j := FinishedReply(w, db0, es, t, reply);
    var s := Schedule(w, Init(db0), es);
    IdsAt(w, db0, s, i);
    ConfirmReadsIff(w, TablesAt(w, db0, s, i), s.tasks[t].req, Between(s, a, j));
  }

  /** A schedule in which a confirmation returns that of another call. */
  lemma OtherConfirmationReturned(w: World, db0: Db, mine: Request, theirs: Request) returns (es: seq<Event>)
    requires mine.Confirm? && theirs.Confirm? && mine.anchorId == theirs.anchorId
    requires FindAnchor(db0.anchors, mine.anchorId).Some?
    ensures var s := Schedule(w, Init(db0), es);
            && |s.tasks| == 2 && s.tasks[0].req == mine
            && s.tasks[0].phase == Finished(Anchored(ConfirmedRow(FindAnchor(db0.anchors, mine.anchorId).value, theirs)))
  {
    var first := CallSection(w, Init(db0), mine);
    var released := Schedule(w, Init(db0), first);
    var second := CallAlone(w, released, theirs);
    var both := Schedule(w, released, second);
    es := first + (second + [Run(0)]);
    ScheduleConcat(w, Init(db0), first, second + [Run(0)]);
    ScheduleConcat(w, released, second, [Run(0)]);
    assert Drive(w, db0, mine, Entered).0 == Exec(w, db0, mine).0;
    assert both.tasks[0] == released.tasks[0];
    FinishStep(w, both, 0, Drive(w, db0, mine, Entered).1);
    OverwrittenRow(w, db0, mine, theirs);
  }

  lemma OverwrittenRow(w: World, db: Db, mine: Request, theirs: Request)
    requires mine.Confirm? && theirs.Confirm? && mine.anchorId == theirs.anchorId
    requires FindAnchor(db.anchors, mine.anchorId).Some?
    ensures FindAnchor(Exec(w, Exec(w, db, mine).0, theirs).0.anchors, mine.anchorId) ==
              Some(ConfirmedRow(FindAnchor(db.anchors, mine.anchorId).value, theirs))
  {
    var after := Exec(w, db, mine).0;
    ConfirmEffect(w, db, mine);
    ConfirmEffect(w, after, theirs);
    FindConfirmed(db.anchors, mine, mine.anchorId);
    FindConfirmed(after.anchors, theirs, mine.anchorId);
    AnchorTwice(FindAnchor(db.anchors, mine.anchorId).value, mine, theirs);
  }
}
