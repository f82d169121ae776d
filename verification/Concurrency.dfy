/** Any number of tasks calling the six writers at once. Each runs its critical section
    under one lock, and other tasks run at every await in between. */
module Concurrency {
  import opened Base
  import opened LedgerSpec

  datatype Phase =
    | Started                  // called, the lock not yet acquired
    | Holding(local: Local)    // inside the section, nothing written yet
    | Written(reply: Reply)    // the statement has run, the commit is awaited
    | Leaving(reply: Reply)    // committed, or nothing to commit; the lock still held
    | Released(reply: Reply)   // the lock is free again, the last read outstanding
    | Finished(reply: Reply)

  datatype Task = Task(req: Request, phase: Phase)

  /** `writers` is a history variable: the log tasks whose row has been inserted, in order.
      So is `calls`, for all tasks that have written. */
  datatype Sys = Sys(db: Db, holder: Option<nat>, tasks: seq<Task>, calls: seq<nat>, writers: seq<nat>)

  datatype Event = Spawn(req: Request) | Run(task: nat)

  function Init(db: Db): Sys {
    Sys(db, None, [], [], [])
  }

  function SetPhase(s: Sys, t: nat, p: Phase): Sys
    requires t < |s.tasks|
  {
    s.(tasks := s.tasks[t := s.tasks[t].(phase := p)])
  }

  /** One scheduling step: a task runs from one await to the next. A task that waits for
      the lock does not move. */
  function Step(w: World, s: Sys, e: Event): Sys {
    match e
    case Spawn(req) => s.(tasks := s.tasks + [Task(req, Started)])
    case Run(t) => if t < |s.tasks| then RunTask(w, s, t) else s
  }

  function RunTask(w: World, s: Sys, t: nat): Sys
    requires t < |s.tasks|
  {
    var req := s.tasks[t].req;
    match s.tasks[t].phase
    case Started =>
      if Checked(req).Some? then SetPhase(s, t, Finished(Raised(Checked(req).value)))
      else if s.holder.Some? then s
      else SetPhase(s, t, Holding(Entered)).(holder := Some(t))
    case Holding(l) => if Fits(req, l) && Checked(req).None? then RunSection(w, s, t, l) else s
    case Written(reply) => SetPhase(s, t, Leaving(reply))
    case Leaving(reply) => SetPhase(s, t, Released(reply)).(holder := None)
    case Released(reply) => SetPhase(s, t, Finished(ReadBack(s.db, req, reply)))
    case Finished(_) => s
  }

  function RunSection(w: World, s: Sys, t: nat, l: Local): Sys
    requires t < |s.tasks| && Fits(s.tasks[t].req, l) && Checked(s.tasks[t].req).None?
  {
    match Advance(w, s.db, s.tasks[t].req, l)
    case Continue(next) => SetPhase(s, t, Holding(next))
    case Leave(reply) => SetPhase(s, t, Leaving(reply))
    case Write(db, reply) =>
      SetPhase(s, t, Written(reply)).(
        db := db,
        calls := s.calls + [t],
        writers := if s.tasks[t].req.Log? then s.writers + [t] else s.writers)
  }

  /** The state after a schedule. */
  function Schedule(w: World, s: Sys, es: seq<Event>): Sys
    decreases |es|
  {
    if es == [] then s else Step(w, Schedule(w, s, es[..|es| - 1]), es[|es| - 1])
  }

  // ---- mutual exclusion and accurate locals --------------------------------------------------

  predicate InSection(p: Phase) {
    p.Holding? || p.Written? || p.Leaving?
  }

  predicate HasWritten(p: Phase) {
    p.Written? || p.Leaving? || p.Released? || p.Finished?
  }

  /** Exactly the holder of the lock is inside its section. */
  ghost predicate LockOk(s: Sys) {
    && (s.holder.Some? ==> s.holder.value < |s.tasks|)
    && forall t | 0 <= t < |s.tasks| :: InSection(s.tasks[t].phase) <==> s.holder == Some(t)
  }

  /** What a call has read so far leads where a fresh start on the current tables would. */
  ghost predicate LocalsOk(w: World, db: Db, task: Task) {
    task.phase.Holding? ==>
      && Checked(task.req).None? && Fits(task.req, task.phase.local)
      && Drive(w, db, task.req, task.phase.local) == Drive(w, db, task.req, Entered)
  }

  ghost predicate CallsOk(s: Sys) {
    && (forall i | 0 <= i < |s.calls| :: s.calls[i] < |s.tasks| && HasWritten(s.tasks[s.calls[i]].phase))
    && forall i, j | 0 <= i < j < |s.calls| :: s.calls[i] != s.calls[j]
  }

  /** The calls that have written, in the order of their writes. */
  function Requests(tasks: seq<Task>, calls: seq<nat>): seq<Request>
    requires forall i | 0 <= i < |calls| :: calls[i] < |tasks|
  {
    seq(|calls|, i requires 0 <= i < |calls| => tasks[calls[i]].req)
  }

  ghost predicate SysInv(w: World, db0: Db, s: Sys) {
    && LockOk(s) && CallsOk(s)
    && (forall t | 0 <= t < |s.tasks| :: LocalsOk(w, s.db, s.tasks[t]))
    && s.db == ExecAll(w, db0, Requests(s.tasks, s.calls))
  }

  lemma RequestsStay(a: seq<Task>, b: seq<Task>, calls: seq<nat>)
    requires forall i | 0 <= i < |calls| :: calls[i] < |a| && calls[i] < |b| && a[calls[i]].req == b[calls[i]].req
    ensures Requests(a, calls) == Requests(b, calls)
  {}

  /** Steps that do not write. */
  lemma QuietStep(w: World, db0: Db, s: Sys, t: nat, p: Phase, holder: Option<nat>)
    requires SysInv(w, db0, s) && t < |s.tasks|
    requires LocalsOk(w, s.db, s.tasks[t].(phase := p))
    requires t in s.calls ==> HasWritten(p)
    requires forall u | 0 <= u < |s.tasks| && u != t :: s.holder == Some(u) <==> holder == Some(u)
    requires InSection(p) <==> holder == Some(t)
    requires holder.Some? ==> holder.value < |s.tasks|
    ensures SysInv(w, db0, SetPhase(s, t, p).(holder := holder))
  {
    var after := SetPhase(s, t, p).(holder := holder);
    RequestsStay(s.tasks, after.tasks, s.calls);
  }

  lemma SpawnKeeps(w: World, db0: Db, s: Sys, req: Request)
    requires SysInv(w, db0, s)
    ensures SysInv(w, db0, Step(w, s, Spawn(req)))
  {
    var after := Step(w, s, Spawn(req));
    RequestsStay(s.tasks, after.tasks, s.calls);
  }

  /** What other tasks have read is not touched: they are not inside their sections. */
  lemma OthersNotInside(w: World, db: Db, after: Db, s: Sys, t: nat, p: Phase)
    requires LockOk(s) && s.holder == Some(t) && t < |s.tasks| && !p.Holding?
    ensures forall u | 0 <= u < |s.tasks| :: LocalsOk(w, after, SetPhase(s, t, p).tasks[u])
  {
    forall u | 0 <= u < |s.tasks| ensures LocalsOk(w, after, SetPhase(s, t, p).tasks[u]) {
      if u != t { assert InSection(s.tasks[u].phase) <==> s.holder == Some(u); }
    }
  }

  lemma RequestsGrow(a: seq<Task>, b: seq<Task>, calls: seq<nat>, t: nat)
    requires |a| == |b| && t < |a| && forall i | 0 <= i < |a| :: a[i].req == b[i].req
    requires forall i | 0 <= i < |calls| :: calls[i] < |a|
    ensures Requests(b, calls + [t]) == Requests(a, calls) + [a[t].req]
  {}

  lemma ExecAllOne(w: World, db: Db, reqs: seq<Request>, req: Request)
    ensures ExecAll(w, db, reqs + [req]) == Exec(w, ExecAll(w, db, reqs), req).0
  {
    assert (reqs + [req])[..|reqs|] == reqs;
  }

  lemma CallsGrow(s: Sys, t: nat, reply: Reply)
    requires CallsOk(s) && t < |s.tasks| && !HasWritten(s.tasks[t].phase)
    ensures CallsOk(SetPhase(s, t, Written(reply)).(calls := s.calls + [t]))
  {}

  /** A write that is a whole call keeps the invariant; which log tasks wrote does not matter. */
  lemma WrittenKeeps(w: World, db0: Db, s: Sys, t: nat, db: Db, reply: Reply, writers: seq<nat>)
    requires SysInv(w, db0, s) && t < |s.tasks| && s.tasks[t].phase.Holding? && s.holder == Some(t)
    requires db == Exec(w, s.db, s.tasks[t].req).0
    ensures SysInv(w, db0, SetPhase(s, t, Written(reply)).(db := db, calls := s.calls + [t], writers := writers))
  {
    var after := SetPhase(s, t, Written(reply)).(db := db, calls := s.calls + [t], writers := writers);
    OthersNotInside(w, s.db, db, s, t, Written(reply));
    CallsGrow(s, t, reply);
    RequestsGrow(s.tasks, after.tasks, s.calls, t);
    ExecAllOne(w, db0, Requests(s.tasks, s.calls), s.tasks[t].req);
  }

  /** A write in the section amounts to a whole call, run on the current tables: the tables
      become those of the call, and its reply is handed over. */
  lemma WriteStep(w: World, db0: Db, s: Sys, t: nat, l: Local)
    requires SysInv(w, db0, s) && t < |s.tasks| && s.tasks[t].phase == Holding(l)
    requires Fits(s.tasks[t].req, l) && Checked(s.tasks[t].req).None?
    requires Advance(w, s.db, s.tasks[t].req, l).Write?
    ensures RunSection(w, s, t, l).db == Exec(w, s.db, s.tasks[t].req).0
    ensures RunSection(w, s, t, l).tasks[t].phase == Written(Drive(w, s.db, s.tasks[t].req, Entered).1)
    ensures SysInv(w, db0, RunSection(w, s, t, l))
  {
    var req := s.tasks[t].req;
    assert LocalsOk(w, s.db, s.tasks[t]);
    var r := Advance(w, s.db, req, l);
    assert r.db == Drive(w, s.db, req, l).0;
    assert InSection(s.tasks[t].phase) <==> s.holder == Some(t);
    WrittenKeeps(w, db0, s, t, r.db, r.reply, RunSection(w, s, t, l).writers);
  }

  lemma SectionKeeps(w: World, db0: Db, s: Sys, t: nat, l: Local)
    requires SysInv(w, db0, s) && t < |s.tasks| && s.tasks[t].phase == Holding(l)
    requires Fits(s.tasks[t].req, l) && Checked(s.tasks[t].req).None?
    ensures SysInv(w, db0, RunSection(w, s, t, l))
  {
    var req := s.tasks[t].req;
    assert LocalsOk(w, s.db, s.tasks[t]);
    match Advance(w, s.db, req, l)
    case Continue(next) =>
      assert Drive(w, s.db, req, l) == Drive(w, s.db, req, next);
      QuietStep(w, db0, s, t, Holding(next), s.holder);
    case Leave(reply) => QuietStep(w, db0, s, t, Leaving(reply), s.holder);
    case Write(_, _) => WriteStep(w, db0, s, t, l);
  }

  lemma StepKeeps(w: World, db0: Db, s: Sys, e: Event)
    requires SysInv(w, db0, s)
    ensures SysInv(w, db0, Step(w, s, e))
  {
    match e
    case Spawn(req) => SpawnKeeps(w, db0, s, req);
    case Run(t) =>
      if t < |s.tasks| {
        assert LocalsOk(w, s.db, s.tasks[t]);
        var req := s.tasks[t].req;
        match s.tasks[t].phase {
          case Started =>
            if Checked(req).Some? { QuietStep(w, db0, s, t, Finished(Raised(Checked(req).value)), s.holder); }
            else if s.holder.None? { QuietStep(w, db0, s, t, Holding(Entered), Some(t)); }
          case Holding(l) => SectionKeeps(w, db0, s, t, l);
          case Written(reply) => QuietStep(w, db0, s, t, Leaving(reply), s.holder);
          case Leaving(reply) => QuietStep(w, db0, s, t, Released(reply), None);
          case Released(reply) => QuietStep(w, db0, s, t, Finished(ReadBack(s.db, req, reply)), s.holder);
          case Finished(_) =>
        }
      }
  }

  /** Every reachable state of every interleaving: at most one task is inside its section,
      and the tables are those of a serial run of the calls that have written. */
  lemma {:induction false} EveryInterleavingIsSerial(w: World, db0: Db, es: seq<Event>)
    ensures SysInv(w, db0, Schedule(w, Init(db0), es))
    decreases |es|
  {
    if es == [] {
    } else {
      EveryInterleavingIsSerial(w, db0, es[..|es| - 1]);
      StepKeeps(w, db0, Schedule(w, Init(db0), es[..|es| - 1]), es[|es| - 1]);
    }
  }
}
