/** Building schedules: what a call does when no other task runs, and that every serial run
    is a schedule. */
module Scheduling {
  import opened Base
  import opened LedgerSpec
  import opened Concurrency

  lemma {:induction false} ScheduleConcat(w: World, s: Sys, es: seq<Event>, more: seq<Event>)
    ensures Schedule(w, s, es + more) == Schedule(w, Schedule(w, s, es), more)
    decreases |more|
  {
    if more == [] {
      assert es + more == es;
    } else {
      var all := es + more;
      assert all[..|all| - 1] == es + more[..|more| - 1];
      ScheduleConcat(w, s, es, more[..|more| - 1]);
    }
  }

  lemma ScheduleFirst(w: World, s: Sys, e: Event, more: seq<Event>)
    ensures Schedule(w, s, [e] + more) == Schedule(w, Step(w, s, e), more)
  {
    ScheduleConcat(w, s, [e], more);
    assert [e][..0] == [];
  }

  /** Nothing has happened to the tasks but that `t` has reached this phase. */
  ghost predicate Reached(s: Sys, after: Sys, t: nat, p: Phase)
    requires t < |s.tasks|
  {
    after.tasks == s.tasks[t := s.tasks[t].(phase := p)]
  }

  ghost predicate OnlyRuns(es: seq<Event>, t: nat) {
    forall i | 0 <= i < |es| :: es[i] == Run(t)
  }

  lemma LeaveRuns(w: World, s: Sys, t: nat, reply: Reply) returns (es: seq<Event>)
    requires t < |s.tasks| && s.tasks[t].phase == Leaving(reply)
    ensures OnlyRuns(es, t)
    ensures var after := Schedule(w, s, es);
            after.db == s.db && after.holder.None? && Reached(s, after, t, Released(reply))
  {
    es := [Run(t)];
    ScheduleFirst(w, s, Run(t), []);
    assert [Run(t)] + [] == [Run(t)];
  }

  lemma WrittenRuns(w: World, s: Sys, t: nat, reply: Reply) returns (es: seq<Event>)
    requires t < |s.tasks| && s.tasks[t].phase == Written(reply)
    ensures OnlyRuns(es, t)
    ensures var after := Schedule(w, s, es);
            after.db == s.db && after.holder.None? && Reached(s, after, t, Released(reply))
  {
    var rest := LeaveRuns(w, SetPhase(s, t, Leaving(reply)), t, reply);
    es := [Run(t)] + rest;
    ScheduleFirst(w, s, Run(t), rest);
  }

  /** A stretch that continues leaves the rest of the section to run. */
  lemma ContinueStep(w: World, s: Sys, t: nat, l: Local, m: Local)
    requires t < |s.tasks| && s.tasks[t].phase == Holding(l)
    requires Fits(s.tasks[t].req, l) && Checked(s.tasks[t].req).None?
    requires Advance(w, s.db, s.tasks[t].req, l) == Continue(m)
    ensures Step(w, s, Run(t)) == SetPhase(s, t, Holding(m))
    ensures Drive(w, s.db, s.tasks[t].req, l) == Drive(w, s.db, s.tasks[t].req, m)
  {}

  /** The rest of a section, run without interruption: it ends with the lock free, the
      tables and the reply as `Drive` says. */
  lemma {:induction false} SectionRuns(w: World, s: Sys, t: nat, l: Local) returns (es: seq<Event>)
    requires t < |s.tasks| && s.tasks[t].phase == Holding(l)
    requires Fits(s.tasks[t].req, l) && Checked(s.tasks[t].req).None?
    ensures OnlyRuns(es, t)
    ensures var (after, r) := (Schedule(w, s, es), Drive(w, s.db, s.tasks[t].req, l));
            after.db == r.0 && after.holder.None? && Reached(s, after, t, Released(r.1))
    decreases Left(l)
  {
    var next := RunSection(w, s, t, l);
    var rest: seq<Event>;
    match Advance(w, s.db, s.tasks[t].req, l)
    case Continue(m) =>
      ContinueStep(w, s, t, l, m);
      rest := SectionRuns(w, SetPhase(s, t, Holding(m)), t, m);
      es := [Run(t)] + rest;
      ScheduleFirst(w, s, Run(t), rest);
    case Leave(reply) =>
      rest := LeaveRuns(w, next, t, reply);
      es := [Run(t)] + rest;
      ScheduleFirst(w, s, Run(t), rest);
    case Write(db, reply) =>
      rest := WrittenRuns(w, next, t, reply);
      es := [Run(t)] + rest;
      ScheduleFirst(w, s, Run(t), rest);
  }

  lemma EnterStep(w: World, s: Sys, req: Request)
    requires s.holder.None? && Checked(req).None?
    ensures Step(w, Step(w, s, Spawn(req)), Run(|s.tasks|)) ==
              s.(tasks := s.tasks + [Task(req, Holding(Entered))], holder := Some(|s.tasks|))
  {
    var spawned := s.tasks + [Task(req, Started)];
    assert spawned[|s.tasks| := Task(req, Holding(Entered))] == s.tasks + [Task(req, Holding(Entered))];
  }

  /** A call made now and run to the end of its section. */
  lemma CallSection(w: World, s: Sys, req: Request) returns (es: seq<Event>)
    requires s.holder.None? && Checked(req).None?
    ensures es != [] && es[0] == Spawn(req) && OnlyRuns(es[1..], |s.tasks|)
    ensures var (after, r) := (Schedule(w, s, es), Drive(w, s.db, req, Entered));
            after.db == r.0 && after.holder.None? && after.tasks == s.tasks + [Task(req, Released(r.1))]
  {
    var t := |s.tasks|;
    var inside := s.(tasks := s.tasks + [Task(req, Holding(Entered))], holder := Some(t));
    var rest := SectionRuns(w, inside, t, Entered);
    es := [Spawn(req)] + ([Run(t)] + rest);
    ScheduleFirst(w, s, Spawn(req), [Run(t)] + rest);
    EnterStep(w, s, req);
    ScheduleFirst(w, Step(w, s, Spawn(req)), Run(t), rest);
    assert es[1..] == [Run(t)] + rest;
  }

  lemma FinishStep(w: World, s: Sys, t: nat, reply: Reply)
    requires t < |s.tasks| && s.tasks[t].phase == Released(reply)
    ensures Schedule(w, s, [Run(t)]) == SetPhase(s, t, Finished(ReadBack(s.db, s.tasks[t].req, reply)))
  {
    ScheduleFirst(w, s, Run(t), []);
    assert [Run(t)] + [] == [Run(t)];
  }

  /** A call that is turned down before it asks for the lock. */
  lemma CallRejected(w: World, s: Sys, req: Request)
    requires Checked(req).Some?
    ensures Schedule(w, s, [Spawn(req)] + [Run(|s.tasks|)]) ==
              s.(tasks := s.tasks + [Task(req, Finished(Raised(Checked(req).value)))])
  {
    var t := |s.tasks|;
    ScheduleFirst(w, s, Spawn(req), [Run(t)]);
    ScheduleFirst(w, Step(w, s, Spawn(req)), Run(t), []);
    assert [Run(t)] + [] == [Run(t)];
    var spawned := s.tasks + [Task(req, Started)];
    assert forall p :: spawned[t := Task(req, p)] == s.tasks + [Task(req, p)];
  }

  lemma CallCompleted(w: World, s: Sys, req: Request) returns (es: seq<Event>)
    requires s.holder.None? && Checked(req).None?
    ensures forall i | 0 <= i < |es| :: es[i].Spawn? ==> es[i].req == req
    ensures var (after, r) := (Schedule(w, s, es), Drive(w, s.db, req, Entered));
            && after.db == r.0 && after.holder.None?
            && after.tasks == s.tasks + [Task(req, Finished(ReadBack(r.0, req, r.1)))]
  {
    var (t, reply) := (|s.tasks|, Drive(w, s.db, req, Entered).1);
    var section := CallSection(w, s, req);
    var released := Schedule(w, s, section);
    es := section + [Run(t)];
    ScheduleConcat(w, s, section, [Run(t)]);
    FinishStep(w, released, t, reply);
    assert forall i | 0 < i < |section| :: section[i] == section[1..][i - 1];
    var done := Finished(ReadBack(released.db, req, reply));
    assert released.tasks[t := Task(req, done)] == s.tasks + [Task(req, done)];
  }

  /** A call made now and run to its end is a whole call. */
  lemma CallAlone(w: World, s: Sys, req: Request) returns (es: seq<Event>)
    requires s.holder.None?
    ensures forall i | 0 <= i < |es| :: es[i].Spawn? ==> es[i].req == req
    ensures var (after, r) := (Schedule(w, s, es), Exec(w, s.db, req));
            after.db == r.0 && after.holder.None? && after.tasks == s.tasks + [Task(req, Finished(r.1))]
  {
    var t := |s.tasks|;
    if Checked(req).Some? {
      es := [Spawn(req)] + [Run(t)];
      CallRejected(w, s, req);
    } else {
      es := CallCompleted(w, s, req);
    }
  }

  /** Every serial run is a schedule, so the states of the interleavings include all states
      of serial runs. */
  lemma {:induction false} SerialIsReachable(w: World, db: Db, reqs: seq<Request>) returns (es: seq<Event>)
    ensures var s := Schedule(w, Init(db), es);
            s.db == ExecAll(w, db, reqs) && s.holder.None? && |s.tasks| == |reqs|
    ensures forall i | 0 <= i < |es| :: es[i].Spawn? ==> es[i].req in reqs
    decreases |reqs|
  {
    if reqs == [] {
      es := [];
    } else {
      var (init, last) := (reqs[..|reqs| - 1], reqs[|reqs| - 1]);
      var before := SerialIsReachable(w, db, init);
      var more := CallAlone(w, Schedule(w, Init(db), before), last);
      es := before + more;
      ScheduleConcat(w, Init(db), before, more);
      assert reqs == init + [last];
    }
  }
}
