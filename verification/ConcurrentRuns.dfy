/** What the lock guarantees to callers and to readers that do not take it. */
module ConcurrentRuns {
  import opened Base
  import opened Crypto
  import opened EntryChain
  import opened ChainCheck
  import opened WitnessChain
  import opened LedgerSpec
  import opened LedgerInv
  import opened LedgerRuns
  import opened Concurrency

  ghost predicate KnownEvents(ov: Option<Verifier>, es: seq<Event>) {
    forall i | 0 <= i < |es| :: es[i].Spawn? ==> KnownSigner(ov, es[i].req)
  }

  ghost predicate KnownTasks(ov: Option<Verifier>, tasks: seq<Task>) {
    forall t | 0 <= t < |tasks| :: KnownSigner(ov, tasks[t].req)
  }

  lemma KnownStep(w: World, ov: Option<Verifier>, s: Sys, e: Event)
    requires KnownTasks(ov, s.tasks) && (e.Spawn? ==> KnownSigner(ov, e.req))
    ensures KnownTasks(ov, Step(w, s, e).tasks)
  {
    var after := Step(w, s, e).tasks;
    forall t | 0 <= t < |after| ensures KnownSigner(ov, after[t].req) {
      if t < |s.tasks| { StepKeepsRequest(w, s, e, t); }
    }
  }

  lemma StepKeepsRequest(w: World, s: Sys, e: Event, t: nat)
    requires t < |s.tasks|
    ensures |Step(w, s, e).tasks| == |s.tasks| + if e.Spawn? then 1 else 0
    ensures Step(w, s, e).tasks[t].req == s.tasks[t].req
    ensures e.Spawn? ==> Step(w, s, e).tasks[|s.tasks|].req == e.req
  {}

  lemma {:induction false} TasksAreKnown(w: World, ov: Option<Verifier>, db0: Db, es: seq<Event>)
    requires KnownEvents(ov, es)
    ensures KnownTasks(ov, Schedule(w, Init(db0), es).tasks)
    decreases |es|
  {
    if es == [] {
    } else {
      TasksAreKnown(w, ov, db0, es[..|es| - 1]);
      KnownStep(w, ov, Schedule(w, Init(db0), es[..|es| - 1]), es[|es| - 1]);
    }
  }

  // ---- readers without the lock ----------------------------------------------------------------

  /** The invariant of the tables holds in every reachable state, in particular between an
      insert and its commit. */
  lemma EveryStateKeepsInv(w: World, ov: Option<Verifier>, db0: Db, es: seq<Event>)
    requires DbInv(w, ov, db0) && KnownEvents(ov, es)
    ensures DbInv(w, ov, Schedule(w, Init(db0), es).db)
  {
    var s := Schedule(w, Init(db0), es);
    EveryInterleavingIsSerial(w, db0, es);
    TasksAreKnown(w, ov, db0, es);
    var reqs := Requests(s.tasks, s.calls);
    forall i | 0 <= i < |reqs| ensures KnownSigner(ov, reqs[i]) {
      assert KnownSigner(ov, s.tasks[s.calls[i]].req);
    }
    ExecAllKeepsInv(w, ov, db0, reqs);
  }

  /** The tables at any step of any interleaving have ids 1..n and are accepted by
      `verify_chain`, which reads them with one query, with and without signatures. The
      witnesses and attestations of one instant are in order as well; `WitnessReads` says
      what the witness walk makes of two instants. */
  lemma EverySnapshotVerifies(w: World, v: Verifier, db0: Db, es: seq<Event>)
    requires DbInv(w, Some(v), db0) && KnownEvents(Some(v), es)
    ensures var db := Schedule(w, Init(db0), es).db;
            && IdsFrom1(db.entries)
            && IsVerdict(w.crypto, Some(v), db.entries, Ok(|db.entries|))
            && IsVerdict(w.crypto, None, db.entries, Ok(|db.entries|))
            && PassOk(w.crypto, Some(v), db.witnesses, Ordered(db.attestations))
  {
    EveryStateKeepsInv(w, Some(v), db0, es);
    var db := Schedule(w, Init(db0), es).db;
    GroupedWalkIff(w.crypto, Some(v), db.witnesses, db.attestations);
    forall i | 0 <= i < |db.entries| ensures RowOk(w.crypto, None, db.entries, i) {
      assert RowOk(w.crypto, Some(v), db.entries, i);
    }
  }

  lemma StepExtends(w: World, db0: Db, s: Sys, e: Event)
    requires SysInv(w, db0, s) && IdsFrom1(s.db.entries)
    ensures Extends(s.db, Step(w, s, e).db) && IdsFrom1(Step(w, s, e).db.entries)
  {
    if e.Run? && e.task < |s.tasks| && s.tasks[e.task].phase.Holding? {
      var l := s.tasks[e.task].phase.local;
      assert LocalsOk(w, s.db, s.tasks[e.task]);
      if Advance(w, s.db, s.tasks[e.task].req, l).Write? {
        WriteStep(w, db0, s, e.task, l);
        ExecExtends(w, s.db, s.tasks[e.task].req);
      }
    }
  }

  lemma {:induction false} RunExtends(w: World, db0: Db, s: Sys, more: seq<Event>)
    requires SysInv(w, db0, s) && IdsFrom1(s.db.entries)
    ensures var later := Schedule(w, s, more);
            SysInv(w, db0, later) && IdsFrom1(later.db.entries) && Extends(s.db, later.db)
    decreases |more|
  {
    if more == [] {
    } else {
      var (init, e) := (more[..|more| - 1], more[|more| - 1]);
      RunExtends(w, db0, s, init);
      var before := Schedule(w, s, init);
      StepKeeps(w, db0, before, e);
      StepExtends(w, db0, before, e);
      ExtendsTransitive(s.db, before.db, Step(w, before, e).db);
    }
  }

  /** Whatever is scheduled next, the tables only grow: the entries and attestations of an
      earlier state are a prefix of those of a later one. */
  lemma LaterExtendsEarlier(w: World, db0: Db, es: seq<Event>, more: seq<Event>)
    requires IdsFrom1(db0.entries)
    ensures var earlier := Schedule(w, Init(db0), es);
            var later := Schedule(w, earlier, more);
            Extends(earlier.db, later.db) && IdsFrom1(earlier.db.entries) && IdsFrom1(later.db.entries)
  {
    var s := Schedule(w, Init(db0), es);
    EveryInterleavingIsSerial(w, db0, es);
    ExecAllExtends(w, db0, Requests(s.tasks, s.calls));
    RunExtends(w, db0, s, more);
  }

  /** A head recorded in any state of any interleaving pins the history below it in every
      later state, as `LedgerRuns.AnchoredHistoryPinned` says for serial runs. */
  lemma PinnedUnderConcurrency(w: World, db0: Db, es: seq<Event>, more: seq<Event>, id: int, hash: string, table: seq<EntryRow>, k: nat)
    requires DbInv(w, None, db0) && Recorded(Schedule(w, Init(db0), es).db, id, hash)
    requires ValidChain(w.crypto, None, table)
    requires k < |table| && table[k].entryId == id && table[k].entryHash == hash
    ensures 1 <= id <= |Schedule(w, Schedule(w, Init(db0), es), more).db.entries|
    ensures var (mine, theirs) := (Schedule(w, Schedule(w, Init(db0), es), more).db.entries[..id], table[..k + 1]);
            && (Compare(mine, theirs) == Agree <==> SameChain(mine, theirs))
            && (Compare(mine, theirs) != Agree ==> IsBreak(w.crypto, Compare(mine, theirs)))
            && (IdsAscending(table) && table[0].entryId == 1 ==> !Compare(mine, theirs).GenesisPreimage?)
  {
    var s := Schedule(w, Init(db0), es);
    EveryStateKeepsInvUnsigned(w, db0, es);
    RecordedNamesEntry(w, None, s.db, id, hash);
    LaterExtendsEarlier(w, db0, es, more);
    var later := Schedule(w, s, more).db.entries;
    assert later[id - 1] == s.db.entries[id - 1];
    assert later[..id] == s.db.entries[..id];
    SharedHeadPins(w.crypto, s.db.entries, id, hash, table, k);
  }

  lemma EveryStateKeepsInvUnsigned(w: World, db0: Db, es: seq<Event>)
    requires DbInv(w, None, db0)
    ensures DbInv(w, None, Schedule(w, Init(db0), es).db)
  {
    forall i | 0 <= i < |es| && es[i].Spawn? ensures KnownSigner(None, es[i].req) {}
    EveryStateKeepsInv(w, None, db0, es);
  }

  lemma RetiredStep(w: World, db0: Db, s: Sys, e: Event, id: int)
    requires SysInv(w, db0, s) && Retired(s.db, id)
    ensures Retired(Step(w, s, e).db, id)
    ensures Filter(Step(w, s, e).db.attestations, id) == Filter(s.db.attestations, id)
  {
    if e.Run? && e.task < |s.tasks| && s.tasks[e.task].phase.Holding? {
      var l := s.tasks[e.task].phase.local;
      assert LocalsOk(w, s.db, s.tasks[e.task]);
      if Advance(w, s.db, s.tasks[e.task].req, l).Write? {
        WriteStep(w, db0, s, e.task, l);
        RetiredOneCall(w, s.db, s.tasks[e.task].req, id);
      }
    }
  }

  /** Once a witness has retired, no interleaving adds an attestation of its own, not even
      of a call that was made before. */
  lemma {:induction false} RetiredUnderConcurrency(w: World, db0: Db, s: Sys, more: seq<Event>, id: int)
    requires SysInv(w, db0, s) && Retired(s.db, id)
    ensures var later := Schedule(w, s, more);
            SysInv(w, db0, later) && Retired(later.db, id)
            && Filter(later.db.attestations, id) == Filter(s.db.attestations, id)
    decreases |more|
  {
    if more == [] {
    } else {
      var (init, e) := (more[..|more| - 1], more[|more| - 1]);
      RetiredUnderConcurrency(w, db0, s, init, id);
      StepKeeps(w, db0, Schedule(w, s, init), e);
      RetiredStep(w, db0, Schedule(w, s, init), e, id);
    }
  }

  // ---- every log call and its row ----------------------------------------------------------------

  ghost predicate HasReply(p: Phase, r: Reply) {
    match p
    case Started => false
    case Holding(_) => false
    case Written(reply) => reply == r
    case Leaving(reply) => reply == r
    case Released(reply) => reply == r
    case Finished(reply) => reply == r
  }

  /** A log call that is past its insert and returns, or will return, this row. */
  ghost predicate Owns(task: Task, row: EntryRow) {
    task.req.Log? && HasReply(task.phase, Logged(LedgerEntry(row, PayloadOf(task.req.payload))))
  }

  /** The rows added since the start belong to the log tasks, one each. */
  ghost predicate WritersOk(n: nat, s: Sys) {
    && |s.db.entries| == n + |s.writers|
    && (forall j | 0 <= j < |s.writers| :: s.writers[j] < |s.tasks| && Owns(s.tasks[s.writers[j]], s.db.entries[n + j]))
    && (forall i, j | 0 <= i < j < |s.writers| :: s.writers[i] != s.writers[j])
    && (forall t | 0 <= t < |s.tasks| && s.tasks[t].req.Log? && HasWritten(s.tasks[t].phase) :: t in s.writers)
  }

  /** Steps that leave tables and writers alone, and a reply once given. */
  lemma QuietWriters(n: nat, s: Sys, t: nat, p: Phase, holder: Option<nat>)
    requires WritersOk(n, s) && t < |s.tasks|
    requires forall r :: HasReply(s.tasks[t].phase, r) && s.tasks[t].req.Log? ==> HasReply(p, r)
    requires s.tasks[t].req.Log? && HasWritten(p) ==> HasWritten(s.tasks[t].phase)
    ensures WritersOk(n, SetPhase(s, t, p).(holder := holder))
  {
    var after := SetPhase(s, t, p).(holder := holder);
    forall j | 0 <= j < |after.writers| ensures Owns(after.tasks[after.writers[j]], after.db.entries[n + j]) {
      assert Owns(s.tasks[s.writers[j]], s.db.entries[n + j]);
    }
  }

  /** The insert of a log call. */
  lemma LogWriters(n: nat, s: Sys, t: nat, row: EntryRow, after: Sys)
    requires WritersOk(n, s) && t < |s.tasks| && s.tasks[t].req.Log? && !HasWritten(s.tasks[t].phase)
    requires forall r :: !HasReply(s.tasks[t].phase, r)
    requires after.db.entries == s.db.entries + [row] && after.writers == s.writers + [t]
    requires after.tasks == s.tasks[t := s.tasks[t].(phase := Written(Logged(LedgerEntry(row, PayloadOf(s.tasks[t].req.payload)))))]
    ensures WritersOk(n, after)
  {
    forall j | 0 <= j < |after.writers|
      ensures after.writers[j] < |after.tasks| && Owns(after.tasks[after.writers[j]], after.db.entries[n + j])
    {
      if j < |s.writers| { assert Owns(s.tasks[s.writers[j]], s.db.entries[n + j]); }
    }
    assert after.writers[|s.writers|] == t;
    forall u | 0 <= u < |after.tasks| && after.tasks[u].req.Log? && HasWritten(after.tasks[u].phase)
      ensures u in after.writers
    {
      if u != t { assert u in s.writers; }
    }
    forall j | 0 <= j < |s.writers| ensures s.writers[j] != t {
      assert Owns(s.tasks[s.writers[j]], s.db.entries[n + j]);
    }
  }

  /** A write that leaves the entries alone. */
  lemma OtherWriters(n: nat, s: Sys, t: nat, reply: Reply, after: Sys)
    requires WritersOk(n, s) && t < |s.tasks| && !s.tasks[t].req.Log?
    requires after.db.entries == s.db.entries && after.writers == s.writers
    requires after.tasks == s.tasks[t := s.tasks[t].(phase := Written(reply))]
    ensures WritersOk(n, after)
  {
    forall j | 0 <= j < |after.writers| ensures Owns(after.tasks[after.writers[j]], after.db.entries[n + j]) {
      assert Owns(s.tasks[s.writers[j]], s.db.entries[n + j]);
    }
  }

  /** The writing stretch of a section. */
  lemma WriteWriters(w: World, n: nat, s: Sys, t: nat, l: Local)
    requires WritersOk(n, s) && IdsFrom1(s.db.entries)
    requires t < |s.tasks| && s.tasks[t].phase == Holding(l)
    requires Fits(s.tasks[t].req, l) && Checked(s.tasks[t].req).None?
    requires Drive(w, s.db, s.tasks[t].req, l) == Drive(w, s.db, s.tasks[t].req, Entered)
    requires Advance(w, s.db, s.tasks[t].req, l).Write?
    ensures WritersOk(n, RunSection(w, s, t, l))
  {
    var req := s.tasks[t].req;
    var r := Advance(w, s.db, req, l);
    if req.Log? {
      LogAlwaysInserts(w, s.db, req, l);
      var row :| r.db == s.db.(entries := s.db.entries + [row]) && r.reply == Logged(LedgerEntry(row, PayloadOf(req.payload)));
      LogWriters(n, s, t, row, RunSection(w, s, t, l));
    } else {
      OthersKeepEntries(w, s.db, req, l);
      OtherWriters(n, s, t, r.reply, RunSection(w, s, t, l));
    }
  }

  lemma SectionWriters(w: World, db0: Db, n: nat, s: Sys, t: nat, l: Local)
    requires SysInv(w, db0, s) && WritersOk(n, s) && IdsFrom1(s.db.entries)
    requires t < |s.tasks| && s.tasks[t].phase == Holding(l)
    requires Fits(s.tasks[t].req, l) && Checked(s.tasks[t].req).None?
    ensures WritersOk(n, RunSection(w, s, t, l))
  {
    var req := s.tasks[t].req;
    assert LocalsOk(w, s.db, s.tasks[t]);
    match Advance(w, s.db, req, l)
    case Continue(next) => QuietWriters(n, s, t, Holding(next), s.holder);
    case Leave(reply) =>
      if req.Log? { LogAlwaysInserts(w, s.db, req, l); }
      QuietWriters(n, s, t, Leaving(reply), s.holder);
    case Write(_, _) => WriteWriters(w, n, s, t, l);
  }

  /** A log call that holds the lock never fails on the primary key. */
  lemma LogAlwaysInserts(w: World, db: Db, req: Request, l: Local)
    requires req.Log? && Fits(req, l) && IdsFrom1(db.entries)
    requires Drive(w, db, req, l) == Drive(w, db, req, Entered)
    ensures match Advance(w, db, req, l)
            case Continue(_) => true
            case Leave(_) => false
            case Write(after, reply) =>
              exists row :: after == db.(entries := db.entries + [row])
                && reply == Logged(LedgerEntry(row, PayloadOf(req.payload)))
  {
    LogEffect(w, db, req);
    var row := MakeEntry(w.crypto, Tip(db.entries), req);
    var r := Advance(w, db, req, l);
    assert !r.Continue? ==> Drive(w, db, req, l).0 == (if r.Write? then r.db else db);
    assert !r.Continue? ==> Drive(w, db, req, l).1 == r.reply;
    assert |db.entries + [row]| == |db.entries| + 1;
  }

  lemma OthersKeepEntries(w: World, db: Db, req: Request, l: Local)
    requires !req.Log? && Fits(req, l) && Checked(req).None?
    ensures var r := Advance(w, db, req, l);
            r.Write? ==> r.db.entries == db.entries
  {}

  lemma StepWriters(w: World, db0: Db, n: nat, s: Sys, e: Event)
    requires SysInv(w, db0, s) && WritersOk(n, s) && IdsFrom1(s.db.entries)
    ensures WritersOk(n, Step(w, s, e))
  {
    match e
    case Spawn(req) =>
      var after := Step(w, s, e);
      forall j | 0 <= j < |after.writers| ensures Owns(after.tasks[after.writers[j]], after.db.entries[n + j]) {
        assert Owns(s.tasks[s.writers[j]], s.db.entries[n + j]);
      }
    case Run(t) =>
      if t < |s.tasks| {
        assert LocalsOk(w, s.db, s.tasks[t]);
        var req := s.tasks[t].req;
        match s.tasks[t].phase {
          case Started =>
            if Checked(req).Some? { QuietWriters(n, s, t, Finished(Raised(Checked(req).value)), s.holder); }
            else if s.holder.None? { QuietWriters(n, s, t, Holding(Entered), Some(t)); }
          case Holding(l) => SectionWriters(w, db0, n, s, t, l);
          case Written(reply) => QuietWriters(n, s, t, Leaving(reply), s.holder);
          case Leaving(reply) => QuietWriters(n, s, t, Released(reply), None);
          case Released(reply) => QuietWriters(n, s, t, Finished(ReadBack(s.db, req, reply)), s.holder);
          case Finished(_) =>
        }
      }
  }

  lemma {:induction false} WritersAlways(w: World, db0: Db, es: seq<Event>)
    requires IdsFrom1(db0.entries)
    ensures WritersOk(|db0.entries|, Schedule(w, Init(db0), es))
    decreases |es|
  {
    if es == [] {
    } else {
      var init := es[..|es| - 1];
      WritersAlways(w, db0, init);
      EveryInterleavingIsSerial(w, db0, init);
      LaterExtendsEarlier(w, db0, init, []);
      StepWriters(w, db0, |db0.entries|, Schedule(w, Init(db0), init), es[|es| - 1]);
    }
  }

  /** A log call past its insert has its row in the table, and never an error. */
  lemma LogOwnsRow(w: World, db0: Db, es: seq<Event>, t: nat) returns (k: nat)
    requires IdsFrom1(db0.entries)
    requires var s := Schedule(w, Init(db0), es);
             t < |s.tasks| && s.tasks[t].req.Log? && HasWritten(s.tasks[t].phase)
    ensures var s := Schedule(w, Init(db0), es);
            |db0.entries| <= k < |s.db.entries| && Owns(s.tasks[t], s.db.entries[k])
  {
    var s := Schedule(w, Init(db0), es);
    WritersAlways(w, db0, es);
    var j :| 0 <= j < |s.writers| && s.writers[j] == t;
    k := |db0.entries| + j;
  }

  /** Every row added since the start belongs to exactly one log call. */
  lemma RowHasOneOwner(w: World, db0: Db, es: seq<Event>, k: nat) returns (t: nat)
    requires IdsFrom1(db0.entries)
    requires |db0.entries| <= k < |Schedule(w, Init(db0), es).db.entries|
    ensures var s := Schedule(w, Init(db0), es);
            && t < |s.tasks| && Owns(s.tasks[t], s.db.entries[k])
            && forall u | 0 <= u < |s.tasks| && Owns(s.tasks[u], s.db.entries[k]) :: u == t
  {
    var s := Schedule(w, Init(db0), es);
    WritersAlways(w, db0, es);
    LaterExtendsEarlier(w, db0, es, []);
    var j := k - |db0.entries|;
    t := s.writers[j];
    assert Owns(s.tasks[t], s.db.entries[|db0.entries| + j]);
    forall u | 0 <= u < |s.tasks| && Owns(s.tasks[u], s.db.entries[k]) ensures u == t {
      OneOwner(|db0.entries|, s, u, k);
    }
  }

  /** A log call owns no second row. */
  lemma OwnedRowIsUnique(w: World, db0: Db, es: seq<Event>, t: nat, k: nat, m: nat)
    requires IdsFrom1(db0.entries)
    requires var s := Schedule(w, Init(db0), es);
             t < |s.tasks| && k < |s.db.entries| && m < |s.db.entries|
             && Owns(s.tasks[t], s.db.entries[k]) && Owns(s.tasks[t], s.db.entries[m])
    ensures k == m
  {
    LaterExtendsEarlier(w, db0, es, []);
    var rows := Schedule(w, Init(db0), es).db.entries;
    assert rows[k].entryId == k + 1 && rows[m].entryId == m + 1;
  }

  lemma OneOwner(n: nat, s: Sys, t: nat, k: nat)
    requires WritersOk(n, s) && IdsFrom1(s.db.entries)
    requires t < |s.tasks| && n <= k < |s.db.entries| && Owns(s.tasks[t], s.db.entries[k])
    ensures t == s.writers[k - n]
  {
    assert HasWritten(s.tasks[t].phase);
    var j :| 0 <= j < |s.writers| && s.writers[j] == t;
    assert Owns(s.tasks[t], s.db.entries[n + j]);
    assert s.db.entries[k].entryId == s.db.entries[n + j].entryId;
  }
}
