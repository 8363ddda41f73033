/** The condition of module NoRace is exact: a batch that is not safe, or deletes a file twice, has
    a schedule without any fault that leaves a count wrong, and one that ends in a store that is
    not clean. */
module NoRaceExactly {
  import opened Wrappers
  import opened Model
  import opened Schema
  import opened Protocol
  import opened Machine
  import opened Bound
  import opened Refinement
  import opened Clean
  import opened Safety
  import opened SafetyRuns
  import opened SafetyExactly
  import opened NoRace
  import opened NoRaceRuns
  import Solo

  // ---------- what any reachable state keeps ----------

  lemma ReachedInv(sha: Bytes -> Hash, sys: System, now: System)
    requires Calls(sha, sys.store, sys.procs) && AtStart(sys) && Reaches(sha, sys, now)
    ensures Inv(sha, now) && NoLeak(now.procs) && Faultless(now.procs)
  {
    CleanIsSound(sha, sys.store);
    ReadyHasInv(sha, sys);
    var schedule :| Interleave(sha, sys, schedule) == now;
    InterleavingKeepsInv(sha, sys, schedule);
    FaultlessLeaksNothing(sha, sys, schedule);
    InterleavingKeepsJobs(sha, sys, schedule);
  }

  /** Everybody but `u` owes nothing. */
  ghost predicate IdleBut(procs: map<nat, Proc>, u: nat) {
    forall i :: i in procs && i != u ==> procs[i].debt == Nothing
  }

  /** A process that is at its end, or waits before a look-up, a clean-up or a raise, owes nothing. */
  lemma ParkedIsIdle(sha: Bytes -> Hash, sys: System, now: System, u: nat)
    requires Calls(sha, sys.store, sys.procs) && AtStart(sys) && Reaches(sha, sys, now)
    requires now.procs.Keys == sys.procs.Keys
    requires forall i :: i in sys.procs && i != u ==> Parked(sys.procs[i], now.procs[i])
    ensures IdleBut(now.procs, u)
  {
    ReachedInv(sha, sys, now);
    forall i | i in now.procs && i != u
      ensures now.procs[i].debt == Nothing
    {
      assert Parked(sys.procs[i], now.procs[i]) && WellFormed(sha, now.procs[i]);
    }
  }

  // ---------- damage ----------

  /** A count below its files, claims included; or a file without bytes that nobody will delete. */
  datatype Damage =
    | Low(hash: Hash)
    | Blank(hash: Hash, id: string, path: string)

  ghost predicate CountsLow(now: System, h: Hash) {
    h in now.store.db.rows && Surplus(now.store.db, h) < |Owing(now.procs, h)|
  }

  ghost predicate BlankForGood(now: System, h: Hash, v: string, path: string) {
    && v in now.store.db.files && now.store.db.files[v].hash == h
    && h in now.store.db.rows && now.store.db.rows[h].path == path && path !in now.store.blobs
    && AllHarmless(now, v, path)
  }

  /** The process does not write that path, and does not delete that file. */
  predicate Harmless(p: Proc, v: string, path: string) {
    p.at == Finished || (if p.job.UploadJob? then p.job.args.path != path else p.job.id != v)
  }

  ghost predicate AllHarmless(now: System, v: string, path: string) {
    forall i :: i in now.procs ==> Harmless(now.procs[i], v, path)
  }

  ghost predicate Damaged(d: Damage, now: System, u: nat) {
    match d
    case Low(h) => CountsLow(now, h) && IdleBut(now.procs, u)
    case Blank(h, v, path) => BlankForGood(now, h, v, path)
  }

  /** With nobody owing a low count, the guarded DELETE does not find its row at zero and unused. */
  lemma LowIsNotRemoved(now: System, h: Hash)
    requires CountsLow(now, h) && Owing(now.procs, h) == {}
    ensures DeleteStorage(now.store.db, h) == now.store.db
  {
    NoFilesIffUnreferenced(now.store.db, h);
  }

  lemma StepKeepsRow(sha: Bytes -> Hash, s: Store, p: Proc, h: Hash)
    requires WellFormed(sha, p) && p.at != Finished && h in s.db.rows
    requires p.at in {UndoRow, RemoveRow} ==> DeleteStorage(s.db, h) == s.db
    ensures h in Step(sha, s, p).0.db.rows
  {
  }

  lemma LowRowStays(sha: Bytes -> Hash, now: System, i: nat, h: Hash)
    requires Inv(sha, now) && NoLeak(now.procs) && i in now.procs && now.procs[i].at != Finished
    requires CountsLow(now, h) && IdleBut(now.procs, i)
    ensures h in Step(sha, now.store, now.procs[i]).0.db.rows
  {
    var p := now.procs[i];
    if p.at in {UndoRow, RemoveRow} {
      assert Owing(now.procs, h) == {};
      LowIsNotRemoved(now, h);
    }
    StepKeepsRow(sha, now.store, p, h);
  }

  lemma LowStays(sha: Bytes -> Hash, now: System, i: nat, h: Hash)
    requires Inv(sha, now) && NoLeak(now.procs) && i in now.procs && now.procs[i].at != Finished
    requires CountsLow(now, h) && IdleBut(now.procs, i)
    ensures CountsLow(Turn(sha, now, i), h)
  {
    var p := now.procs[i];
    assert OwnFile(now.store.db, p);
    LowRowStays(sha, now, i, h);
    OwingAfter(now.procs, i, Step(sha, now.store, p).1, h);
    if p.job.UploadJob? {
      UploadStepPays(sha, now.store, p, h);
    } else {
      DeleteStepPays(sha, now.store, p, h);
    }
  }

  lemma BlankUnderStep(sha: Bytes -> Hash, s: Store, p: Proc, h: Hash, v: string, path: string)
    requires WellFormed(sha, p) && p.at != Finished && p.faults == {}
    requires v in s.db.files && s.db.files[v].hash == h
    requires h in s.db.rows && s.db.rows[h].path == path && path !in s.blobs
    requires Harmless(p, v, path)
    ensures var s' := Step(sha, s, p).0;
            && v in s'.db.files && s'.db.files[v].hash == h
            && h in s'.db.rows && s'.db.rows[h].path == path && path !in s'.blobs
  {
  }

  lemma BlankStays(sha: Bytes -> Hash, now: System, i: nat, h: Hash, v: string, path: string)
    requires AllWellFormed(sha, now) && Faultless(now.procs) && i in now.procs && now.procs[i].at != Finished
    requires BlankForGood(now, h, v, path)
    ensures BlankForGood(Turn(sha, now, i), h, v, path)
  {
    StepAdvances(sha, now.store, now.procs[i]);
    BlankUnderStep(sha, now.store, now.procs[i], h, v, path);
  }

  lemma DamageStays(sha: Bytes -> Hash, sys: System, now: System, i: nat, d: Damage)
    requires Calls(sha, sys.store, sys.procs) && AtStart(sys) && Reaches(sha, sys, now) && AllWellFormed(sha, now)
    requires i in now.procs && now.procs[i].at != Finished && Damaged(d, now, i)
    ensures Damaged(d, Turn(sha, now, i), i)
  {
    ReachedInv(sha, sys, now);
    match d {
      case Low(h) => LowStays(sha, now, i, h);
      case Blank(h, v, path) => BlankStays(sha, now, i, h, v, path);
    }
  }

  // ---------- finishing all calls, one by one ----------

  lemma {:induction false} RunOut(sha: Bytes -> Hash, sys: System, now: System, u: nat, d: Damage)
    returns (next: System)
    requires Calls(sha, sys.store, sys.procs) && AtStart(sys) && Reaches(sha, sys, now)
    requires u in now.procs && Damaged(d, now, u)
    ensures Reaches(sha, sys, next) && Damaged(d, next, u)
    ensures u in next.procs && next.procs == now.procs[u := next.procs[u]] && next.procs[u].at == Finished
    decreases Ahead(now.procs[u].at)
  {
    if now.procs[u].at == Finished {
      next := now;
      assert now.procs[u := now.procs[u]] == now.procs;
    } else {
      var moved := MovesDamaged(sha, sys, now, u, d);
      next := RunOut(sha, sys, moved, u, d);
    }
  }

  lemma MovesDamaged(sha: Bytes -> Hash, sys: System, now: System, u: nat, d: Damage) returns (next: System)
    requires Calls(sha, sys.store, sys.procs) && AtStart(sys) && Reaches(sha, sys, now)
    requires u in now.procs && now.procs[u].at != Finished && Damaged(d, now, u)
    ensures Reaches(sha, sys, next) && Damaged(d, next, u)
    ensures u in next.procs && next.procs == now.procs[u := next.procs[u]]
    ensures Ahead(next.procs[u].at) < Ahead(now.procs[u].at)
  {
    ReachesTurn(sha, sys, now, u);
    StepAdvances(sha, now.store, now.procs[u]);
    DamageStays(sha, sys, now, u, d);
    next := Turn(sha, now, u);
  }

  /** Once a process has ended, all may be counted on. */
  lemma NextMayRun(sha: Bytes -> Hash, sys: System, now: System, u: nat, d: Damage, i: nat)
    requires Calls(sha, sys.store, sys.procs) && AtStart(sys) && Reaches(sha, sys, now)
    requires u in now.procs && Damaged(d, now, u) && now.procs[u].at == Finished
    ensures Damaged(d, now, i)
  {
    ReachedInv(sha, sys, now);
    assert WellFormed(sha, now.procs[u]);
  }

  ghost function Unfinished(now: System): set<nat> {
    set i | i in now.procs && now.procs[i].at != Finished
  }

  lemma OneLess(now: System, next: System, i: nat)
    requires i in Unfinished(now) && i in next.procs && next.procs == now.procs[i := next.procs[i]]
    requires next.procs[i].at == Finished
    ensures Unfinished(next) == Unfinished(now) - {i}
    ensures forall k :: k in now.procs && k != i ==> next.procs[k] == now.procs[k]
  {
  }

  lemma {:induction false} FinishAll(sha: Bytes -> Hash, sys: System, now: System, u: nat, d: Damage)
    returns (end: System)
    requires Calls(sha, sys.store, sys.procs) && AtStart(sys) && Reaches(sha, sys, now)
    requires u in now.procs && Damaged(d, now, u) && now.procs[u].at == Finished
    ensures Reaches(sha, sys, end) && Quiescent(end) && u in end.procs && Damaged(d, end, u)
    decreases |Unfinished(now)|
  {
    if Unfinished(now) == {} {
      end := now;
      assert forall i :: i in now.procs ==> i !in Unfinished(now);
    } else {
      var i :| i in Unfinished(now);
      NextMayRun(sha, sys, now, u, d, i);
      var next := RunOut(sha, sys, now, i, d);
      OneLess(now, next, i);
      NextMayRun(sha, sys, next, i, d, u);
      end := FinishAll(sha, sys, next, u, d);
    }
  }

  lemma DamagedIsNotClean(sha: Bytes -> Hash, sys: System, end: System, u: nat, d: Damage)
    requires Calls(sha, sys.store, sys.procs) && AtStart(sys) && Reaches(sha, sys, end)
    requires Quiescent(end) && u in end.procs && Damaged(d, end, u)
    ensures !IsClean(sha, end.store)
  {
    match d {
      case Low(h) =>
        NextMayRun(sha, sys, end, u, d, u);
        ReachedInv(sha, sys, end);
        forall i | i in end.procs
          ensures !end.procs[i].Owes(h)
        {
          assert WellFormed(sha, end.procs[i]);
        }
        assert Owing(end.procs, h) == {};
      case Blank(h, v, path) =>
        assert !RowBacked(sha, end.store, h);
    }
  }

  // ---------- damage by a victim that is not spared ----------

  /** On the brink of a file of the start the count is low. */
  lemma BrinkCountsLow(sha: Bytes -> Hash, sys: System, now: System, h: Hash, v: string, d: nat)
    requires Calls(sha, sys.store, sys.procs) && AtStart(sys) && Brink(sha, sys, now, h, v, d)
    requires FilesOf(now.store.db, h) != {}
    ensures CountsLow(now, h) && IdleBut(now.procs, d)
  {
    ParkedIsIdle(sha, sys, now, d);
  }

  /** The clean-up of an unused hash at zero removes its row. */
  lemma RowGoes(sha: Bytes -> Hash, sys: System, now: System, h: Hash, d: nat) returns (next: System)
    requires Reaches(sha, sys, now) && d in now.procs && AboutToClean(now.procs[d], h)
    requires h in now.store.db.rows && now.store.db.rows[h].count == 0 && FilesOf(now.store.db, h) == {}
    ensures Reaches(sha, sys, next) && h !in next.store.db.rows && next.store.db.files == now.store.db.files
    ensures next.procs.Keys == now.procs.Keys
    ensures forall i :: i in now.procs && i != d ==> next.procs[i] == now.procs[i]
  {
    NoFilesIffUnreferenced(now.store.db, h);
    var found := Moves(sha, sys, now, d);
    assert found.store == now.store && found.procs[d].at == DropContent;
    var dropped := Moves(sha, sys, found, d);
    assert dropped.store.db == now.store.db && dropped.procs[d].at == RemoveRow;
    next := Moves(sha, sys, dropped, d);
  }

  /** An upload on its way raises the count of a row that has gone, and is owed for nothing. */
  lemma RaisesNothing(sha: Bytes -> Hash, sys: System, now: System, h: Hash, v: string) returns (next: System)
    requires Reaches(sha, sys, now) && OnItsWay(sha, now, h, v)
    requires h !in now.store.db.rows && FilesOf(now.store.db, h) == {}
    ensures Reaches(sha, sys, next) && !Exact(next, h)
  {
    var u :| u in now.procs && Carries(sha, now.procs[u].job, h) && now.procs[u].job.args.id == v
             && AboutToRaise(now.procs[u], now.procs[u].job.args, h);
    next := Moves(sha, sys, now, u);
    assert next.store.db.files == now.store.db.files && FilesOf(next.store.db, h) == {};
    assert u in Owing(next.procs, h);
  }

  lemma UnsparedIsInexact(sha: Bytes -> Hash, sys: System, h: Hash, v: string, us: set<nat>) returns (now: System)
    requires Calls(sha, sys.store, sys.procs) && AtStart(sys)
    requires Victim(sha, sys.store, sys.procs, h, v) && us <= Carriers(sha, sys.procs, h)
    requires !Spares(sys.store, sys.procs, h, v, us)
    ensures Reaches(sha, sys, now) && !Exact(now, h)
  {
    var brink, d := ToTheBrink(sha, sys, h, v, us);
    if FilesOf(brink.store.db, h) != {} {
      BrinkCountsLow(sha, sys, brink, h, v, d);
      now := brink;
    } else {
      var gone := RowGoes(sha, sys, brink, h, d);
      StillOnItsWay(sha, brink, gone, h, v);
      now := RaisesNothing(sha, sys, gone, h, v);
    }
  }

  lemma StillOnItsWay(sha: Bytes -> Hash, now: System, next: System, h: Hash, v: string)
    requires OnItsWay(sha, now, h, v) && next.store.db.files == now.store.db.files
    requires next.procs.Keys == now.procs.Keys
    requires forall i :: i in now.procs && now.procs[i].job.UploadJob? ==> next.procs[i] == now.procs[i]
    ensures OnItsWay(sha, next, h, v)
  {
    var u :| u in now.procs && Carries(sha, now.procs[u].job, h) && now.procs[u].job.args.id == v
             && AboutToRaise(now.procs[u], now.procs[u].job.args, h);
    assert next.procs[u] == now.procs[u];
  }

  // ---------- an upload that is lost for good ----------

  ghost function DeletersLeft(now: System, v: string): set<nat> {
    set i | i in now.procs && now.procs[i].job.DeleteJob? && now.procs[i].job.id == v && now.procs[i].at != Finished
  }

  /** The deletes of a file that is not there yet find nothing. */
  lemma {:induction false} DeletersPass(sha: Bytes -> Hash, sys: System, now: System, v: string) returns (next: System)
    requires Reaches(sha, sys, now) && v !in now.store.db.files
    requires forall i :: i in DeletersLeft(now, v) ==> now.procs[i] == Begin(now.procs[i].job, {})
    ensures Reaches(sha, sys, next) && next.store == now.store && next.procs.Keys == now.procs.Keys
    ensures DeletersLeft(next, v) == {}
    ensures forall i :: i in now.procs ==> next.procs[i].job == now.procs[i].job
    ensures forall i :: i in now.procs && i !in DeletersLeft(now, v) ==> next.procs[i] == now.procs[i]
    decreases |DeletersLeft(now, v)|
  {
    if DeletersLeft(now, v) == {} {
      next := now;
    } else {
      var i :| i in DeletersLeft(now, v);
      var passed := DeleterPasses(sha, sys, now, v, i);
      next := DeletersPass(sha, sys, passed, v);
    }
  }

  lemma DeleterPasses(sha: Bytes -> Hash, sys: System, now: System, v: string, i: nat) returns (passed: System)
    requires Reaches(sha, sys, now) && v !in now.store.db.files && i in DeletersLeft(now, v)
    requires now.procs[i] == Begin(now.procs[i].job, {})
    ensures Reaches(sha, sys, passed) && passed.store == now.store && passed.procs.Keys == now.procs.Keys
    ensures DeletersLeft(passed, v) == DeletersLeft(now, v) - {i} && passed.procs[i].job == now.procs[i].job
    ensures forall k :: k in now.procs && k != i ==> passed.procs[k] == now.procs[k]
  {
    passed := Moves(sha, sys, now, i);
    FindsNothing(sha, now.store, now.procs[i]);
  }

  lemma FindsNothing(sha: Bytes -> Hash, s: Store, p: Proc)
    requires p == Begin(p.job, {}) && p.job.DeleteJob? && p.job.id !in s.db.files && WellFormed(sha, p)
    ensures Step(sha, s, p) == (s, p.Finish(Failure(NotFound)))
  {
  }

  /** On the brink only deletes of the victim could undo the damage. */
  lemma BrinkIsHarmless(sha: Bytes -> Hash, sys: System, brink: System, h: Hash, v: string, d: nat, i: nat)
    requires Calls(sha, sys.store, sys.procs) && AtStart(sys) && Brink(sha, sys, brink, h, v, d)
    requires i in brink.procs && i !in DeletersLeft(brink, v)
    ensures Harmless(brink.procs[i], v, brink.store.db.rows[h].path)
  {
    ReachedJobs(sha, sys, brink);
  }

  lemma PassedIsHarmless(sha: Bytes -> Hash, sys: System, brink: System, passed: System, h: Hash, v: string, d: nat)
    requires Calls(sha, sys.store, sys.procs) && AtStart(sys) && Brink(sha, sys, brink, h, v, d)
    requires passed.procs.Keys == brink.procs.Keys && DeletersLeft(passed, v) == {}
    requires forall k :: k in brink.procs ==> passed.procs[k].job == brink.procs[k].job
    requires forall k :: k in brink.procs && k !in DeletersLeft(brink, v) ==> passed.procs[k] == brink.procs[k]
    ensures AllHarmless(passed, v, brink.store.db.rows[h].path)
    ensures d !in DeletersLeft(brink, v) && passed.procs[d].job.id != v
  {
    CleanerIsOther(sha, sys, brink, h, v, d);
    forall k | k in passed.procs
      ensures Harmless(passed.procs[k], v, brink.store.db.rows[h].path)
    {
      if k in DeletersLeft(brink, v) {
        assert k !in DeletersLeft(passed, v);
      } else {
        BrinkIsHarmless(sha, sys, brink, h, v, d, k);
      }
    }
  }

  lemma CleanerIsOther(sha: Bytes -> Hash, sys: System, brink: System, h: Hash, v: string, d: nat)
    requires AtStart(sys) && Brink(sha, sys, brink, h, v, d)
    ensures brink.procs[d].job.id != v
  {
    ReachedJobs(sha, sys, brink);
  }

  /** The brink, with all deletes of the victim past. */
  lemma ToPassed(sha: Bytes -> Hash, sys: System, h: Hash, v: string, us: set<nat>)
    returns (passed: System, d: nat, path: string)
    requires Calls(sha, sys.store, sys.procs) && AtStart(sys) && v !in FilesOf(sys.store.db, h)
    requires Victim(sha, sys.store, sys.procs, h, v) && us <= Carriers(sha, sys.procs, h)
    requires !Spares(sys.store, sys.procs, h, v, us)
    ensures Reaches(sha, sys, passed) && OnItsWay(sha, passed, h, v) && AllHarmless(passed, v, path)
    ensures h in passed.store.db.rows && passed.store.db.rows[h].path == path
    ensures d in passed.procs && AboutToClean(passed.procs[d], h) && passed.procs[d].job.id != v
  {
    var brink;
    brink, d := ToTheBrink(sha, sys, h, v, us);
    path := brink.store.db.rows[h].path;
    assert forall i :: i in DeletersLeft(brink, v) ==> i in sys.procs && brink.procs[i] == sys.procs[i];
    passed := DeletersPass(sha, sys, brink, v);
    PassedIsHarmless(sha, sys, brink, passed, h, v, d);
    StillOnItsWay(sha, brink, passed, h, v);
  }

  lemma UnsparedUploadIsBlank(sha: Bytes -> Hash, sys: System, h: Hash, v: string, us: set<nat>)
    returns (now: System, d: nat, path: string)
    requires Calls(sha, sys.store, sys.procs) && AtStart(sys) && v !in FilesOf(sys.store.db, h)
    requires Victim(sha, sys.store, sys.procs, h, v) && us <= Carriers(sha, sys.procs, h)
    requires !Spares(sys.store, sys.procs, h, v, us)
    ensures Reaches(sha, sys, now) && d in now.procs && BlankForGood(now, h, v, path)
  {
    var passed;
    passed, d, path := ToPassed(sha, sys, h, v, us);
    var attached := Attaches(sha, sys, passed, h, v, d);
    now := CleansUp(sha, sys, attached, d, h, v);
    StillHarmless(passed, attached, now, v, path, d);
  }

  lemma StillHarmless(passed: System, attached: System, now: System, v: string, path: string, d: nat)
    requires AllHarmless(passed, v, path) && d in passed.procs && passed.procs[d].job.DeleteJob?
    requires attached.procs.Keys == passed.procs.Keys && attached.procs[d] == passed.procs[d]
    requires passed.procs[d].job.id != v
    requires forall k :: k in passed.procs ==>
               attached.procs[k] == passed.procs[k]
               || (attached.procs[k].at == Finished && attached.procs[k].job == passed.procs[k].job)
    requires d in now.procs && now.procs == attached.procs[d := now.procs[d]]
    requires now.procs[d].job == attached.procs[d].job
    ensures AllHarmless(now, v, path)
  {
  }

  // ---------- damage by a double delete ----------

  /** The file is there, its row counts its files, and both deletes are about to start. */
  ghost predicate Doubled(now: System, h: Hash, v: string, i: nat, j: nat) {
    && v in FilesOf(now.store.db, h) && h in now.store.db.rows && Surplus(now.store.db, h) == 0
    && i != j && i in now.procs && j in now.procs
    && now.procs[i].job.DeleteJob? && now.procs[i].job.id == v && now.procs[i] == Begin(now.procs[i].job, {})
    && now.procs[j].job.DeleteJob? && now.procs[j].job.id == v && now.procs[j] == Begin(now.procs[j].job, {})
  }

  /** A delete that has found its file and is about to remove or to release it. */
  predicate FoundIt(p: Proc, h: Hash, v: string, at: Point) {
    p.job.DeleteJob? && p.job.id == v && p.at == at && p.hash == Some(h) && p.faults == {}
  }

  /** Only these two have moved. */
  ghost predicate OnlyTwo(b: System, now: System, i: nat, j: nat) {
    && now.procs.Keys == b.procs.Keys && i in now.procs && j in now.procs
    && forall k :: k in b.procs && k != i && k != j ==> now.procs[k] == b.procs[k]
  }

  lemma BothFind(sha: Bytes -> Hash, sys: System, b: System, h: Hash, v: string, i: nat, j: nat)
    returns (now: System)
    requires Reaches(sha, sys, b) && Doubled(b, h, v, i, j)
    ensures Reaches(sha, sys, now) && now.store == b.store && OnlyTwo(b, now, i, j)
    ensures FoundIt(now.procs[i], h, v, RemoveFile) && FoundIt(now.procs[j], h, v, RemoveFile)
  {
    var one := Moves(sha, sys, b, i);
    now := Moves(sha, sys, one, j);
  }

  lemma BothRemove(sha: Bytes -> Hash, sys: System, b: System, h: Hash, v: string, i: nat, j: nat)
    returns (now: System)
    requires Reaches(sha, sys, b) && v in FilesOf(b.store.db, h) && i != j && i in b.procs && j in b.procs
    requires FoundIt(b.procs[i], h, v, RemoveFile) && FoundIt(b.procs[j], h, v, RemoveFile)
    ensures Reaches(sha, sys, now) && OnlyTwo(b, now, i, j)
    ensures now.store.db.rows == b.store.db.rows && Surplus(now.store.db, h) == Surplus(b.store.db, h) + 1
    ensures FoundIt(now.procs[i], h, v, ReleaseCount) && FoundIt(now.procs[j], h, v, ReleaseCount)
  {
    SurplusOfDeleteFile(b.store.db, v, h);
    var one := Moves(sha, sys, b, i);
    assert one.store.db == DeleteFile(b.store.db, v);
    now := Moves(sha, sys, one, j);
    assert now.store.db.files == one.store.db.files;
    assert now.store.db == one.store.db;
  }

  lemma BothRelease(sha: Bytes -> Hash, sys: System, b: System, h: Hash, v: string, i: nat, j: nat)
    returns (now: System)
    requires Reaches(sha, sys, b) && h in b.store.db.rows && i != j && i in b.procs && j in b.procs
    requires FoundIt(b.procs[i], h, v, ReleaseCount) && FoundIt(b.procs[j], h, v, ReleaseCount)
    ensures Reaches(sha, sys, now) && OnlyTwo(b, now, i, j)
    ensures h in now.store.db.rows && Surplus(now.store.db, h) == Surplus(b.store.db, h) - 2
    ensures now.procs[i].at in {Finished, FindPath} && now.procs[j].at in {Finished, FindPath}
  {
    var one := Moves(sha, sys, b, i);
    SurplusOfAddToCount(b.store.db, h, -1, b.procs[i].job.now, h);
    assert one.store.db == AddToCount(b.store.db, h, -1, b.procs[i].job.now);
    now := Moves(sha, sys, one, j);
    SurplusOfAddToCount(one.store.db, h, -1, one.procs[j].job.now, h);
    assert now.store.db == AddToCount(one.store.db, h, -1, one.procs[j].job.now);
  }

  lemma BothDelete(sha: Bytes -> Hash, sys: System, b: System, h: Hash, v: string, i: nat, j: nat)
    returns (now: System)
    requires Reaches(sha, sys, b) && Doubled(b, h, v, i, j)
    ensures Reaches(sha, sys, now) && OnlyTwo(b, now, i, j)
    ensures h in now.store.db.rows && Surplus(now.store.db, h) == -1
    ensures now.procs[i].at in {Finished, FindPath} && now.procs[j].at in {Finished, FindPath}
  {
    var found := BothFind(sha, sys, b, h, v, i, j);
    var removed := BothRemove(sha, sys, found, h, v, i, j);
    now := BothRelease(sha, sys, removed, h, v, i, j);
  }

  lemma DoubledCountsLow(sha: Bytes -> Hash, sys: System, b: System, h: Hash, v: string, i: nat, j: nat)
    returns (now: System)
    requires Calls(sha, sys.store, sys.procs) && AtStart(sys) && Reaches(sha, sys, b) && Doubled(b, h, v, i, j)
    requires forall k :: k in sys.procs ==> k in b.procs && Parked(sys.procs[k], b.procs[k])
    ensures Reaches(sha, sys, now) && i in now.procs && CountsLow(now, h) && IdleBut(now.procs, i)
  {
    now := BothDelete(sha, sys, b, h, v, i, j);
    ReachedJobs(sha, sys, now);
    ReachedJobs(sha, sys, b);
    TwoAreParked(sys, b, now, i, j);
    ParkedIsIdle(sha, sys, now, i);
  }

  lemma TwoAreParked(sys: System, b: System, now: System, i: nat, j: nat)
    requires OnlyTwo(b, now, i, j) && now.procs.Keys == sys.procs.Keys
    requires forall k :: k in sys.procs ==> now.procs[k].job == sys.procs[k].job
    requires forall k :: k in sys.procs ==> k in b.procs && Parked(sys.procs[k], b.procs[k])
    requires now.procs[i].at in {Finished, FindPath} && now.procs[j].at in {Finished, FindPath}
    ensures forall k :: k in sys.procs ==> Parked(sys.procs[k], now.procs[k])
  {
  }

  /** Where the file is there: at the start, or when its upload has run alone. */
  lemma ToDoubled(sha: Bytes -> Hash, sys: System, h: Hash, v: string, i: nat, j: nat) returns (b: System)
    requires Calls(sha, sys.store, sys.procs) && AtStart(sys) && Victim(sha, sys.store, sys.procs, h, v)
    requires i != j && Deletes(sys.procs, i, v) && Deletes(sys.procs, j, v)
    ensures Reaches(sha, sys, b) && Doubled(b, h, v, i, j)
    ensures forall k :: k in sys.procs ==> k in b.procs && Parked(sys.procs[k], b.procs[k])
  {
    StartReaches(sha, sys);
    if v in FilesOf(sys.store.db, h) {
      b := sys;
      IsDoubled(sha, b, h, v, i, j);
    } else {
      b := UploadsFirst(sha, sys, h, v, i, j);
    }
  }

  lemma UploadsFirst(sha: Bytes -> Hash, sys: System, h: Hash, v: string, i: nat, j: nat) returns (b: System)
    requires Calls(sha, sys.store, sys.procs) && AtStart(sys) && Reaches(sha, sys, sys)
    requires Uploads(sha, sys.procs, h, v)
    requires i != j && Deletes(sys.procs, i, v) && Deletes(sys.procs, j, v)
    ensures Reaches(sha, sys, b) && Doubled(b, h, v, i, j)
    ensures forall k :: k in sys.procs ==> k in b.procs && Parked(sys.procs[k], b.procs[k])
  {
    var u :| u in Carriers(sha, sys.procs, h) && sys.procs[u].job.args.id == v;
    b := UploadedAlone(sha, sys, u);
    assert b.procs[i] == sys.procs[i] && b.procs[j] == sys.procs[j];
    IsDoubled(sha, b, h, v, i, j);
  }

  lemma IsDoubled(sha: Bytes -> Hash, b: System, h: Hash, v: string, i: nat, j: nat)
    requires IsClean(sha, b.store) && v in b.store.db.files && b.store.db.files[v].hash == h
    requires i != j && i in b.procs && j in b.procs
    requires b.procs[i].job.DeleteJob? && b.procs[i].job.id == v && b.procs[i] == Begin(b.procs[i].job, {})
    requires b.procs[j].job.DeleteJob? && b.procs[j].job.id == v && b.procs[j] == Begin(b.procs[j].job, {})
    ensures Doubled(b, h, v, i, j)
  {
    CleanIsSound(sha, b.store);
  }

  lemma UploadedAlone(sha: Bytes -> Hash, sys: System, u: nat) returns (b: System)
    requires Calls(sha, sys.store, sys.procs) && AtStart(sys) && Reaches(sha, sys, sys)
    requires u in sys.procs && sys.procs[u].job.UploadJob? && sys.procs[u].job.args.accepted
    ensures var a := sys.procs[u].job.args;
            && Reaches(sha, sys, b) && IsClean(sha, b.store)
            && a.id in b.store.db.files && b.store.db.files[a.id].hash == sha(a.content)
            && sha(a.content) in b.store.db.rows
    ensures u in b.procs && b.procs == sys.procs[u := b.procs[u]]
    ensures b.procs[u].at == Finished && b.procs[u].job == sys.procs[u].job
  {
    var a := sys.procs[u].job.args;
    b := Finishes(sha, sys, sys, u);
    AloneFinishes(sha, sys.store, sys.procs[u]);
    assert sys.procs[u] == Begin(UploadJob(a), {});
    Solo.UploadAlone(sha, sys.store, a, {});
    UnusedPathIsFree(sha, sys.store, a.path);
    UploadClosedForm(sha, sys.store, a);
    CleanKept(sha, sys.store, UploadOp(a, {}));
  }

  // ---------- exactly ----------

  /** In every reachable state every count is its files plus the claims on their way. */
  ghost predicate AlwaysExact(sha: Bytes -> Hash, sys: System)
    requires AllWellFormed(sha, sys)
  {
    forall schedule, h :: Exact(Interleave(sha, sys, schedule), h)
  }

  ghost predicate EndsWell(sha: Bytes -> Hash, now: System) {
    Quiescent(now) ==> IsClean(sha, now.store)
  }

  /** Every interleaving in which all calls return ends in a clean store. */
  ghost predicate AlwaysEndsClean(sha: Bytes -> Hash, sys: System)
    requires AllWellFormed(sha, sys)
  {
    forall schedule :: EndsWell(sha, Interleave(sha, sys, schedule))
  }

  lemma UntidyIsInexact(sha: Bytes -> Hash, sys: System) returns (now: System, h: Hash)
    requires Calls(sha, sys.store, sys.procs) && AtStart(sys) && !Tidy(sha, sys.store, sys.procs)
    ensures Reaches(sha, sys, now) && !Exact(now, h)
  {
    if !Safe(sha, sys.store, sys.procs) {
      var g: Hash, v: string, us: set<nat> :|
        Victim(sha, sys.store, sys.procs, g, v) && us <= Carriers(sha, sys.procs, g)
        && !Spares(sys.store, sys.procs, g, v, us);
      h := g;
      now := UnsparedIsInexact(sha, sys, g, v, us);
    } else {
      var i, j, g, v :| Victim(sha, sys.store, sys.procs, g, v) && Deletes(sys.procs, i, v) && Deletes(sys.procs, j, v)
                        && i != j;
      h := g;
      var b := ToDoubled(sha, sys, g, v, i, j);
      now := DoubledCountsLow(sha, sys, b, g, v, i, j);
    }
  }

  /** Counts are exact in every reachable state if and only if the batch is safe and deletes no file twice. */
  lemma CountsExactly(sha: Bytes -> Hash, sys: System)
    requires Calls(sha, sys.store, sys.procs) && AtStart(sys)
    ensures AllWellFormed(sha, sys)
    ensures AlwaysExact(sha, sys) <==> Tidy(sha, sys.store, sys.procs)
  {
    StartIsWellFormed(sha, sys);
    if Tidy(sha, sys.store, sys.procs) {
      forall schedule, h
        ensures Exact(Interleave(sha, sys, schedule), h)
      {
        StaysSteady(sha, sys, schedule);
      }
    } else {
      var now, h := UntidyIsInexact(sha, sys);
      var schedule :| Interleave(sha, sys, schedule) == now;
      assert !Exact(Interleave(sha, sys, schedule), h);
    }
  }

  lemma UntidyIsDamaged(sha: Bytes -> Hash, sys: System) returns (now: System, u: nat, d: Damage)
    requires Calls(sha, sys.store, sys.procs) && AtStart(sys) && !Tidy(sha, sys.store, sys.procs)
    ensures Reaches(sha, sys, now) && u in now.procs && Damaged(d, now, u)
  {
    if !Safe(sha, sys.store, sys.procs) {
      var h: Hash, v: string, us: set<nat> :|
        Victim(sha, sys.store, sys.procs, h, v) && us <= Carriers(sha, sys.procs, h)
        && !Spares(sys.store, sys.procs, h, v, us);
      if v in FilesOf(sys.store.db, h) {
        now, u := ToTheBrink(sha, sys, h, v, us);
        BrinkCountsLow(sha, sys, now, h, v, u);
        d := Low(h);
      } else {
        var path;
        now, u, path := UnsparedUploadIsBlank(sha, sys, h, v, us);
        d := Blank(h, v, path);
      }
    } else {
      var i, j, h, v :| Victim(sha, sys.store, sys.procs, h, v) && Deletes(sys.procs, i, v) && Deletes(sys.procs, j, v)
                        && i != j;
      var b := ToDoubled(sha, sys, h, v, i, j);
      now := DoubledCountsLow(sha, sys, b, h, v, i, j);
      u, d := i, Low(h);
    }
  }

  lemma UntidyEndsUnclean(sha: Bytes -> Hash, sys: System) returns (end: System)
    requires Calls(sha, sys.store, sys.procs) && AtStart(sys) && !Tidy(sha, sys.store, sys.procs)
    ensures Reaches(sha, sys, end) && Quiescent(end) && !IsClean(sha, end.store)
  {
    var now, u, d := UntidyIsDamaged(sha, sys);
    var ready := RunOut(sha, sys, now, u, d);
    end := FinishAll(sha, sys, ready, u, d);
    DamagedIsNotClean(sha, sys, end, u, d);
  }

  /** Every interleaving ends in a clean store if and only if the batch is safe and deletes no file twice. */
  lemma EndsCleanExactly(sha: Bytes -> Hash, sys: System)
    requires Calls(sha, sys.store, sys.procs) && AtStart(sys)
    ensures AllWellFormed(sha, sys)
    ensures AlwaysEndsClean(sha, sys) <==> Tidy(sha, sys.store, sys.procs)
  {
    StartIsWellFormed(sha, sys);
    if Tidy(sha, sys.store, sys.procs) {
      forall schedule
        ensures EndsWell(sha, Interleave(sha, sys, schedule))
      {
        EndsClean(sha, sys, schedule);
      }
    } else {
      var end := UntidyEndsUnclean(sha, sys);
      var schedule :| Interleave(sha, sys, schedule) == end;
      assert !EndsWell(sha, Interleave(sha, sys, schedule));
    }
  }
}
