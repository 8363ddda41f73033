/** Which uploads of a safe batch can report failure although nothing fails: those that lose the race
    for the primary key of a new content. */
module UploadFailures {
  import opened Model
  import opened Protocol
  import opened Machine
  import opened Safety
  import opened SafetySteps
  import opened SafetyRuns
  import opened SafetyExactly
  import Clean
  import Solo

  predicate Failed(p: Proc) {
    p.job.UploadJob? && p.at == Finished && p.answer.Some? && p.answer.value.Failure?
  }

  /** Another upload has made, or raised, the row of that hash. */
  ghost predicate RaisedByAnother(sha: Bytes -> Hash, procs: map<nat, Proc>, i: nat, h: Hash) {
    exists u :: u in Raised(sha, procs, h) && u != i
  }

  /** An upload turns to a new row only if the start has none, and gives it up only to another upload. */
  ghost predicate Explained(sha: Bytes -> Hash, s0: Store, sys: System, i: nat)
    requires i in sys.procs
  {
    var p := sys.procs[i];
    p.job.UploadJob? && p.job.args.accepted ==>
      var h := sha(p.job.args.content);
      && (p.at == AddRow ==> h !in s0.db.rows)
      && (p.at == DropUnstored || Failed(p) ==> h !in s0.db.rows && RaisedByAnother(sha, sys.procs, i, h))
  }

  lemma RaisedByAnotherLasts(sha: Bytes -> Hash, procs: map<nat, Proc>, j: nat, p': Proc, i: nat, h: Hash)
    requires j in procs && RaisedByAnother(sha, procs, i, h) && (HasRaised(sha, procs[j], h) ==> HasRaised(sha, p', h))
    ensures RaisedByAnother(sha, procs[j := p'], i, h)
  {
    var u :| u in Raised(sha, procs, h) && u != i;
    assert u in Raised(sha, procs[j := p'], h);
  }

  /** How an upload comes to add a row, to give one up, and to fail. */
  lemma MoverCases(sha: Bytes -> Hash, s: Store, p: Proc)
    requires WellFormed(sha, p) && p.job.UploadJob? && p.job.args.accepted && p.at != Finished && p.faults == {}
    requires UploadLocal(sha, s, p)
    ensures var p' := Step(sha, s, p).1;
            && (p'.at == AddRow ==> p.at == FindRow && sha(p.job.args.content) !in s.db.rows)
            && (p'.at == DropUnstored ==> p.at == AddRow)
            && (Failed(p') ==> p.at == DropUnstored)
  {
  }

  /** The moves that matter: a row found missing, and a key found taken. */
  lemma MoverIsExplained(sha: Bytes -> Hash, s0: Store, sys: System, i: nat)
    requires Guarded(sha, s0, sys) && AllWellFormed(sha, sys) && i in sys.procs && sys.procs[i].at != Finished
    requires Explained(sha, s0, sys, i)
    ensures Explained(sha, s0, Turn(sha, sys, i), i)
  {
    var p := sys.procs[i];
    var p' := Step(sha, sys.store, p).1;
    assert Holds(sha, s0, sys, i);
    StepAdvances(sha, sys.store, p);
    if p.job.UploadJob? && p.job.args.accepted {
      var h := sha(p.job.args.content);
      MoverCases(sha, sys.store, p);
      if p.at == FindRow && p'.at == AddRow {
        MissingHasNotBegun(sha, s0, sys, i);
      } else if p.at == AddRow && p'.at == DropUnstored {
        TakenByAnother(sha, s0, sys, i);
        RaisedByAnotherLasts(sha, sys.procs, i, p', i, h);
      } else if p.at == DropUnstored {
        RaisedByAnotherLasts(sha, sys.procs, i, p', i, h);
      }
    }
  }

  lemma TakenByAnother(sha: Bytes -> Hash, s0: Store, sys: System, i: nat)
    requires Guarded(sha, s0, sys) && i in sys.procs && sys.procs[i].job.UploadJob? && sys.procs[i].at == AddRow
    requires Step(sha, sys.store, sys.procs[i]).1.at == DropUnstored && WellFormed(sha, sys.procs[i])
    requires sha(sys.procs[i].job.args.content) !in s0.db.rows
    ensures RaisedByAnother(sha, sys.procs, i, sha(sys.procs[i].job.args.content))
  {
    var h := sha(sys.procs[i].job.args.content);
    assert Holds(sha, s0, sys, i) && Kept(sha, s0, sys, h);
    var u :| u in Raised(sha, sys.procs, h);
  }

  lemma OthersStayExplained(sha: Bytes -> Hash, s0: Store, sys: System, i: nat, j: nat)
    requires Guarded(sha, s0, sys) && AllWellFormed(sha, sys)
    requires i in sys.procs && j in sys.procs && i != j && sys.procs[i].at != Finished
    requires Explained(sha, s0, sys, j)
    ensures Explained(sha, s0, Turn(sha, sys, i), j)
  {
    var p, q := sys.procs[i], sys.procs[j];
    assert Holds(sha, s0, sys, i);
    if q.job.UploadJob? && q.job.args.accepted && (q.at == DropUnstored || Failed(q)) {
      StepStaysRaised(sha, sys.store, p, sha(q.job.args.content));
      RaisedByAnotherLasts(sha, sys.procs, i, Step(sha, sys.store, p).1, j, sha(q.job.args.content));
    }
  }

  ghost predicate AllExplained(sha: Bytes -> Hash, s0: Store, sys: System) {
    forall i :: i in sys.procs ==> Explained(sha, s0, sys, i)
  }

  lemma TurnExplained(sha: Bytes -> Hash, s0: Store, sys: System, i: nat)
    requires Guarded(sha, s0, sys) && AllWellFormed(sha, sys) && AllExplained(sha, s0, sys)
    ensures AllExplained(sha, s0, Turn(sha, sys, i))
  {
    var next := Turn(sha, sys, i);
    if i !in sys.procs || sys.procs[i].at == Finished {
      assert next.procs == sys.procs && next == sys;
    } else {
      forall j | j in next.procs
        ensures Explained(sha, s0, next, j)
      {
        assert Explained(sha, s0, sys, j);
        if i == j {
          MoverIsExplained(sha, s0, sys, i);
        } else {
          OthersStayExplained(sha, s0, sys, i, j);
        }
      }
    }
  }

  lemma {:induction false} StaysExplained(sha: Bytes -> Hash, s0: Store, sys: System, schedule: seq<nat>)
    requires Guarded(sha, s0, sys) && AllExplained(sha, s0, sys)
    ensures AllWellFormed(sha, sys) && AllExplained(sha, s0, Interleave(sha, sys, schedule))
    decreases |schedule|
  {
    GuardedIsWellFormed(sha, s0, sys);
    if schedule == [] {
    } else {
      TurnStaysGuarded(sha, s0, sys, schedule[0]);
      TurnExplained(sha, s0, sys, schedule[0]);
      StaysExplained(sha, s0, Turn(sha, sys, schedule[0]), schedule[1..]);
    }
  }

  // ---------- exactly ----------

  ghost predicate MayFail(sha: Bytes -> Hash, sys: System, u: nat)
    requires AllWellFormed(sha, sys)
  {
    exists schedule :: FailedAt(sha, sys, schedule, u)
  }

  ghost predicate FailedAt(sha: Bytes -> Hash, sys: System, schedule: seq<nat>, u: nat)
    requires AllWellFormed(sha, sys)
  {
    u in Interleave(sha, sys, schedule).procs && Failed(Interleave(sha, sys, schedule).procs[u])
  }

  /** Another accepted upload carries the same new content. */
  ghost predicate HasRival(sha: Bytes -> Hash, sys: System, u: nat, h: Hash) {
    h !in sys.store.db.rows && exists w :: w in Carriers(sha, sys.procs, h) && w != u
  }

  lemma FailureHasRival(sha: Bytes -> Hash, sys: System, schedule: seq<nat>, u: nat)
    requires Calls(sha, sys.store, sys.procs) && Safe(sha, sys.store, sys.procs) && AtStart(sys)
    requires u in sys.procs && sys.procs[u].job.UploadJob? && sys.procs[u].job.args.accepted
    ensures AllWellFormed(sha, sys)
    ensures FailedAt(sha, sys, schedule, u) ==> HasRival(sha, sys, u, sha(sys.procs[u].job.args.content))
  {
    StartIsGuarded(sha, sys);
    GuardedIsWellFormed(sha, sys.store, sys);
    StaysExplained(sha, sys.store, sys, schedule);
    InterleavingKeepsJobs(sha, sys, schedule);
    if FailedAt(sha, sys, schedule, u) {
      var now := Interleave(sha, sys, schedule);
      var h := sha(sys.procs[u].job.args.content);
      assert Explained(sha, sys.store, now, u);
      var w :| w in Raised(sha, now.procs, h) && w != u;
      assert w in Carriers(sha, sys.procs, h);
    }
  }

  /** The upload looks up the row in vain. */
  lemma LooksInVain(sha: Bytes -> Hash, sys: System, u: nat) returns (now: System)
    requires Reaches(sha, sys, sys) && u in sys.procs && sys.procs[u].job.UploadJob?
    requires sys.procs[u] == Begin(sys.procs[u].job, {}) && sys.procs[u].job.args.accepted
    requires sha(sys.procs[u].job.args.content) !in sys.store.db.rows
    ensures var a := sys.procs[u].job.args;
            Reaches(sha, sys, now) && now.store == Put(sys.store, a.path, a.content)
    ensures u in now.procs && now.procs == sys.procs[u := now.procs[u]]
    ensures now.procs[u].at == AddRow && now.procs[u].job == sys.procs[u].job && now.procs[u].faults == {}
  {
    var put := Moves(sha, sys, sys, u);
    assert put.procs[u].at == FindRow;
    now := Moves(sha, sys, put, u);
  }

  /** The rival runs alone in between, and makes the row. */
  lemma RivalMakesRow(sha: Bytes -> Hash, sys: System, now: System, w: nat) returns (next: System)
    requires Reaches(sha, sys, now) && w in now.procs && now.procs[w].job.UploadJob?
    requires now.procs[w] == Begin(now.procs[w].job, {}) && now.procs[w].job.args.accepted
    requires Fresh(now.store, UploadOp(now.procs[w].job.args, {}))
    ensures Reaches(sha, sys, next) && sha(now.procs[w].job.args.content) in next.store.db.rows
    ensures w in next.procs && next.procs == now.procs[w := next.procs[w]]
  {
    var a := now.procs[w].job.args;
    next := Finishes(sha, sys, now, w);
    assert now.procs[w] == Begin(UploadJob(a), {});
    Solo.UploadAlone(sha, now.store, a, {});
    Clean.UploadClosedForm(sha, now.store, a);
  }

  lemma LosesKey(sha: Bytes -> Hash, sys: System, now: System, u: nat) returns (next: System)
    requires Reaches(sha, sys, now) && u in now.procs && now.procs[u].job.UploadJob? && now.procs[u].at == AddRow
    requires now.procs[u].faults == {} && sha(now.procs[u].job.args.content) in now.store.db.rows
    ensures Reaches(sha, sys, next) && u in next.procs && Failed(next.procs[u])
  {
    var lost := Moves(sha, sys, now, u);
    assert lost.procs[u].at == DropUnstored;
    next := Moves(sha, sys, lost, u);
  }

  lemma RivalMakesFail(sha: Bytes -> Hash, sys: System, u: nat) returns (now: System)
    requires Calls(sha, sys.store, sys.procs) && AtStart(sys)
    requires u in sys.procs && sys.procs[u].job.UploadJob? && sys.procs[u].job.args.accepted
    requires HasRival(sha, sys, u, sha(sys.procs[u].job.args.content))
    ensures Reaches(sha, sys, now) && u in now.procs && Failed(now.procs[u])
  {
    var h := sha(sys.procs[u].job.args.content);
    var w :| w in Carriers(sha, sys.procs, h) && w != u;
    var a, c := sys.procs[u].job.args, sys.procs[w].job.args;
    StartReaches(sha, sys);
    var vain := LooksInVain(sha, sys, u);
    UnusedPathIsFree(sha, sys.store, c.path);
    assert Fresh(vain.store, UploadOp(c, {}));
    var made := RivalMakesRow(sha, sys, vain, w);
    now := LosesKey(sha, sys, made, u);
  }

  /** In a safe batch some schedule makes an accepted upload fail if and only if its content is new
      and another accepted upload carries it too. */
  lemma FailsExactly(sha: Bytes -> Hash, sys: System, u: nat)
    requires Calls(sha, sys.store, sys.procs) && Safe(sha, sys.store, sys.procs) && AtStart(sys)
    requires u in sys.procs && sys.procs[u].job.UploadJob? && sys.procs[u].job.args.accepted
    ensures AllWellFormed(sha, sys)
    ensures MayFail(sha, sys, u) <==> HasRival(sha, sys, u, sha(sys.procs[u].job.args.content))
  {
    StartIsWellFormed(sha, sys);
    if MayFail(sha, sys, u) {
      var schedule :| FailedAt(sha, sys, schedule, u);
      FailureHasRival(sha, sys, schedule, u);
    } else if HasRival(sha, sys, u, sha(sys.procs[u].job.args.content)) {
      var now := RivalMakesFail(sha, sys, u);
      var schedule :| Interleave(sha, sys, schedule) == now;
      assert FailedAt(sha, sys, schedule, u);
      assert false;
    }
  }

  /** Of the uploads of one content at least one reports success. */
  lemma SomeUploadSucceeds(sha: Bytes -> Hash, sys: System, schedule: seq<nat>, h: Hash)
    requires Calls(sha, sys.store, sys.procs) && Safe(sha, sys.store, sys.procs) && AtStart(sys)
    requires Carriers(sha, sys.procs, h) != {}
    ensures AllWellFormed(sha, sys)
    ensures var now := Interleave(sha, sys, schedule);
            Quiescent(now) ==> exists u :: u in Carriers(sha, now.procs, h) && Stored(now.procs[u])
  {
    Reachable(sha, sys, schedule);
    InterleavingKeepsJobs(sha, sys, schedule);
    var now := Interleave(sha, sys, schedule);
    var u :| u in Carriers(sha, sys.procs, h);
    assert u in Carriers(sha, now.procs, h);
    FailureHasRival(sha, sys, schedule, u);
    if Quiescent(now) && !Stored(now.procs[u]) {
      assert h !in sys.store.db.rows by {
        assert WellFormed(sha, now.procs[u]);
        assert FailedAt(sha, sys, schedule, u);
      }
      RowWasMade(sha, sys.store, now, u, h);
    }
  }

  /** An upload that has ended has seen its row made: by a call that has succeeded. */
  lemma RowWasMade(sha: Bytes -> Hash, s0: Store, now: System, u: nat, h: Hash)
    requires Guarded(sha, s0, now) && Quiescent(now) && u in Carriers(sha, now.procs, h) && h !in s0.db.rows
    ensures exists w :: w in Carriers(sha, now.procs, h) && Stored(now.procs[w])
  {
    assert Holds(sha, s0, now, u);
    var w :| w in Raised(sha, now.procs, h);
    assert Holds(sha, s0, now, w) && w in Carriers(sha, now.procs, h);
  }
}
