/** Under every interleaving of any number of uploads and deletes, with any faults, no count
    exceeds the references that back it or are still on their way. */
module Bound {
  import opened Wrappers
  import opened Model
  import opened Schema
  import opened Protocol
  import opened Machine

  /** The processes that owe the count of `h`. */
  ghost function Owing(procs: map<nat, Proc>, h: Hash): set<nat> {
    set i | i in procs && procs[i].Owes(h)
  }

  function Owe(p: Proc, h: Hash): int {
    if p.Owes(h) then 1 else 0
  }

  lemma OwingAfter(procs: map<nat, Proc>, i: nat, p: Proc, h: Hash)
    requires i in procs
    ensures |Owing(procs[i := p], h)| == |Owing(procs, h)| - Owe(procs[i], h) + Owe(p, h)
  {
    OwingBut(procs, i, h);
    OwingBut(procs[i := p], i, h);
    assert Owing(procs[i := p], h) - {i} == Owing(procs, h) - {i};
  }

  lemma OwingBut(procs: map<nat, Proc>, i: nat, h: Hash)
    requires i in procs
    ensures |Owing(procs, h)| == |Owing(procs, h) - {i}| + Owe(procs[i], h)
  {
  }

  // ---------- what a single process keeps ----------

  /** The file a process works on: a pending upload's id is unused, and the row a delete is about
      to remove still has the hash it read. */
  ghost predicate OwnFile(db: Db, p: Proc) {
    && (p.job.UploadJob? && p.at != Finished ==> p.job.args.id !in db.files)
    && (p.job.DeleteJob? && p.at == RemoveFile && p.job.id in db.files ==>
          p.hash == Some(db.files[p.job.id].hash))
  }

  /** A step never lets the surplus of a hash outgrow the debt of the process that makes it. */
  lemma UploadStepPays(sha: Bytes -> Hash, s: Store, p: Proc, h: Hash)
    requires WellFormed(sha, p) && p.job.UploadJob? && p.at != Finished
    requires h in StepUpload(sha, s, p).0.db.rows
    ensures var (s', p') := StepUpload(sha, s, p);
            if h in s.db.rows then Surplus(s'.db, h) - Owe(p', h) <= Surplus(s.db, h) - Owe(p, h)
            else Surplus(s'.db, h) - Owe(p', h) <= 0
  {
    var a := p.job.args;
    var g := sha(a.content);
    match p.at {
      case RaiseCount => SurplusOfAddToCount(s.db, g, 1, a.now, h);
      case LowerCount => SurplusOfAddToCount(s.db, g, -1, a.now, h);
      case AddReference =>
        if CanInsertFile(s.db, a.id, g) { SurplusOfInsertFile(s.db, a.id, NewFile(sha, a), h); }
      case AddFirstFile =>
        if CanInsertFile(s.db, a.id, g) { SurplusOfInsertFile(s.db, a.id, NewFile(sha, a), h); }
      case AddRow => 
      case UndoRow => SurplusOfDeleteStorage(s.db, g, h);
      case _ =>
    }
  }

  lemma DeleteStepPays(sha: Bytes -> Hash, s: Store, p: Proc, h: Hash)
    requires WellFormed(sha, p) && p.job.DeleteJob? && p.at != Finished && OwnFile(s.db, p)
    requires h in StepDelete(sha, s, p).0.db.rows
    ensures var (s', p') := StepDelete(sha, s, p);
            h in s.db.rows && Surplus(s'.db, h) - Owe(p', h) <= Surplus(s.db, h) - Owe(p, h)
  {
    match p.at {
      case RemoveFile => SurplusOfDeleteFile(s.db, p.job.id, h);
      case ReleaseCount => SurplusOfAddToCount(s.db, p.hash.value, -1, p.job.now, h);
      case RemoveRow => SurplusOfDeleteStorage(s.db, p.hash.value, h);
      case _ =>
    }
  }

  // ---------- the invariant ----------

  /** Uploads draw different ids. */
  ghost predicate DistinctUploads(procs: map<nat, Proc>) {
    forall i, j :: i in procs && j in procs && i != j && procs[i].job.UploadJob? && procs[j].job.UploadJob? ==>
      procs[i].job.args.id != procs[j].job.args.id
  }

  ghost predicate Bounded(sys: System, h: Hash) {
    h in sys.store.db.rows ==>
      sys.store.db.rows[h].count <= |FilesOf(sys.store.db, h)| + |Owing(sys.procs, h)|
  }

  /** `p` has found, and is about to remove, the file that `q` uploads. */
  predicate Found(p: Proc, q: Proc) {
    p.job.DeleteJob? && p.at == RemoveFile && q.job.UploadJob? && q.job.args.id == p.job.id
  }

  /** A delete that found its file does not race with the upload that is to create it. */
  ghost predicate FoundIsFinished(procs: map<nat, Proc>) {
    forall i, j :: i in procs && j in procs && Found(procs[i], procs[j]) ==> procs[j].at == Finished
  }

  ghost predicate Inv(sha: Bytes -> Hash, sys: System) {
    && AllWellFormed(sha, sys)
    && FoundIsFinished(sys.procs)
    && DistinctUploads(sys.procs)
    && (forall i :: i in sys.procs ==> OwnFile(sys.store.db, sys.procs[i]))
    && (forall h :: Bounded(sys, h))
  }

  lemma UploadStepFiles(sha: Bytes -> Hash, s: Store, p: Proc)
    requires WellFormed(sha, p) && p.job.UploadJob? && p.at != Finished
    ensures var (s', p') := StepUpload(sha, s, p);
            && p'.job == p.job
            && (s'.db.files == s.db.files
                || (p'.at == Finished && s'.db.files == s.db.files[p.job.args.id := NewFile(sha, p.job.args)]))
  {
  }

  lemma DeleteStepFiles(sha: Bytes -> Hash, s: Store, p: Proc)
    requires WellFormed(sha, p) && p.job.DeleteJob? && p.at != Finished
    ensures var (s', p') := StepDelete(sha, s, p);
            && p'.job == p.job
            && (s'.db.files == s.db.files || s'.db.files == s.db.files - {p.job.id})
            && (p'.at == RemoveFile ==> s' == s && p.job.id in s.db.files
                                        && p'.hash == Some(s.db.files[p.job.id].hash))
  {
  }

  lemma OwnFilesKept(sha: Bytes -> Hash, sys: System, i: nat, j: nat)
    requires Inv(sha, sys) && i in sys.procs && j in sys.procs && sys.procs[i].at != Finished
    ensures OwnFile(Turn(sha, sys, i).store.db, Turn(sha, sys, i).procs[j])
  {
    var p, q := sys.procs[i], sys.procs[j];
    StepAdvances(sha, sys.store, p);
    assert OwnFile(sys.store.db, q) && OwnFile(sys.store.db, p);
    if p.job.UploadJob? {
      UploadStepFiles(sha, sys.store, p);
    } else {
      DeleteStepFiles(sha, sys.store, p);
    }
  }

  /** A step that finds a file finds no pending upload of it. */
  lemma FoundStep(sha: Bytes -> Hash, s: Store, p: Proc, q: Proc)
    requires WellFormed(sha, p) && p.at != Finished && OwnFile(s.db, q)
    requires Found(p, q) ==> q.at == Finished
    ensures Found(Step(sha, s, p).1, q) ==> q.at == Finished
  {
  }

  lemma FoundKept(sha: Bytes -> Hash, sys: System, i: nat)
    requires Inv(sha, sys) && i in sys.procs && sys.procs[i].at != Finished
    ensures FoundIsFinished(Turn(sha, sys, i).procs)
  {
    var p := sys.procs[i];
    StepAdvances(sha, sys.store, p);
    forall j | j in sys.procs
      ensures Found(Step(sha, sys.store, p).1, sys.procs[j]) ==> sys.procs[j].at == Finished
    {
      assert OwnFile(sys.store.db, sys.procs[j]);
      FoundStep(sha, sys.store, p, sys.procs[j]);
    }
  }

  lemma BoundKept(sha: Bytes -> Hash, sys: System, i: nat, h: Hash)
    requires Inv(sha, sys) && i in sys.procs
    ensures Bounded(Turn(sha, sys, i), h)
  {
    var p := sys.procs[i];
    var (s', p') := Step(sha, sys.store, p);
    assert Bounded(sys, h) && OwnFile(sys.store.db, p);
    OwingAfter(sys.procs, i, p', h);
    if h in s'.db.rows && p.at != Finished {
      if p.job.UploadJob? {
        UploadStepPays(sha, sys.store, p, h);
      } else {
        DeleteStepPays(sha, sys.store, p, h);
      }
    }
  }

  lemma TurnKeepsInv(sha: Bytes -> Hash, sys: System, i: nat)
    requires Inv(sha, sys)
    ensures Inv(sha, Turn(sha, sys, i))
  {
    if i in sys.procs && sys.procs[i].at != Finished {
      StepKeepsInv(sha, sys, i);
    } else {
      TurnKeepsForm(sha, sys, i);
      assert Turn(sha, sys, i) == sys;
    }
  }

  lemma StepKeepsInv(sha: Bytes -> Hash, sys: System, i: nat)
    requires Inv(sha, sys) && i in sys.procs && sys.procs[i].at != Finished
    ensures Inv(sha, Turn(sha, sys, i))
  {
    TurnKeepsForm(sha, sys, i);
    FoundKept(sha, sys, i);
    JobsStayDistinct(sha, sys, i);
    AllOwnFilesKept(sha, sys, i);
    forall h: Hash
      ensures Bounded(Turn(sha, sys, i), h)
    {
      BoundKept(sha, sys, i, h);
    }
  }

  lemma JobsStayDistinct(sha: Bytes -> Hash, sys: System, i: nat)
    requires AllWellFormed(sha, sys) && i in sys.procs && sys.procs[i].at != Finished
    requires DistinctUploads(sys.procs)
    ensures DistinctUploads(Turn(sha, sys, i).procs)
  {
    StepAdvances(sha, sys.store, sys.procs[i]);
  }

  lemma AllOwnFilesKept(sha: Bytes -> Hash, sys: System, i: nat)
    requires Inv(sha, sys) && i in sys.procs && sys.procs[i].at != Finished
    ensures var next := Turn(sha, sys, i);
            forall j :: j in next.procs ==> OwnFile(next.store.db, next.procs[j])
  {
    forall j | j in sys.procs
      ensures OwnFile(Turn(sha, sys, i).store.db, Turn(sha, sys, i).procs[j])
    {
      OwnFilesKept(sha, sys, i, j);
    }
  }

  lemma {:induction false} InterleavingKeepsInv(sha: Bytes -> Hash, sys: System, schedule: seq<nat>)
    requires Inv(sha, sys)
    ensures Inv(sha, Interleave(sha, sys, schedule))
    decreases |schedule|
  {
    if schedule == [] {
    } else {
      TurnKeepsInv(sha, sys, schedule[0]);
      InterleavingKeepsInv(sha, Turn(sha, sys, schedule[0]), schedule[1..]);
    }
  }

  // ---------- the theorems ----------

  /** Processes that are about to start with fresh, different ids, on a store that does not over-count. */
  ghost predicate Ready(sys: System) {
    && AtStart(sys)
    && DistinctUploads(sys.procs)
    && (forall i :: i in sys.procs && sys.procs[i].job.UploadJob? ==>
          sys.procs[i].job.args.id !in sys.store.db.files)
    && (forall h :: Surplus(sys.store.db, h) <= 0)
  }

  lemma ReadyHasInv(sha: Bytes -> Hash, sys: System)
    requires Ready(sys)
    ensures Inv(sha, sys)
  {
    StartIsWellFormed(sha, sys);
    forall h: Hash
      ensures Bounded(sys, h)
    {
      assert Surplus(sys.store.db, h) <= 0;
      assert Owing(sys.procs, h) == {};
    }
  }

  /** In every reachable state a count is at most its files plus the processes that owe it:
      uploads between raising the count and inserting the file, deletes between removing the
      file and lowering the count, and calls that failed to pay back. */
  lemma CountBound(sha: Bytes -> Hash, sys: System, schedule: seq<nat>, h: Hash)
    requires Ready(sys)
    ensures AllWellFormed(sha, sys)
    ensures var now := Interleave(sha, sys, schedule);
            h in now.store.db.rows ==>
              now.store.db.rows[h].count <= |FilesOf(now.store.db, h)| + |Owing(now.procs, h)|
  {
    ReadyHasInv(sha, sys);
    InterleavingKeepsInv(sha, sys, schedule);
    assert Bounded(Interleave(sha, sys, schedule), h);
  }

  // ---------- without faults nothing leaks ----------

  predicate Faultless(procs: map<nat, Proc>) {
    forall i :: i in procs ==> procs[i].faults == {}
  }

  ghost predicate NoLeak(procs: map<nat, Proc>) {
    forall i :: i in procs ==> procs[i].debt != Leak
  }

  lemma StepLeaksNothing(sha: Bytes -> Hash, s: Store, p: Proc)
    requires WellFormed(sha, p) && OwnFile(s.db, p) && p.faults == {} && p.debt != Leak
    ensures Step(sha, s, p).1.debt != Leak
  {
  }

  lemma {:induction false} FaultlessLeaksNothing(sha: Bytes -> Hash, sys: System, schedule: seq<nat>)
    requires Inv(sha, sys) && Faultless(sys.procs) && NoLeak(sys.procs)
    ensures NoLeak(Interleave(sha, sys, schedule).procs)
    decreases |schedule|
  {
    if schedule == [] {
    } else {
      var i := schedule[0];
      TurnKeepsInv(sha, sys, i);
      if i in sys.procs {
        assert OwnFile(sys.store.db, sys.procs[i]);
        StepLeaksNothing(sha, sys.store, sys.procs[i]);
        StepAdvances(sha, sys.store, sys.procs[i]);
      }
      FaultlessLeaksNothing(sha, Turn(sha, sys, i), schedule[1..]);
    }
  }

  /** Once all calls have returned, and none was hit by a fault, no count exceeds its files:
      whatever raced, doubled or lost its row. */
  lemma QuiescentCounts(sha: Bytes -> Hash, sys: System, schedule: seq<nat>, h: Hash)
    requires Ready(sys) && Faultless(sys.procs)
    ensures AllWellFormed(sha, sys)
    ensures var now := Interleave(sha, sys, schedule);
            Quiescent(now) && h in now.store.db.rows ==> now.store.db.rows[h].count <= |FilesOf(now.store.db, h)|
  {
    ReadyHasInv(sha, sys);
    CountBound(sha, sys, schedule, h);
    FaultlessLeaksNothing(sha, sys, schedule);
    InterleavingKeepsInv(sha, sys, schedule);
    var now := Interleave(sha, sys, schedule);
    if Quiescent(now) {
      forall i | i in now.procs
        ensures !now.procs[i].Owes(h)
      {
        assert WellFormed(sha, now.procs[i]);
      }
      assert Owing(now.procs, h) == {};
    }
  }
}
