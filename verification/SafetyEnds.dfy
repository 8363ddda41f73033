/** What a safe batch ends with: the files, and the rows that have been there. */
module SafetyEnds {
  import opened Wrappers
  import opened Model
  import opened Protocol
  import opened Machine
  import opened Safety
  import opened SafetySteps
  import opened SafetyRuns

  // ---------- what a run records ----------

  ghost predicate Uploaded(procs: map<nat, Proc>, id: string) {
    exists i :: i in procs && Stored(procs[i]) && procs[i].job.args.id == id
  }

  ghost predicate Emptied(procs: map<nat, Proc>, h: Hash) {
    exists i :: i in procs && SawZero(procs[i], h)
  }

  /** Files of the start and of successful uploads stay until a delete removes them, and rows until
      a delete sees zero. */
  ghost predicate Recorded(sha: Bytes -> Hash, s0: Store, sys: System) {
    && (forall id :: (id in s0.db.files || Uploaded(sys.procs, id)) && Alive(sys.procs, id) ==>
          id in sys.store.db.files)
    && (forall h :: Begun(sha, s0, sys.procs, h) ==> h in sys.store.db.rows || Emptied(sys.procs, h))
  }

  lemma UploadedBefore(procs: map<nat, Proc>, i: nat, p': Proc, id: string)
    requires i in procs && p'.job == procs[i].job && Uploaded(procs[i := p'], id)
    ensures Uploaded(procs, id) || (Stored(p') && p'.job.args.id == id)
  {
    var j :| j in procs[i := p'] && Stored(procs[i := p'][j]) && procs[i := p'][j].job.args.id == id;
    if j != i {
      assert procs[j] == procs[i := p'][j];
    }
  }

  /** A step that takes a file away has removed it, and one that stores an upload adds its file. */
  lemma StepKeepsFiles(sha: Bytes -> Hash, s: Store, p: Proc, id: string)
    requires WellFormed(sha, p) && p.at != Finished && p.faults == {} && (p.job.UploadJob? ==> UploadLocal(sha, s, p))
    requires p.job.DeleteJob? && p.at in {FindHash, RemoveFile, ReleaseCount} ==> p.seen == None
    ensures var (s', p') := Step(sha, s, p);
            && (id in s.db.files ==> id in s'.db.files || HasRemoved(p', id))
            && (Stored(p') && p'.job.args.id == id ==> id in s'.db.files)
  {
  }

  lemma FileRecorded(sha: Bytes -> Hash, s0: Store, sys: System, i: nat, id: string)
    requires Guarded(sha, s0, sys) && Recorded(sha, s0, sys) && AllWellFormed(sha, sys)
    requires i in sys.procs && sys.procs[i].at != Finished
    requires var now := Turn(sha, sys, i); (id in s0.db.files || Uploaded(now.procs, id)) && Alive(now.procs, id)
    ensures id in Turn(sha, sys, i).store.db.files
  {
    var p' := Step(sha, sys.store, sys.procs[i]).1;
    assert Holds(sha, s0, sys, i);
    GuardedMoves(sha, s0, sys, i);
    StepKeepsFiles(sha, sys.store, sys.procs[i], id);
    AliveBefore(sys.procs, i, p', id);
    assert !HasRemoved(Turn(sha, sys, i).procs[i], id);
    if id !in s0.db.files {
      UploadedBefore(sys.procs, i, p', id);
    }
  }

  lemma AliveBefore(procs: map<nat, Proc>, i: nat, p': Proc, id: string)
    requires Moved(procs, i, p') && Alive(procs[i := p'], id)
    ensures Alive(procs, id)
  {
    forall j | j in procs
      ensures !HasRemoved(procs[j], id)
    {
      assert !HasRemoved(procs[i := p'][j], id);
    }
  }

  /** A row goes only by the hand of a delete that saw zero, and comes with its first reference. */
  lemma StepKeepsRows(sha: Bytes -> Hash, s: Store, p: Proc, h: Hash)
    requires WellFormed(sha, p) && p.at != Finished && p.faults == {} && (p.job.UploadJob? ==> UploadLocal(sha, s, p))
    requires Cleaning(p) ==> p.seen == Some(0)
    ensures var (s', p') := Step(sha, s, p);
            && (h in s.db.rows ==> h in s'.db.rows || SawZero(p', h))
            && (HasRaised(sha, p', h) ==> HasRaised(sha, p, h) || h in s'.db.rows)
  {
  }

  lemma BegunBefore(sha: Bytes -> Hash, s0: Store, procs: map<nat, Proc>, i: nat, p': Proc, h: Hash)
    requires i in procs && Begun(sha, s0, procs[i := p'], h)
    ensures Begun(sha, s0, procs, h) || HasRaised(sha, p', h)
  {
    if h !in s0.db.rows && !HasRaised(sha, p', h) {
      var u :| u in Raised(sha, procs[i := p'], h);
      assert u in Raised(sha, procs, h);
    }
  }

  lemma EmptiedLasts(procs: map<nat, Proc>, i: nat, p': Proc, h: Hash)
    requires i in procs && (SawZero(procs[i], h) ==> SawZero(p', h)) && (Emptied(procs, h) || SawZero(p', h))
    ensures Emptied(procs[i := p'], h)
  {
    if SawZero(p', h) {
      assert procs[i := p'][i] == p';
    } else {
      var j :| j in procs && SawZero(procs[j], h);
      assert procs[i := p'][j] == procs[j];
    }
  }

  lemma ZeroStaysSeen(sha: Bytes -> Hash, s: Store, p: Proc, h: Hash)
    requires WellFormed(sha, p) && p.at != Finished && SawZero(p, h)
    requires p.at in {FindHash, RemoveFile, ReleaseCount} ==> p.seen == None
    ensures SawZero(Step(sha, s, p).1, h)
  {
  }

  lemma RowRecorded(sha: Bytes -> Hash, s0: Store, sys: System, i: nat, h: Hash)
    requires Guarded(sha, s0, sys) && Recorded(sha, s0, sys) && AllWellFormed(sha, sys)
    requires i in sys.procs && sys.procs[i].at != Finished && Begun(sha, s0, Turn(sha, sys, i).procs, h)
    ensures h in Turn(sha, sys, i).store.db.rows || Emptied(Turn(sha, sys, i).procs, h)
  {
    var p := sys.procs[i];
    var p' := Step(sha, sys.store, p).1;
    assert Holds(sha, s0, sys, i);
    BegunBefore(sha, s0, sys.procs, i, p', h);
    StepKeepsRows(sha, sys.store, p, h);
    if SawZero(p, h) {
      ZeroStaysSeen(sha, sys.store, p, h);
    }
    if Emptied(sys.procs, h) || SawZero(p', h) {
      EmptiedLasts(sys.procs, i, p', h);
    }
  }

  lemma TurnRecords(sha: Bytes -> Hash, s0: Store, sys: System, i: nat)
    requires Guarded(sha, s0, sys) && Recorded(sha, s0, sys) && AllWellFormed(sha, sys)
    ensures Recorded(sha, s0, Turn(sha, sys, i))
  {
    var now := Turn(sha, sys, i);
    if i in sys.procs && sys.procs[i].at != Finished {
      forall id | (id in s0.db.files || Uploaded(now.procs, id)) && Alive(now.procs, id)
        ensures id in now.store.db.files
      {
        FileRecorded(sha, s0, sys, i, id);
      }
      forall h | Begun(sha, s0, now.procs, h)
        ensures h in now.store.db.rows || Emptied(now.procs, h)
      {
        RowRecorded(sha, s0, sys, i, h);
      }
    } else if i in sys.procs {
      assert now.procs == sys.procs;
    }
  }

  lemma {:induction false} InterleavingRecords(sha: Bytes -> Hash, s0: Store, sys: System, schedule: seq<nat>)
    requires Guarded(sha, s0, sys) && Recorded(sha, s0, sys)
    ensures AllWellFormed(sha, sys)
    ensures Guarded(sha, s0, Interleave(sha, sys, schedule)) && Recorded(sha, s0, Interleave(sha, sys, schedule))
    decreases |schedule|
  {
    GuardedIsWellFormed(sha, s0, sys);
    if schedule == [] {
    } else {
      TurnStaysGuarded(sha, s0, sys, schedule[0]);
      TurnRecords(sha, s0, sys, schedule[0]);
      InterleavingRecords(sha, s0, Turn(sha, sys, schedule[0]), schedule[1..]);
    }
  }

  lemma StartIsRecorded(sha: Bytes -> Hash, sys: System)
    requires AtStart(sys)
    ensures Recorded(sha, sys.store, sys)
  {
    forall h
      ensures Raised(sha, sys.procs, h) == {}
    {
    }
  }

  lemma StaysRecorded(sha: Bytes -> Hash, sys: System, schedule: seq<nat>)
    requires Calls(sha, sys.store, sys.procs) && Safe(sha, sys.store, sys.procs) && AtStart(sys)
    ensures AllWellFormed(sha, sys)
    ensures var now := Interleave(sha, sys, schedule);
            Guarded(sha, sys.store, now) && Recorded(sha, sys.store, now)
  {
    StartIsGuarded(sha, sys);
    StartIsRecorded(sha, sys);
    InterleavingRecords(sha, sys.store, sys, schedule);
  }

  // ---------- when all calls have returned ----------

  /** Some delete of the id has reported success. */
  ghost predicate Deleted(procs: map<nat, Proc>, id: string) {
    exists i :: i in procs && procs[i].job.DeleteJob? && procs[i].job.id == id
                && procs[i].answer == Some(Success(None))
  }

  /** The files at the end are exactly those of the start, unchanged, and those of the uploads that
      reported success, less those whose delete reported success. Every accepted content whose
      file is not deleted has a row, even if its own upload lost the race for the primary key. */
  lemma EndsWithTheRightFiles(sha: Bytes -> Hash, sys: System, schedule: seq<nat>, id: string)
    requires Calls(sha, sys.store, sys.procs) && Safe(sha, sys.store, sys.procs) && AtStart(sys)
    ensures AllWellFormed(sha, sys)
    ensures var now := Interleave(sha, sys, schedule);
            var s0 := sys.store;
            Quiescent(now) ==>
              && (id in now.store.db.files <==>
                    (id in s0.db.files || Uploaded(now.procs, id)) && !Deleted(now.procs, id))
              && (id in now.store.db.files && id in s0.db.files ==> now.store.db.files[id] == s0.db.files[id])
              && (forall i :: i in now.procs && Stored(now.procs[i]) && now.procs[i].job.args.id == id
                              && id in now.store.db.files ==>
                    now.store.db.files[id] == NewFile(sha, now.procs[i].job.args))
              && (forall i :: i in now.procs && now.procs[i].job.UploadJob? && now.procs[i].job.args.accepted
                              && !Deleted(now.procs, now.procs[i].job.args.id) ==>
                    sha(now.procs[i].job.args.content) in now.store.db.rows)
  {
    StaysRecorded(sha, sys, schedule);
    var now := Interleave(sha, sys, schedule);
    if Quiescent(now) {
      FilesAtEnd(sha, sys.store, now, id);
      forall i | i in now.procs && now.procs[i].job.UploadJob? && now.procs[i].job.args.accepted
                 && !Deleted(now.procs, now.procs[i].job.args.id)
        ensures sha(now.procs[i].job.args.content) in now.store.db.rows
      {
        RowAtEnd(sha, sys.store, now, i);
      }
      forall i | i in now.procs && Stored(now.procs[i]) && now.procs[i].job.args.id == id && id in now.store.db.files
        ensures now.store.db.files[id] == NewFile(sha, now.procs[i].job.args)
      {
        assert Holds(sha, sys.store, now, i);
      }
    }
  }

  lemma AliveAtEnd(sha: Bytes -> Hash, s0: Store, now: System, id: string)
    requires Guarded(sha, s0, now) && Quiescent(now)
    ensures Alive(now.procs, id) <==> !Deleted(now.procs, id)
  {
    forall i | i in now.procs && now.procs[i].job.DeleteJob? && now.procs[i].job.id == id
      ensures HasRemoved(now.procs[i], id) <==> now.procs[i].answer == Some(Success(None))
    {
      assert Holds(sha, s0, now, i);
    }
  }

  lemma FilesAtEnd(sha: Bytes -> Hash, s0: Store, now: System, id: string)
    requires Guarded(sha, s0, now) && Recorded(sha, s0, now) && Quiescent(now)
    ensures id in now.store.db.files <==>
              (id in s0.db.files || Uploaded(now.procs, id)) && !Deleted(now.procs, id)
    ensures id in now.store.db.files && id in s0.db.files ==> now.store.db.files[id] == s0.db.files[id]
  {
    AliveAtEnd(sha, s0, now, id);
    if id in now.store.db.files {
      LiveIsAlive(sha, s0, now, id);
      if id !in s0.db.files {
        var h := now.store.db.files[id].hash;
        LiveBelongs(sha, s0, now, id);
        var u :| u in Carriers(sha, now.procs, h) && now.procs[u].job.args.id == id && Stored(now.procs[u]);
        assert u in now.procs;
      } else {
        OldFileIsSame(sha, s0, now, id);
      }
    }
  }

  lemma LiveIsAlive(sha: Bytes -> Hash, s0: Store, now: System, id: string)
    requires Guarded(sha, s0, now) && id in now.store.db.files
    ensures Alive(now.procs, id)
  {
    forall i | i in now.procs
      ensures !HasRemoved(now.procs[i], id)
    {
      assert Holds(sha, s0, now, i);
    }
  }

  lemma RowAtEnd(sha: Bytes -> Hash, s0: Store, now: System, i: nat)
    requires Guarded(sha, s0, now) && Quiescent(now) && i in now.procs
    requires now.procs[i].job.UploadJob? && now.procs[i].job.args.accepted
    requires !Deleted(now.procs, now.procs[i].job.args.id)
    ensures sha(now.procs[i].job.args.content) in now.store.db.rows
  {
    var a := now.procs[i].job.args;
    var h := sha(a.content);
    AliveAtEnd(sha, s0, now, a.id);
    assert i in Carriers(sha, now.procs, h) && Uploads(sha, now.procs, h, a.id);
    assert Victim(sha, s0, now.procs, h, a.id) && Needed(sha, s0, now.procs, h);
    assert Holds(sha, s0, now, i) && Kept(sha, s0, now, h);
  }
}
