/** Every step keeps the invariant of module Safety. */
module SafetySteps {
  import opened Wrappers
  import opened Model
  import opened Schema
  import opened Protocol
  import opened Machine
  import opened Refinement
  import opened Safety

  // ---------- what a step leaves and what it only takes away ----------

  /** One process has moved: its job is the same, and it forgets nothing. */
  ghost predicate Moved(procs: map<nat, Proc>, i: nat, p': Proc) {
    && i in procs && p'.job == procs[i].job && p'.faults == procs[i].faults && procs[i].at != Finished
    && forall v :: HasRemoved(procs[i], v) ==> HasRemoved(p', v)
  }

  lemma SameCarriers(sha: Bytes -> Hash, procs: map<nat, Proc>, i: nat, p': Proc, h: Hash)
    requires i in procs && p'.job == procs[i].job
    ensures Carriers(sha, procs[i := p'], h) == Carriers(sha, procs, h)
  {
  }

  lemma SameVictims(sha: Bytes -> Hash, s0: Store, procs: map<nat, Proc>, i: nat, p': Proc, h: Hash, v: string)
    requires i in procs && p'.job == procs[i].job
    ensures Victim(sha, s0, procs[i := p'], h, v) <==> Victim(sha, s0, procs, h, v)
  {
    SameCarriers(sha, procs, i, p', h);
  }

  lemma SameAim(s0: Store, procs: map<nat, Proc>, i: nat, p': Proc, h: Hash, v: string, us: set<nat>)
    requires i in procs && p'.job == procs[i].job
    ensures Aimed(s0, procs[i := p'], h, v, us) == Aimed(s0, procs, h, v, us)
  {
    var procs' := procs[i := p'];
    forall j | j in procs
      ensures AimsAtNew(procs', procs[j].job, us) <==> AimsAtNew(procs, procs[j].job, us)
    {
      SameNewAim(procs, i, p', procs[j].job, us);
    }
  }

  lemma SameNewAim(procs: map<nat, Proc>, i: nat, p': Proc, job: Job, us: set<nat>)
    requires i in procs && p'.job == procs[i].job
    ensures AimsAtNew(procs[i := p'], job, us) <==> AimsAtNew(procs, job, us)
  {
    var procs' := procs[i := p'];
    if AimsAtNew(procs, job, us) {
      var u :| u in us && u in procs && procs[u].job.UploadJob? && procs[u].job.args.id == job.id;
      assert u in procs' && procs'[u].job == procs[u].job;
    }
  }

  lemma CallsKept(sha: Bytes -> Hash, s0: Store, procs: map<nat, Proc>, i: nat, p': Proc)
    requires Calls(sha, s0, procs) && i in procs && p'.job == procs[i].job && p'.faults == procs[i].faults
    ensures Calls(sha, s0, procs[i := p'])
  {
  }

  lemma SafeKept(sha: Bytes -> Hash, s0: Store, procs: map<nat, Proc>, i: nat, p': Proc)
    requires Safe(sha, s0, procs) && i in procs && p'.job == procs[i].job
    ensures Safe(sha, s0, procs[i := p'])
  {
    var procs' := procs[i := p'];
    forall h, v, us | Victim(sha, s0, procs', h, v) && us <= Carriers(sha, procs', h)
      ensures Spares(s0, procs', h, v, us)
    {
      SameVictims(sha, s0, procs, i, p', h, v);
      SameCarriers(sha, procs, i, p', h);
      SameAim(s0, procs, i, p', h, v, us);
      assert Spares(s0, procs, h, v, us);
    }
  }

  lemma BelongsLasts(sha: Bytes -> Hash, s0: Store, procs: map<nat, Proc>, i: nat, p': Proc, h: Hash, id: string)
    requires Moved(procs, i, p') && Belongs(sha, s0, procs, h, id)
    ensures Belongs(sha, s0, procs[i := p'], h, id)
  {
    if id !in FilesOf(s0.db, h) {
      var u :| u in Carriers(sha, procs, h) && procs[u].job.args.id == id && Stored(procs[u]);
      SameCarriers(sha, procs, i, p', h);
      assert u != i && procs[i := p'][u] == procs[u];
    }
  }

  lemma MayPointLasts(sha: Bytes -> Hash, s0: Store, procs: map<nat, Proc>, i: nat, p': Proc, h: Hash, path: string)
    requires i in procs && p'.job == procs[i].job && MayPoint(sha, s0, procs, h, path)
    ensures MayPoint(sha, s0, procs[i := p'], h, path)
  {
    if !(h in s0.db.rows && path == s0.db.rows[h].path) {
      var u :| u in Carriers(sha, procs, h) && procs[u].job.args.path == path;
      SameCarriers(sha, procs, i, p', h);
      assert procs[i := p'][u].job == procs[u].job;
    }
  }

  /** What is needed after a step was needed before. */
  lemma NeededBefore(sha: Bytes -> Hash, s0: Store, procs: map<nat, Proc>, i: nat, p': Proc, h: Hash)
    requires Moved(procs, i, p') && Needed(sha, s0, procs[i := p'], h)
    ensures Needed(sha, s0, procs, h)
  {
    var procs' := procs[i := p'];
    var v :| Victim(sha, s0, procs', h, v) && Alive(procs', v);
    SameVictims(sha, s0, procs, i, p', h, v);
    forall j | j in procs
      ensures !HasRemoved(procs[j], v)
    {
      assert !HasRemoved(procs'[j], v);
    }
    assert Alive(procs, v);
  }

  lemma StepMoves(sha: Bytes -> Hash, sys: System, i: nat)
    requires i in sys.procs && sys.procs[i].at != Finished && WellFormed(sha, sys.procs[i])
    requires sys.procs[i].job.DeleteJob? && sys.procs[i].faults == {}
    requires sys.procs[i].at in {FindHash, RemoveFile, ReleaseCount} ==> sys.procs[i].seen == None
    requires Cleaning(sys.procs[i]) ==> sys.procs[i].seen == Some(0)
    ensures Moved(sys.procs, i, Step(sha, sys.store, sys.procs[i]).1)
  {
    StepAdvances(sha, sys.store, sys.procs[i]);
  }

  lemma GuardedMoves(sha: Bytes -> Hash, s0: Store, sys: System, i: nat)
    requires Guarded(sha, s0, sys) && i in sys.procs && sys.procs[i].at != Finished
    ensures WellFormed(sha, sys.procs[i]) && Moved(sys.procs, i, Step(sha, sys.store, sys.procs[i]).1)
  {
    assert Holds(sha, s0, sys, i);
    StepAdvances(sha, sys.store, sys.procs[i]);
    if sys.procs[i].job.DeleteJob? {
      StepMoves(sha, sys, i);
    }
  }

  // ---------- rows that have been there ----------

  lemma BegunLasts(sha: Bytes -> Hash, s0: Store, procs: map<nat, Proc>, i: nat, p': Proc, h: Hash)
    requires i in procs && Begun(sha, s0, procs, h) && (HasRaised(sha, procs[i], h) ==> HasRaised(sha, p', h))
    ensures Begun(sha, s0, procs[i := p'], h)
  {
    if h !in s0.db.rows {
      var u :| u in Raised(sha, procs, h);
      assert u in Raised(sha, procs[i := p'], h);
    }
  }

  lemma StepStaysRaised(sha: Bytes -> Hash, s: Store, p: Proc, h: Hash)
    requires WellFormed(sha, p) && p.faults == {} && (p.job.UploadJob? ==> UploadLocal(sha, s, p))
    ensures HasRaised(sha, p, h) ==> HasRaised(sha, Step(sha, s, p).1, h)
  {
  }

  /** An accepted upload ends with a row made: its own, or the one that it found. */
  lemma FinishedHasBegun(sha: Bytes -> Hash, s0: Store, sys: System, i: nat)
    requires Guarded(sha, s0, sys) && AllWellFormed(sha, sys) && i in sys.procs && sys.procs[i].at != Finished
    requires sys.procs[i].job.UploadJob? && sys.procs[i].job.args.accepted
    requires Step(sha, sys.store, sys.procs[i]).1.at == Finished
    ensures Begun(sha, s0, Turn(sha, sys, i).procs, sha(sys.procs[i].job.args.content))
  {
    var p := sys.procs[i];
    var h := sha(p.job.args.content);
    assert Holds(sha, s0, sys, i) && Kept(sha, s0, sys, h);
    StepStaysRaised(sha, sys.store, p, h);
    BegunLasts(sha, s0, sys.procs, i, Step(sha, sys.store, p).1, h);
  }

  // ---------- counting ----------

  function One(b: bool): int {
    if b then 1 else 0
  }

  lemma ReleasedBut(procs: map<nat, Proc>, i: nat, h: Hash)
    requires i in procs
    ensures |Released(procs, h)| == |Released(procs, h) - {i}| + One(HasReleased(procs[i], h))
  {
    assert i in Released(procs, h) <==> HasReleased(procs[i], h);
  }

  lemma ReleasedAfter(procs: map<nat, Proc>, i: nat, p': Proc, h: Hash)
    requires i in procs
    ensures |Released(procs[i := p'], h)|
         == |Released(procs, h)| - One(HasReleased(procs[i], h)) + One(HasReleased(p', h))
  {
    ReleasedBut(procs, i, h);
    ReleasedBut(procs[i := p'], i, h);
    assert Released(procs[i := p'], h) - {i} == Released(procs, h) - {i};
  }

  lemma RaisedBut(sha: Bytes -> Hash, procs: map<nat, Proc>, i: nat, h: Hash)
    requires i in procs
    ensures |Raised(sha, procs, h)| == |Raised(sha, procs, h) - {i}| + One(HasRaised(sha, procs[i], h))
  {
    assert i in Raised(sha, procs, h) <==> HasRaised(sha, procs[i], h);
  }

  lemma RaisedAfter(sha: Bytes -> Hash, procs: map<nat, Proc>, i: nat, p': Proc, h: Hash)
    requires i in procs
    ensures |Raised(sha, procs[i := p'], h)|
         == |Raised(sha, procs, h)| - One(HasRaised(sha, procs[i], h)) + One(HasRaised(sha, p', h))
  {
    RaisedBut(sha, procs, i, h);
    RaisedBut(sha, procs[i := p'], i, h);
    assert Raised(sha, procs[i := p'], h) - {i} == Raised(sha, procs, h) - {i};
  }

  lemma PathsOfCounts(db: Db, h: Hash, delta: int, now: Time, path: string)
    ensures PathTaken(AddToCount(db, h, delta, now), path) ==> PathTaken(db, path)
  {
    var db' := AddToCount(db, h, delta, now);
    assert forall g :: g in db.rows ==> db'.rows[g].path == db.rows[g].path;
  }

  // ---------- the processes that do not move ----------

  lemma CopyDisturbsNoUpload(sha: Bytes -> Hash, s: Store, p: Proc, q: Proc)
    requires WellFormed(sha, p) && p.job.UploadJob? && p.faults == {} && UploadLocal(sha, s, p)
    requires p.at in {PutContent, FindRow, DropCopy, DropUnstored}
    requires q.job.UploadJob? && p.job.args.path != q.job.args.path
    ensures Undisturbed(sha, s, Step(sha, s, p).0, q)
  {
    assert Step(sha, s, p).0.db == s.db;
  }

  lemma UploadDisturbsNoUpload(sha: Bytes -> Hash, s: Store, p: Proc, q: Proc)
    requires WellFormed(sha, p) && p.job.UploadJob? && p.at != Finished && p.faults == {} && UploadLocal(sha, s, p)
    requires q.job.UploadJob? && p.job.args.id != q.job.args.id && p.job.args.path != q.job.args.path
    ensures Undisturbed(sha, s, Step(sha, s, p).0, q)
  {
    if p.at in {PutContent, FindRow, DropCopy, DropUnstored} {
      CopyDisturbsNoUpload(sha, s, p, q);
    } else {
      assert Step(sha, s, p).0.blobs == s.blobs;
      if p.at == RaiseCount {
        PathsOfCounts(s.db, sha(p.job.args.content), 1, p.job.args.now, q.job.args.path);
      }
    }
  }

  lemma DeleteDisturbsNoUpload(sha: Bytes -> Hash, s: Store, p: Proc, q: Proc)
    requires WellFormed(sha, p) && p.job.DeleteJob? && p.at != Finished && p.faults == {} && q.job.UploadJob?
    requires p.at == DropContent && HoldsBlob(q) ==> p.read.value.path != q.job.args.path
    requires p.at == RemoveRow && q.at != Finished && q.job.args.accepted ==> p.hash != Some(sha(q.job.args.content))
    ensures Undisturbed(sha, s, Step(sha, s, p).0, q)
  {
    if p.at == ReleaseCount {
      PathsOfCounts(s.db, p.hash.value, -1, p.job.now, q.job.args.path);
    } else if p.at == RemoveRow {
      assert forall g :: g in DeleteStorage(s.db, p.hash.value).rows ==>
        g in s.db.rows && DeleteStorage(s.db, p.hash.value).rows[g] == s.db.rows[g];
    }
  }

  /** What a delete cleans up, no pending upload needs. */
  lemma CleansUnneeded(sha: Bytes -> Hash, s0: Store, sys: System, i: nat, j: nat)
    requires Guarded(sha, s0, sys) && i in sys.procs && j in sys.procs && Cleaning(sys.procs[i])
    requires sys.procs[j].job.UploadJob? && sys.procs[j].job.args.accepted && !Stored(sys.procs[j])
    ensures sys.procs[i].hash != Some(sha(sys.procs[j].job.args.content))
    ensures sys.procs[i].at == DropContent ==> sys.procs[i].read.value.path != sys.procs[j].job.args.path
  {
    var p, a := sys.procs[i], sys.procs[j].job.args;
    assert Holds(sha, s0, sys, i);
    var h := p.hash.value;
    assert SawZero(p, h) && Kept(sha, s0, sys, h);
    PendingIsNeeded(sha, s0, sys, j);
    if p.at == DropContent && p.read.value.path == a.path {
      assert j in Carriers(sha, sys.procs, sha(a.content));
      PathsDiffer(sha, s0, sys.procs, h, sha(a.content), a.path);
    }
  }

  lemma DeletePassesUpload(sha: Bytes -> Hash, s0: Store, sys: System, i: nat, j: nat)
    requires Guarded(sha, s0, sys) && i in sys.procs && j in sys.procs && sys.procs[i].at != Finished
    requires sys.procs[i].job.DeleteJob? && sys.procs[j].job.UploadJob? && WellFormed(sha, sys.procs[i])
    ensures Undisturbed(sha, sys.store, Step(sha, sys.store, sys.procs[i]).0, sys.procs[j])
  {
    var q := sys.procs[j];
    assert Holds(sha, s0, sys, i) && Holds(sha, s0, sys, j);
    if Cleaning(sys.procs[i]) && q.at != Finished && q.job.args.accepted {
      CleansUnneeded(sha, s0, sys, i, j);
    }
    DeleteDisturbsNoUpload(sha, sys.store, sys.procs[i], q);
  }

  /** A file that a delete has found is not one that is yet to be added. */
  lemma FoundIsNotPending(sha: Bytes -> Hash, s0: Store, sys: System, i: nat, j: nat)
    requires Guarded(sha, s0, sys) && i in sys.procs && j in sys.procs
    requires sys.procs[i].job.UploadJob? && sys.procs[i].at != Finished
    requires sys.procs[j].job.DeleteJob? && sys.procs[j].hash.Some?
    ensures sys.procs[j].job.id != sys.procs[i].job.args.id
  {
    assert Holds(sha, s0, sys, j);
  }

  lemma StepFiles(sha: Bytes -> Hash, s: Store, p: Proc, id: string)
    requires WellFormed(sha, p) && (p.job.UploadJob? ==> id != p.job.args.id)
    ensures var s' := Step(sha, s, p).0;
            id in s'.db.files ==> id in s.db.files && s'.db.files[id] == s.db.files[id]
  {
  }

  lemma DeleteHoldsStill(sha: Bytes -> Hash, s0: Store, procs: map<nat, Proc>, i: nat, p': Proc, s: Store, s': Store,
                         q: Proc)
    requires Moved(procs, i, p') && q.job.DeleteJob? && WellFormed(sha, q) && DeleteHolds(sha, s0, procs, s, q)
    requires q.hash.Some? && q.job.id in s'.db.files ==> q.job.id in s.db.files
    ensures DeleteHolds(sha, s0, procs[i := p'], s', q)
  {
    if q.hash.Some? {
      BelongsLasts(sha, s0, procs, i, p', q.hash.value, q.job.id);
    }
    if q.at == DropContent {
      MayPointLasts(sha, s0, procs, i, p', q.hash.value, q.read.value.path);
    }
  }

  lemma OthersHold(sha: Bytes -> Hash, s0: Store, sys: System, i: nat, j: nat)
    requires Guarded(sha, s0, sys) && AllWellFormed(sha, sys)
    requires i in sys.procs && j in sys.procs && i != j && sys.procs[i].at != Finished
    ensures Holds(sha, s0, Turn(sha, sys, i), j)
  {
    var s, p, q := sys.store, sys.procs[i], sys.procs[j];
    assert Holds(sha, s0, sys, i) && Holds(sha, s0, sys, j);
    GuardedMoves(sha, s0, sys, i);
    if q.job.DeleteJob? {
      if p.job.UploadJob? && q.hash.Some? {
        FoundIsNotPending(sha, s0, sys, i, j);
      }
      if q.hash.Some? {
        StepFiles(sha, s, p, q.job.id);
      }
      DeleteHoldsStill(sha, s0, sys.procs, i, Step(sha, s, p).1, s, Step(sha, s, p).0, q);
    } else {
      if p.job.UploadJob? {
        UploadDisturbsNoUpload(sha, s, p, q);
      } else {
        DeletePassesUpload(sha, s0, sys, i, j);
      }
      UndisturbedStays(sha, s, Step(sha, s, p).0, q);
      if q.at == Finished && q.job.args.accepted {
        StepStaysRaised(sha, s, p, sha(q.job.args.content));
        BegunLasts(sha, s0, sys.procs, i, Step(sha, s, p).1, sha(q.job.args.content));
      }
    }
  }

  // ---------- the process that moves ----------

  lemma UploadHoldsOn(sha: Bytes -> Hash, s: Store, p: Proc)
    requires WellFormed(sha, p) && p.job.UploadJob? && p.at != Finished && p.faults == {} && UploadLocal(sha, s, p)
    ensures UploadLocal(sha, StepUpload(sha, s, p).0, StepUpload(sha, s, p).1)
  {
  }

  /** A file that is there is owned. */
  lemma LiveBelongs(sha: Bytes -> Hash, s0: Store, sys: System, id: string)
    requires Guarded(sha, s0, sys) && id in sys.store.db.files
    ensures Belongs(sha, s0, sys.procs, sys.store.db.files[id].hash, id)
  {
    var h := sys.store.db.files[id].hash;
    if !(id in s0.db.files && sys.store.db.files[id] == s0.db.files[id]) {
      var u :| u in Carriers(sha, sys.procs, h) && sys.procs[u].job.args.id == id;
      assert Holds(sha, s0, sys, u);
    }
  }

  lemma DeleteHoldsOn(sha: Bytes -> Hash, s0: Store, procs: map<nat, Proc>, s: Store, p: Proc)
    requires WellFormed(sha, p) && p.job.DeleteJob? && p.at != Finished && p.faults == {}
    requires DeleteHolds(sha, s0, procs, s, p)
    requires p.job.id in s.db.files ==> Belongs(sha, s0, procs, s.db.files[p.job.id].hash, p.job.id)
    requires p.hash.Some? && p.hash.value in s.db.rows ==>
      MayPoint(sha, s0, procs, p.hash.value, s.db.rows[p.hash.value].path)
    ensures DeleteHolds(sha, s0, procs, StepDelete(sha, s, p).0, StepDelete(sha, s, p).1)
  {
  }

  lemma MoverHolds(sha: Bytes -> Hash, s0: Store, sys: System, i: nat)
    requires Guarded(sha, s0, sys) && AllWellFormed(sha, sys) && i in sys.procs && sys.procs[i].at != Finished
    ensures Holds(sha, s0, Turn(sha, sys, i), i)
  {
    var s, p := sys.store, sys.procs[i];
    assert Holds(sha, s0, sys, i);
    StepAdvances(sha, s, p);
    GuardedMoves(sha, s0, sys, i);
    if p.job.UploadJob? {
      UploadHoldsOn(sha, s, p);
      if p.job.args.accepted && Step(sha, s, p).1.at == Finished {
        FinishedHasBegun(sha, s0, sys, i);
      }
    } else {
      if p.job.id in s.db.files {
        LiveBelongs(sha, s0, sys, p.job.id);
      }
      if p.hash.Some? {
        assert Kept(sha, s0, sys, p.hash.value);
      }
      DeleteHoldsOn(sha, s0, sys.procs, s, p);
      var (s', p') := Step(sha, s, p);
      DeleteHoldsStill(sha, s0, sys.procs, i, p', s', s', p');
    }
  }

  lemma FileStaysBelonging(sha: Bytes -> Hash, s0: Store, sys: System, i: nat, p': Proc, s': Store, id: string)
    requires FilesBelong(sha, s0, sys) && i in sys.procs && p'.job == sys.procs[i].job && id in s'.db.files
    requires (id in sys.store.db.files && s'.db.files[id] == sys.store.db.files[id])
             || (Carries(sha, p'.job, s'.db.files[id].hash) && p'.job.args.id == id)
    ensures (id in s0.db.files && s'.db.files[id] == s0.db.files[id])
            || Uploads(sha, sys.procs[i := p'], s'.db.files[id].hash, id)
  {
    var h := s'.db.files[id].hash;
    SameCarriers(sha, sys.procs, i, p', h);
    if !(id in sys.store.db.files && s'.db.files[id] == sys.store.db.files[id]) {
      assert i in Carriers(sha, sys.procs[i := p'], h);
    }
  }

  /** Which files a step leaves or adds. */
  lemma StepAddsOwnFile(sha: Bytes -> Hash, s: Store, p: Proc, id: string)
    requires WellFormed(sha, p) && (p.job.UploadJob? ==> UploadLocal(sha, s, p)) && id in Step(sha, s, p).0.db.files
    ensures var s' := Step(sha, s, p).0;
            || (id in s.db.files && s'.db.files[id] == s.db.files[id])
            || (Carries(sha, p.job, s'.db.files[id].hash) && p.job.args.id == id)
  {
  }

  lemma TurnKeepsFiles(sha: Bytes -> Hash, s0: Store, sys: System, i: nat)
    requires Guarded(sha, s0, sys) && AllWellFormed(sha, sys) && i in sys.procs && sys.procs[i].at != Finished
    ensures FilesBelong(sha, s0, Turn(sha, sys, i))
  {
    var (s', p') := Step(sha, sys.store, sys.procs[i]);
    assert Holds(sha, s0, sys, i);
    StepAdvances(sha, sys.store, sys.procs[i]);
    forall id | id in s'.db.files
      ensures (id in s0.db.files && s'.db.files[id] == s0.db.files[id])
              || Uploads(sha, sys.procs[i := p'], s'.db.files[id].hash, id)
    {
      StepAddsOwnFile(sha, sys.store, sys.procs[i], id);
      FileStaysBelonging(sha, s0, sys, i, p', s', id);
    }
  }

  // ---------- hashes ----------

  /** A step that neither raises nor releases `h`, and spares its row and its blob while needed. */
  ghost predicate Quiet(sha: Bytes -> Hash, s0: Store, sys: System, i: nat, s': Store, p': Proc, h: Hash)
    requires i in sys.procs
  {
    var p, s := sys.procs[i], sys.store;
    && HasReleased(p', h) == HasReleased(p, h) && HasRaised(sha, p', h) == HasRaised(sha, p, h)
    && (SawZero(p', h) ==> SawZero(p, h))
    && (h in s'.db.rows ==>
          h in s.db.rows && s'.db.rows[h].path == s.db.rows[h].path && s'.db.rows[h].size == s.db.rows[h].size
          && s'.db.rows[h].count == s.db.rows[h].count)
    && (Needed(sha, s0, sys.procs, h) && h in s.db.rows ==>
          && h in s'.db.rows
          && (s.db.rows[h].path in s.blobs ==>
                s.db.rows[h].path in s'.blobs && s'.blobs[s.db.rows[h].path] == s.blobs[s.db.rows[h].path]))
  }

  lemma BegunAfter(sha: Bytes -> Hash, s0: Store, procs: map<nat, Proc>, i: nat, p': Proc, h: Hash)
    requires i in procs && HasRaised(sha, p', h) == HasRaised(sha, procs[i], h)
    ensures Begun(sha, s0, procs[i := p'], h) <==> Begun(sha, s0, procs, h)
    ensures |Raised(sha, procs[i := p'], h)| == |Raised(sha, procs, h)|
  {
    RaisedAfter(sha, procs, i, p', h);
    assert Raised(sha, procs[i := p'], h) == Raised(sha, procs, h);
  }

  lemma ZerosKept(sha: Bytes -> Hash, s0: Store, procs: map<nat, Proc>, i: nat, p': Proc, h: Hash)
    requires Moved(procs, i, p') && (SawZero(p', h) ==> SawZero(procs[i], h))
    requires forall j :: j in procs && SawZero(procs[j], h) ==> !Needed(sha, s0, procs, h)
    ensures var procs' := procs[i := p'];
            forall j :: j in procs' && SawZero(procs'[j], h) ==> !Needed(sha, s0, procs', h)
  {
    if Needed(sha, s0, procs[i := p'], h) {
      NeededBefore(sha, s0, procs, i, p', h);
    }
  }

  lemma QuietKeeps(sha: Bytes -> Hash, s0: Store, sys: System, i: nat, s': Store, p': Proc, h: Hash)
    requires i in sys.procs && Kept(sha, s0, sys, h) && Moved(sys.procs, i, p') && Quiet(sha, s0, sys, i, s', p', h)
    ensures Kept(sha, s0, System(s', sys.procs[i := p']), h)
  {
    BegunAfter(sha, s0, sys.procs, i, p', h);
    ReleasedAfter(sys.procs, i, p', h);
    ZerosKept(sha, s0, sys.procs, i, p', h);
    if h in s'.db.rows {
      MayPointLasts(sha, s0, sys.procs, i, p', h, s'.db.rows[h].path);
    }
    if Needed(sha, s0, sys.procs[i := p'], h) {
      NeededBefore(sha, s0, sys.procs, i, p', h);
    }
  }

  // ---------- a step of an upload ----------

  /** All steps but the two that count. */
  lemma UploadIsQuiet(sha: Bytes -> Hash, s0: Store, sys: System, i: nat, h: Hash)
    requires i in sys.procs
    requires var p := sys.procs[i];
             && WellFormed(sha, p) && p.job.UploadJob? && p.at != Finished && p.faults == {}
             && UploadLocal(sha, sys.store, p)
             && (p.at in {RaiseCount, AddRow} ==> h != sha(p.job.args.content))
    ensures var (s', p') := Step(sha, sys.store, sys.procs[i]); Quiet(sha, s0, sys, i, s', p', h)
  {
    var p := sys.procs[i];
    if p.at in {AddReference, AddFirstFile} {
      FilingIsQuiet(sha, s0, sys, i, h);
    }
  }

  lemma FilingIsQuiet(sha: Bytes -> Hash, s0: Store, sys: System, i: nat, h: Hash)
    requires i in sys.procs
    requires var p := sys.procs[i];
             && WellFormed(sha, p) && p.job.UploadJob? && p.at in {AddReference, AddFirstFile} && p.faults == {}
             && UploadLocal(sha, sys.store, p)
    ensures var (s', p') := Step(sha, sys.store, sys.procs[i]); Quiet(sha, s0, sys, i, s', p', h)
  {
  }

  /** The count goes up, and one more has raised it. */
  lemma RaiseKeeps(sha: Bytes -> Hash, s0: Store, sys: System, i: nat)
    requires Guarded(sha, s0, sys) && AllWellFormed(sha, sys) && i in sys.procs
    requires sys.procs[i].job.UploadJob? && sys.procs[i].at == RaiseCount
    ensures Kept(sha, s0, Turn(sha, sys, i), sha(sys.procs[i].job.args.content))
  {
    var p := sys.procs[i];
    var h := sha(p.job.args.content);
    var (s', p') := Step(sha, sys.store, p);
    assert Holds(sha, s0, sys, i) && Kept(sha, s0, sys, h);
    GuardedMoves(sha, s0, sys, i);
    RaisedAfter(sha, sys.procs, i, p', h);
    ReleasedAfter(sys.procs, i, p', h);
    ZerosKept(sha, s0, sys.procs, i, p', h);
    PendingIsNeeded(sha, s0, sys, i);
    MayPointLasts(sha, s0, sys.procs, i, p', h, sys.store.db.rows[h].path);
    assert i in Raised(sha, sys.procs[i := p'], h);
    assert Intact(sha, s0, sys, h);
  }

  /** A row that is missing although an upload needs it has never been there. */
  lemma MissingHasNotBegun(sha: Bytes -> Hash, s0: Store, sys: System, i: nat)
    requires Guarded(sha, s0, sys) && i in sys.procs
    requires sys.procs[i].job.UploadJob? && sys.procs[i].job.args.accepted && !Stored(sys.procs[i])
    requires sha(sys.procs[i].job.args.content) !in sys.store.db.rows
    ensures !Begun(sha, s0, sys.procs, sha(sys.procs[i].job.args.content))
  {
    PendingIsNeeded(sha, s0, sys, i);
    assert Kept(sha, s0, sys, sha(sys.procs[i].job.args.content));
  }

  /** The row is made, counting its upload. */
  lemma AddRowKeeps(sha: Bytes -> Hash, s0: Store, sys: System, i: nat)
    requires Guarded(sha, s0, sys) && AllWellFormed(sha, sys) && i in sys.procs
    requires sys.procs[i].job.UploadJob? && sys.procs[i].at == AddRow
    requires sha(sys.procs[i].job.args.content) !in sys.store.db.rows
    ensures Kept(sha, s0, Turn(sha, sys, i), sha(sys.procs[i].job.args.content))
  {
    var p := sys.procs[i];
    var h := sha(p.job.args.content);
    var (s', p') := Step(sha, sys.store, p);
    assert Holds(sha, s0, sys, i) && Kept(sha, s0, sys, h);
    GuardedMoves(sha, s0, sys, i);
    MissingHasNotBegun(sha, s0, sys, i);
    RaisedAfter(sha, sys.procs, i, p', h);
    ReleasedAfter(sys.procs, i, p', h);
    ZerosKept(sha, s0, sys.procs, i, p', h);
    assert i in Raised(sha, sys.procs[i := p'], h);
    assert i in Carriers(sha, sys.procs[i := p'], h);
    NoFilesIffUnreferenced(s0.db, h);
    NewRowIsBacked(sha, sys.store, p);
  }

  lemma NewRowIsBacked(sha: Bytes -> Hash, s: Store, p: Proc)
    requires WellFormed(sha, p) && p.job.UploadJob? && p.at == AddRow && p.faults == {} && UploadLocal(sha, s, p)
    requires sha(p.job.args.content) !in s.db.rows
    ensures var s', h := Step(sha, s, p).0, sha(p.job.args.content);
            && h in s'.db.rows && RowBacked(sha, s', h) && s'.db.rows[h].count == 1
            && s'.db.rows[h].path == p.job.args.path
  {
  }

  /** The key exists: the upload turns to dropping its copy. */
  lemma LostKeyIsQuiet(sha: Bytes -> Hash, s0: Store, sys: System, i: nat)
    requires i in sys.procs
    requires var p := sys.procs[i];
             && WellFormed(sha, p) && p.job.UploadJob? && p.at == AddRow && p.faults == {}
             && sha(p.job.args.content) in sys.store.db.rows
    ensures var (s', p') := Step(sha, sys.store, sys.procs[i]);
            Quiet(sha, s0, sys, i, s', p', sha(sys.procs[i].job.args.content))
  {
  }

  lemma UploadKeeps(sha: Bytes -> Hash, s0: Store, sys: System, i: nat, h: Hash)
    requires Guarded(sha, s0, sys) && AllWellFormed(sha, sys) && i in sys.procs && sys.procs[i].at != Finished
    requires sys.procs[i].job.UploadJob?
    ensures Kept(sha, s0, Turn(sha, sys, i), h)
  {
    var p := sys.procs[i];
    assert Holds(sha, s0, sys, i) && Kept(sha, s0, sys, h);
    if h == sha(p.job.args.content) && p.at == RaiseCount {
      RaiseKeeps(sha, s0, sys, i);
    } else if h == sha(p.job.args.content) && p.at == AddRow && h !in sys.store.db.rows {
      AddRowKeeps(sha, s0, sys, i);
    } else {
      if h == sha(p.job.args.content) && p.at == AddRow {
        LostKeyIsQuiet(sha, s0, sys, i);
      } else {
        UploadIsQuiet(sha, s0, sys, i, h);
      }
      GuardedMoves(sha, s0, sys, i);
      QuietKeeps(sha, s0, sys, i, Step(sha, sys.store, p).0, Step(sha, sys.store, p).1, h);
    }
  }

  // ---------- a step of a delete ----------

  /** When a release leaves its hash needed, the releases stay below the references. */
  lemma ReleaseIsBelow(sha: Bytes -> Hash, s0: Store, sys: System, i: nat, h: Hash)
    requires Guarded(sha, s0, sys) && AllWellFormed(sha, sys) && i in sys.procs
    requires sys.procs[i].job.DeleteJob? && sys.procs[i].at == ReleaseCount && sys.procs[i].hash == Some(h)
    requires Needed(sha, s0, Turn(sha, sys, i).procs, h)
    ensures Needed(sha, s0, sys.procs, h) && Begun(sha, s0, sys.procs, h)
    ensures |Released(Turn(sha, sys, i).procs, h)| < |FilesOf(s0.db, h)| + |Raised(sha, Turn(sha, sys, i).procs, h)|
  {
    var p' := Step(sha, sys.store, sys.procs[i]).1;
    assert Holds(sha, s0, sys, i);
    GuardedMoves(sha, s0, sys, i);
    NeededBefore(sha, s0, sys.procs, i, p', h);
    FoundHasBegun(sha, s0, sys.procs, h, sys.procs[i].job.id);
    BegunAfter(sha, s0, sys.procs, i, p', h);
    TurnKeepsCalls(sha, s0, sys, i);
    TurnFoundBelongs(sha, s0, sys, i);
    ReleasesStayBelow(sha, s0, Turn(sha, sys, i).procs, h);
  }

  lemma ReleaseCounts(sha: Bytes -> Hash, s: Store, p: Proc, h: Hash)
    requires WellFormed(sha, p) && p.job.DeleteJob? && p.at == ReleaseCount && p.hash == Some(h) && p.faults == {}
    ensures var (s', p') := Step(sha, s, p);
            && s'.blobs == s.blobs && HasReleased(p', h) && !HasRaised(sha, p, h) && !HasRaised(sha, p', h)
            && (h in s'.db.rows <==> h in s.db.rows)
            && (h in s.db.rows ==>
                  && s'.db.rows[h].path == s.db.rows[h].path && s'.db.rows[h].size == s.db.rows[h].size
                  && s'.db.rows[h].count == s.db.rows[h].count - 1)
            && (SawZero(p', h) ==> h in s.db.rows ==> s.db.rows[h].count == 1)
  {
  }

  /** After a release of a hash that is still needed the count is positive: nobody reads zero. */
  lemma ReleaseKeeps(sha: Bytes -> Hash, s0: Store, sys: System, i: nat, h: Hash)
    requires Guarded(sha, s0, sys) && AllWellFormed(sha, sys) && i in sys.procs
    requires sys.procs[i].job.DeleteJob? && sys.procs[i].at == ReleaseCount && sys.procs[i].hash == Some(h)
    ensures Kept(sha, s0, Turn(sha, sys, i), h)
  {
    var p := sys.procs[i];
    var (s', p') := Step(sha, sys.store, p);
    assert Holds(sha, s0, sys, i) && Kept(sha, s0, sys, h);
    GuardedMoves(sha, s0, sys, i);
    ReleaseCounts(sha, sys.store, p, h);
    if Needed(sha, s0, sys.procs[i := p'], h) {
      ReleaseIsBelow(sha, s0, sys, i, h);
      assert Intact(sha, s0, sys, h);
    }
    ReleasedIsKept(sha, s0, sys, i, s', p', h);
  }

  lemma ReleasedIsKept(sha: Bytes -> Hash, s0: Store, sys: System, i: nat, s': Store, p': Proc, h: Hash)
    requires Kept(sha, s0, sys, h) && Moved(sys.procs, i, p') && s'.blobs == sys.store.blobs
    requires !HasReleased(sys.procs[i], h) && HasReleased(p', h)
    requires !HasRaised(sha, sys.procs[i], h) && !HasRaised(sha, p', h)
    requires h in s'.db.rows <==> h in sys.store.db.rows
    requires h in s'.db.rows ==>
      && s'.db.rows[h].path == sys.store.db.rows[h].path && s'.db.rows[h].size == sys.store.db.rows[h].size
      && s'.db.rows[h].count == sys.store.db.rows[h].count - 1
    requires SawZero(p', h) ==> h in sys.store.db.rows ==> sys.store.db.rows[h].count == 1
    requires Needed(sha, s0, sys.procs[i := p'], h) ==>
      && Needed(sha, s0, sys.procs, h) && Intact(sha, s0, sys, h)
      && |Released(sys.procs[i := p'], h)| < |FilesOf(s0.db, h)| + |Raised(sha, sys.procs[i := p'], h)|
    ensures Kept(sha, s0, System(s', sys.procs[i := p']), h)
  {
    BegunAfter(sha, s0, sys.procs, i, p', h);
    ReleasedAfter(sys.procs, i, p', h);
    if h in s'.db.rows {
      MayPointLasts(sha, s0, sys.procs, i, p', h, s'.db.rows[h].path);
    }
  }

  /** A hash of which a file was found has had a row. */
  lemma FoundHasBegun(sha: Bytes -> Hash, s0: Store, procs: map<nat, Proc>, h: Hash, id: string)
    requires Belongs(sha, s0, procs, h, id) && ForeignKey(s0.db)
    ensures Begun(sha, s0, procs, h)
  {
    if id !in FilesOf(s0.db, h) {
      var u :| u in Carriers(sha, procs, h) && procs[u].job.args.id == id && Stored(procs[u]);
      assert u in Raised(sha, procs, h);
    }
  }

  lemma TurnFoundBelongs(sha: Bytes -> Hash, s0: Store, sys: System, i: nat)
    requires Guarded(sha, s0, sys) && AllWellFormed(sha, sys) && i in sys.procs && sys.procs[i].at != Finished
    ensures FoundBelongs(sha, s0, Turn(sha, sys, i).procs)
  {
    var now := Turn(sha, sys, i);
    forall j | j in now.procs && now.procs[j].job.DeleteJob? && now.procs[j].hash.Some?
      ensures Belongs(sha, s0, now.procs, now.procs[j].hash.value, now.procs[j].job.id)
    {
      if i == j {
        MoverHolds(sha, s0, sys, i);
      } else {
        OthersHold(sha, s0, sys, i, j);
      }
    }
  }

  /** All steps but the release of `h`: a clean-up touches only what is not needed. */
  lemma DeleteIsQuiet(sha: Bytes -> Hash, s0: Store, sys: System, i: nat, h: Hash)
    requires i in sys.procs && UniquePaths(sys.store.db)
    requires var p := sys.procs[i];
             && WellFormed(sha, p) && p.job.DeleteJob? && p.at != Finished && p.faults == {}
             && DeleteHolds(sha, s0, sys.procs, sys.store, p)
             && !(p.at == ReleaseCount && p.hash == Some(h))
             && (SawZero(p, h) ==> !Needed(sha, s0, sys.procs, h))
             && (p.at == DropContent && p.hash != Some(h) && h in sys.store.db.rows ==>
                   sys.store.db.rows[h].path != p.read.value.path)
    ensures var (s', p') := Step(sha, sys.store, sys.procs[i]); Quiet(sha, s0, sys, i, s', p', h)
  {
  }

  lemma DeleteKeeps(sha: Bytes -> Hash, s0: Store, sys: System, i: nat, h: Hash)
    requires Guarded(sha, s0, sys) && AllWellFormed(sha, sys) && i in sys.procs && sys.procs[i].at != Finished
    requires sys.procs[i].job.DeleteJob?
    ensures Kept(sha, s0, Turn(sha, sys, i), h)
  {
    var p := sys.procs[i];
    assert Holds(sha, s0, sys, i) && Kept(sha, s0, sys, h);
    if p.at == ReleaseCount && p.hash == Some(h) {
      ReleaseKeeps(sha, s0, sys, i, h);
    } else {
      if p.at == DropContent && h in sys.store.db.rows && sys.store.db.rows[h].path == p.read.value.path {
        PathsDiffer(sha, s0, sys.procs, p.hash.value, h, p.read.value.path);
      }
      DeleteIsQuiet(sha, s0, sys, i, h);
      GuardedMoves(sha, s0, sys, i);
      QuietKeeps(sha, s0, sys, i, Step(sha, sys.store, p).0, Step(sha, sys.store, p).1, h);
    }
  }

  // ---------- one turn ----------

  lemma GuardedIsWellFormed(sha: Bytes -> Hash, s0: Store, sys: System)
    requires Guarded(sha, s0, sys)
    ensures AllWellFormed(sha, sys)
  {
    forall i | i in sys.procs
      ensures WellFormed(sha, sys.procs[i])
    {
      assert Holds(sha, s0, sys, i);
    }
  }

  lemma TurnHolds(sha: Bytes -> Hash, s0: Store, sys: System, i: nat, j: nat)
    requires Guarded(sha, s0, sys) && AllWellFormed(sha, sys)
    requires i in sys.procs && j in sys.procs && sys.procs[i].at != Finished
    ensures Holds(sha, s0, Turn(sha, sys, i), j)
  {
    if i == j {
      MoverHolds(sha, s0, sys, i);
    } else {
      OthersHold(sha, s0, sys, i, j);
    }
  }

  lemma TurnKeeps(sha: Bytes -> Hash, s0: Store, sys: System, i: nat, h: Hash)
    requires Guarded(sha, s0, sys) && AllWellFormed(sha, sys) && i in sys.procs && sys.procs[i].at != Finished
    ensures Kept(sha, s0, Turn(sha, sys, i), h)
  {
    if sys.procs[i].job.UploadJob? {
      UploadKeeps(sha, s0, sys, i, h);
    } else {
      DeleteKeeps(sha, s0, sys, i, h);
    }
  }

  lemma TurnKeepsCalls(sha: Bytes -> Hash, s0: Store, sys: System, i: nat)
    requires Calls(sha, s0, sys.procs) && Safe(sha, s0, sys.procs) && AllWellFormed(sha, sys) && i in sys.procs
    ensures Calls(sha, s0, Turn(sha, sys, i).procs) && Safe(sha, s0, Turn(sha, sys, i).procs)
  {
    StepAdvances(sha, sys.store, sys.procs[i]);
    CallsKept(sha, s0, sys.procs, i, Turn(sha, sys, i).procs[i]);
    SafeKept(sha, s0, sys.procs, i, Turn(sha, sys, i).procs[i]);
  }

  /** Whoever moves, the invariant holds again. */
  lemma TurnStaysGuarded(sha: Bytes -> Hash, s0: Store, sys: System, i: nat)
    requires Guarded(sha, s0, sys)
    ensures AllWellFormed(sha, sys) && Guarded(sha, s0, Turn(sha, sys, i))
  {
    GuardedIsWellFormed(sha, s0, sys);
    var now := Turn(sha, sys, i);
    if i !in sys.procs || sys.procs[i].at == Finished {
      assert now.procs == sys.procs && now.store == sys.store;
      assert now == sys;
    } else {
      TurnKeepsCalls(sha, s0, sys, i);
      StepKeepsSchema(sha, sys.store, sys.procs[i]);
      TurnKeepsFiles(sha, s0, sys, i);
      forall j | j in now.procs ensures Holds(sha, s0, now, j) { TurnHolds(sha, s0, sys, i, j); }
      forall h: Hash ensures Kept(sha, s0, now, h) { TurnKeeps(sha, s0, sys, i, h); }
    }
  }
}
