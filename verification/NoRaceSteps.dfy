/** Every step keeps the invariant of module NoRace. */
module NoRaceSteps {
  import opened Wrappers
  import opened Model
  import opened Schema
  import opened Protocol
  import opened Machine
  import opened Bound
  import opened Safety
  import opened SafetySteps
  import opened NoRace

  // ---------- the processes that do not move ----------

  /** An upload makes or raises no row that a delete has seen reach zero. */
  lemma UploadStepUnnoticed(sha: Bytes -> Hash, s: Store, p: Proc, q: Proc)
    requires WellFormed(sha, p) && p.job.UploadJob? && p.at != Finished && p.faults == {} && UploadLocal(sha, s, p)
    requires q.job.DeleteJob?
    requires p.job.args.accepted ==> !SawZero(q, sha(p.job.args.content))
    requires Cleaning(q) ==> q.hash.Some? && SawZero(q, q.hash.value)
    ensures Unnoticed(s, Step(sha, s, p).0, q)
  {
    var a := p.job.args;
    var h := sha(a.content);
    match p.at {
      case PutContent => PutUnnoticed(s, a.path, a.content, q);
      case DropCopy => DropUnnoticed(s, a.path, q);
      case DropUnstored => DropUnnoticed(s, a.path, q);
      case RaiseCount => CountUnnoticed(s, h, 1, a.now, q);
      case AddRow =>
        if CanInsertStorage(s.db, h, a.path) {
          InsertStorageUnnoticed(s, h, NewRow(a), q);
        }
      case AddReference => InsertFileUnnoticed(s, a.id, NewFile(sha, a), q);
      case AddFirstFile => InsertFileUnnoticed(s, a.id, NewFile(sha, a), q);
      case _ =>
    }
  }

  lemma UploadUnnoticed(sha: Bytes -> Hash, s0: Store, sys: System, i: nat, j: nat)
    requires Steady(sha, s0, sys) && i in sys.procs && j in sys.procs
    requires sys.procs[i].job.UploadJob? && sys.procs[i].at != Finished && sys.procs[j].job.DeleteJob?
    requires WellFormed(sha, sys.procs[i])
    ensures Unnoticed(sys.store, Step(sha, sys.store, sys.procs[i]).0, sys.procs[j])
  {
    assert Holds(sha, s0, sys, i);
    if sys.procs[i].job.args.accepted && SawZero(sys.procs[j], sha(sys.procs[i].job.args.content)) {
      ZeroIsNotPending(sha, s0, sys, i, j, sha(sys.procs[i].job.args.content));
    }
    if Cleaning(sys.procs[j]) {
      CleanerSawZero(sha, s0, sys, j);
    }
    UploadStepUnnoticed(sha, sys.store, sys.procs[i], sys.procs[j]);
  }

  /** While one delete cleans up a hash, no other still has to release it or cleans it up too. */
  lemma CleanersDiffer(sha: Bytes -> Hash, s0: Store, sys: System, i: nat, j: nat, h: Hash)
    requires Steady(sha, s0, sys) && i in sys.procs && j in sys.procs && i != j
    requires sys.procs[i].job.DeleteJob? && sys.procs[i].hash == Some(h)
    requires sys.procs[i].at == ReleaseCount || Cleaning(sys.procs[i])
    requires Cleaning(sys.procs[j])
    ensures sys.procs[j].hash != Some(h)
  {
    assert Local(sys, i) && Local(sys, j);
    CleanerSawZero(sha, s0, sys, j);
    if sys.procs[i].at == ReleaseCount {
      OwedIsPositive(sha, s0, sys, i, h);
    } else {
      CleanerSawZero(sha, s0, sys, i);
    }
  }

  lemma DeleteStepUnnoticed(sha: Bytes -> Hash, s: Store, p: Proc, q: Proc)
    requires WellFormed(sha, p) && p.job.DeleteJob? && p.at != Finished && p.faults == {}
    requires q.job.DeleteJob? && (q.at == RemoveFile ==> q.job.id != p.job.id)
    requires (p.at == ReleaseCount || Cleaning(p)) && Cleaning(q) ==> q.hash != p.hash
    ensures Unnoticed(s, Step(sha, s, p).0, q)
  {
    match p.at {
      case ReleaseCount => CountUnnoticed(s, p.hash.value, -1, p.job.now, q);
      case DropContent => DropUnnoticed(s, p.read.value.path, q);
      case RemoveRow => DeleteStorageUnnoticed(s, p.hash.value, q);
      case _ =>
    }
  }

  /** What a delete has found is a file of the start, or one that an upload has added. */
  lemma FoundIsVictim(sha: Bytes -> Hash, s0: Store, sys: System, j: nat)
    requires Guarded(sha, s0, sys) && j in sys.procs && sys.procs[j].job.DeleteJob? && sys.procs[j].hash.Some?
    ensures Victim(sha, s0, sys.procs, sys.procs[j].hash.value, sys.procs[j].job.id)
  {
    assert Holds(sha, s0, sys, j);
  }

  lemma DeleteUnnoticed(sha: Bytes -> Hash, s0: Store, sys: System, i: nat, j: nat)
    requires Steady(sha, s0, sys) && i in sys.procs && j in sys.procs && i != j
    requires sys.procs[i].job.DeleteJob? && sys.procs[i].at != Finished && sys.procs[j].job.DeleteJob?
    requires WellFormed(sha, sys.procs[i])
    ensures Unnoticed(sys.store, Step(sha, sys.store, sys.procs[i]).0, sys.procs[j])
  {
    assert Holds(sha, s0, sys, i);
    if (sys.procs[i].at == ReleaseCount || Cleaning(sys.procs[i])) && Cleaning(sys.procs[j]) {
      CleanersDiffer(sha, s0, sys, i, j, sys.procs[i].hash.value);
    }
    if sys.procs[j].at == RemoveFile && sys.procs[i].job.id == sys.procs[j].job.id {
      FoundIsVictim(sha, s0, sys, j);
      assert Deletes(sys.procs, i, sys.procs[j].job.id) && Deletes(sys.procs, j, sys.procs[j].job.id);
    }
    DeleteStepUnnoticed(sha, sys.store, sys.procs[i], sys.procs[j]);
  }

  lemma OthersStayLocal(sha: Bytes -> Hash, s0: Store, sys: System, i: nat, j: nat)
    requires Steady(sha, s0, sys) && AllWellFormed(sha, sys)
    requires i in sys.procs && j in sys.procs && i != j && sys.procs[i].at != Finished
    ensures Local(Turn(sha, sys, i), j)
  {
    assert Local(sys, j);
    if sys.procs[j].job.DeleteJob? {
      if sys.procs[i].job.UploadJob? {
        UploadUnnoticed(sha, s0, sys, i, j);
      } else {
        DeleteUnnoticed(sha, s0, sys, i, j);
      }
    }
  }

  // ---------- the process that moves ----------

  /** A delete keeps to its own invariant if the count it releases is positive and the row it
      removes has no files. */
  lemma DeleteStepStaysLocal(sha: Bytes -> Hash, s: Store, p: Proc)
    requires WellFormed(sha, p) && p.job.DeleteJob? && p.at != Finished && p.faults == {} && DeleteLocal(s, p)
    requires p.at in {FindHash, RemoveFile, ReleaseCount} ==> p.seen == None
    requires Cleaning(p) ==> p.seen == Some(0)
    requires p.at == ReleaseCount ==> CountOf(s.db, p.hash.value) >= 1
    requires p.at == RemoveRow ==> !Referenced(s.db, p.hash.value)
    ensures DeleteLocal(StepDelete(sha, s, p).0, StepDelete(sha, s, p).1)
  {
  }

  lemma EmptyRowHasNoFiles(sha: Bytes -> Hash, s0: Store, sys: System, h: Hash)
    requires Steady(sha, s0, sys) && CountOf(sys.store.db, h) == 0
    ensures !Referenced(sys.store.db, h)
  {
    assert Exact(sys, h);
    NoFilesIffUnreferenced(sys.store.db, h);
  }

  lemma DeleteStaysLocal(sha: Bytes -> Hash, s0: Store, sys: System, i: nat)
    requires Steady(sha, s0, sys) && i in sys.procs && WellFormed(sha, sys.procs[i])
    requires sys.procs[i].job.DeleteJob? && sys.procs[i].at != Finished
    ensures DeleteLocal(Step(sha, sys.store, sys.procs[i]).0, Step(sha, sys.store, sys.procs[i]).1)
  {
    var p := sys.procs[i];
    assert Local(sys, i) && Holds(sha, s0, sys, i);
    if p.at == ReleaseCount {
      OwedIsPositive(sha, s0, sys, i, p.hash.value);
    } else if p.at == RemoveRow {
      EmptyRowHasNoFiles(sha, s0, sys, p.hash.value);
    }
    DeleteStepStaysLocal(sha, sys.store, p);
  }

  lemma NoNewLeak(sha: Bytes -> Hash, s: Store, p: Proc)
    requires WellFormed(sha, p) && p.at != Finished && p.faults == {} && p.debt != Leak
    requires p.job.UploadJob? ==> UploadLocal(sha, s, p)
    ensures Step(sha, s, p).1.debt != Leak
  {
  }

  lemma MoverStaysLocal(sha: Bytes -> Hash, s0: Store, sys: System, i: nat)
    requires Steady(sha, s0, sys) && AllWellFormed(sha, sys) && i in sys.procs && sys.procs[i].at != Finished
    ensures Local(Turn(sha, sys, i), i)
  {
    var p := sys.procs[i];
    assert Local(sys, i) && Holds(sha, s0, sys, i);
    StepAdvances(sha, sys.store, p);
    NoNewLeak(sha, sys.store, p);
    if p.job.DeleteJob? {
      DeleteStaysLocal(sha, s0, sys, i);
    }
  }

  // ---------- counts ----------

  lemma UploadStaysExact(sha: Bytes -> Hash, s: Store, p: Proc, h: Hash)
    requires WellFormed(sha, p) && p.job.UploadJob? && p.at != Finished && p.faults == {} && p.debt != Leak
    requires UploadLocal(sha, s, p)
    ensures var (s', p') := Step(sha, s, p);
            Surplus(s'.db, h) - Owe(p', h) == Surplus(s.db, h) - Owe(p, h)
  {
    var a := p.job.args;
    var g := sha(a.content);
    match p.at {
      case RaiseCount => SurplusOfAddToCount(s.db, g, 1, a.now, h);
      case AddReference => SurplusOfInsertFile(s.db, a.id, NewFile(sha, a), h);
      case AddFirstFile => SurplusOfInsertFile(s.db, a.id, NewFile(sha, a), h);
      case AddRow =>
        if CanInsertStorage(s.db, g, a.path) {
          SurplusOfInsertStorage(s.db, g, NewRow(a), h);
        }
      case _ =>
    }
  }

  lemma DeleteStaysExact(sha: Bytes -> Hash, s: Store, p: Proc, h: Hash)
    requires WellFormed(sha, p) && p.job.DeleteJob? && p.at != Finished && p.faults == {} && p.debt != Leak
    requires DeleteLocal(s, p) && (p.at == ReleaseCount ==> p.hash.value in s.db.rows)
    ensures var (s', p') := Step(sha, s, p);
            Surplus(s'.db, h) - Owe(p', h) == Surplus(s.db, h) - Owe(p, h)
  {
    match p.at {
      case RemoveFile => SurplusOfDeleteFile(s.db, p.job.id, h);
      case ReleaseCount => SurplusOfAddToCount(s.db, p.hash.value, -1, p.job.now, h);
      case RemoveRow => SurplusOfDeleteStorage(s.db, p.hash.value, h);
      case _ =>
    }
  }

  // ---------- blobs ----------

  lemma UploadKeepsTaken(sha: Bytes -> Hash, s: Store, p: Proc, path: string)
    requires WellFormed(sha, p) && p.job.UploadJob? && p.at != Finished && p.faults == {} && UploadLocal(sha, s, p)
    requires PathTaken(s.db, path)
    ensures PathTaken(StepUpload(sha, s, p).0.db, path)
  {
    var s' := StepUpload(sha, s, p).0;
    var h :| h in s.db.rows && s.db.rows[h].path == path;
    assert h in s'.db.rows && s'.db.rows[h].path == path;
  }

  /** An upload's blob is its own until a row takes the path, and it touches no other blob. */
  lemma UploadOwnsBlob(sha: Bytes -> Hash, s: Store, p: Proc, path: string)
    requires WellFormed(sha, p) && p.job.UploadJob? && p.at != Finished && p.faults == {} && UploadLocal(sha, s, p)
    requires path in StepUpload(sha, s, p).0.blobs
    ensures var (s', p') := StepUpload(sha, s, p);
            path in s.blobs || (path == p.job.args.path && HoldsBlob(p'))
    ensures var (s', p') := StepUpload(sha, s, p);
            path == p.job.args.path && HoldsBlob(p) ==> HoldsBlob(p') || PathTaken(s'.db, path)
  {
    var (s', p') := StepUpload(sha, s, p);
    var h := sha(p.job.args.content);
    if p.at == AddRow && CanInsertStorage(s.db, h, p.job.args.path) {
      assert h in s'.db.rows && s'.db.rows[h].path == p.job.args.path;
    }
  }

  lemma UploadStaysOwned(sha: Bytes -> Hash, sys: System, i: nat, path: string)
    requires AllWellFormed(sha, sys) && i in sys.procs && Owned(sys, path)
    requires sys.procs[i].job.UploadJob? && sys.procs[i].at != Finished && sys.procs[i].faults == {}
    requires UploadLocal(sha, sys.store, sys.procs[i])
    ensures Owned(Turn(sha, sys, i), path)
  {
    var s, p := sys.store, sys.procs[i];
    if path in StepUpload(sha, s, p).0.blobs {
      UploadOwnsBlob(sha, s, p, path);
      if PathTaken(s.db, path) {
        UploadKeepsTaken(sha, s, p, path);
      } else {
        HolderStays(sys.procs, i, StepUpload(sha, s, p).1, path);
      }
    }
  }

  lemma HolderStays(procs: map<nat, Proc>, i: nat, p': Proc, path: string)
    requires i in procs && p'.job == procs[i].job && p'.job.UploadJob?
    ensures HoldsBlob(p') && p'.job.args.path == path ==> Held(procs[i := p'], path)
    ensures Held(procs, path) && !(HoldsBlob(procs[i]) && procs[i].job.args.path == path) ==>
              Held(procs[i := p'], path)
  {
    HeldByOneself(procs, i, p', path);
    if Held(procs, path) && !(HoldsBlob(procs[i]) && procs[i].job.args.path == path) {
      HeldByOthers(procs, i, p', path);
    }
  }

  lemma HeldByOneself(procs: map<nat, Proc>, i: nat, p': Proc, path: string)
    requires i in procs
    ensures HoldsBlob(p') && p'.job.args.path == path ==> Held(procs[i := p'], path)
  {
    assert procs[i := p'][i] == p';
  }

  lemma HeldByOthers(procs: map<nat, Proc>, i: nat, p': Proc, path: string)
    requires i in procs && Held(procs, path)
    requires HoldsBlob(procs[i]) ==> procs[i].job.args.path != path
    ensures Held(procs[i := p'], path)
  {
    var k :| k in procs && HoldsBlob(procs[k]) && procs[k].job.args.path == path;
    assert k in procs[i := p'] && HoldsBlob(procs[i := p'][k]);
  }

  /** A delete drops a row's path from the blobs before it drops the row. */
  lemma DeleteKeepsTaken(sha: Bytes -> Hash, s: Store, p: Proc, path: string)
    requires WellFormed(sha, p) && p.job.DeleteJob? && p.at != Finished && p.faults == {} && DeleteLocal(s, p)
    requires PathTaken(s.db, path) && path in StepDelete(sha, s, p).0.blobs
    ensures PathTaken(StepDelete(sha, s, p).0.db, path)
  {
    var s' := StepDelete(sha, s, p).0;
    var h :| h in s.db.rows && s.db.rows[h].path == path;
    assert h in s'.db.rows && s'.db.rows[h].path == path;
  }

  lemma DeleteAddsNoBlob(sha: Bytes -> Hash, s: Store, p: Proc)
    requires WellFormed(sha, p) && p.job.DeleteJob? && p.at != Finished
    ensures StepDelete(sha, s, p).0.blobs.Keys <= s.blobs.Keys
  {
  }

  lemma DeleteStaysOwned(sha: Bytes -> Hash, sys: System, i: nat, path: string)
    requires AllWellFormed(sha, sys) && i in sys.procs && Owned(sys, path)
    requires sys.procs[i].job.DeleteJob? && sys.procs[i].at != Finished && sys.procs[i].faults == {}
    requires DeleteLocal(sys.store, sys.procs[i])
    ensures Owned(Turn(sha, sys, i), path)
  {
    DeleteAddsNoBlob(sha, sys.store, sys.procs[i]);
    if path in Step(sha, sys.store, sys.procs[i]).0.blobs {
      if PathTaken(sys.store.db, path) {
        DeleteKeepsTaken(sha, sys.store, sys.procs[i], path);
      } else {
        HeldByOthers(sys.procs, i, Step(sha, sys.store, sys.procs[i]).1, path);
      }
    }
  }

  // ---------- rows with count zero ----------

  /** A count reaches zero only by a release, whose process goes on to clean up. */
  lemma ZeroAppears(sha: Bytes -> Hash, s: Store, p: Proc, h: Hash)
    requires WellFormed(sha, p) && p.at != Finished && p.faults == {}
    requires p.job.UploadJob? ==> UploadLocal(sha, s, p)
    requires h in s.db.rows ==> s.db.rows[h].count >= 0
    requires var s' := Step(sha, s, p).0; h in s'.db.rows && s'.db.rows[h].count == 0
    ensures var p' := Step(sha, s, p).1;
            (h in s.db.rows && s.db.rows[h].count == 0) || (Cleaning(p') && p'.hash == Some(h))
  {
  }

  /** A process stops cleaning up only when the row is gone. */
  lemma CleaningGoesOn(sha: Bytes -> Hash, s: Store, p: Proc, h: Hash)
    requires WellFormed(sha, p) && p.faults == {} && Cleaning(p) && p.hash == Some(h) && DeleteLocal(s, p)
    requires !Referenced(s.db, h) && h in Step(sha, s, p).0.db.rows
    ensures var p' := Step(sha, s, p).1; Cleaning(p') && p'.hash == Some(h)
  {
  }

  lemma TendedByOneself(procs: map<nat, Proc>, i: nat, p': Proc, h: Hash)
    requires i in procs && Cleaning(p') && p'.hash == Some(h)
    ensures Tended(procs[i := p'], h)
  {
    assert procs[i := p'][i] == p';
  }

  lemma TendedByOthers(procs: map<nat, Proc>, i: nat, p': Proc, h: Hash)
    requires i in procs && Tended(procs, h)
    requires Cleaning(procs[i]) && procs[i].hash == Some(h) ==> Cleaning(p') && p'.hash == Some(h)
    ensures Tended(procs[i := p'], h)
  {
    var c :| c in procs && Cleaning(procs[c]) && procs[c].hash == Some(h);
    assert Cleaning(procs[i := p'][c]);
  }

  lemma CountsAreNatural(sha: Bytes -> Hash, s0: Store, sys: System, h: Hash)
    requires Steady(sha, s0, sys)
    ensures CountOf(sys.store.db, h) >= 0
  {
    assert Exact(sys, h);
  }

  lemma TurnStaysAttended(sha: Bytes -> Hash, s0: Store, sys: System, i: nat, h: Hash)
    requires Steady(sha, s0, sys) && AllWellFormed(sha, sys) && i in sys.procs && sys.procs[i].at != Finished
    ensures Attended(Turn(sha, sys, i), h)
  {
    var s, p := sys.store, sys.procs[i];
    var (s', p') := Step(sha, s, p);
    assert Local(sys, i) && Holds(sha, s0, sys, i) && Attended(sys, h);
    if h in s'.db.rows && s'.db.rows[h].count == 0 {
      CountsAreNatural(sha, s0, sys, h);
      ZeroAppears(sha, s, p, h);
      if Cleaning(p') && p'.hash == Some(h) {
        TendedByOneself(sys.procs, i, p', h);
      } else {
        if Cleaning(p) && p.hash == Some(h) {
          EmptyRowHasNoFiles(sha, s0, sys, h);
          CleaningGoesOn(sha, s, p, h);
        }
        TendedByOthers(sys.procs, i, p', h);
      }
    }
  }

  lemma ZeroIsSeenOnRelease(sha: Bytes -> Hash, s: Store, p: Proc, h: Hash)
    requires WellFormed(sha, p) && p.at != Finished && SawZero(Step(sha, s, p).1, h)
    ensures SawZero(p, h) || (p.job.DeleteJob? && p.hash == Some(h) && p.at == ReleaseCount) || p.at == FindHash
  {
  }

  /** While a delete still has to release a hash, no other has seen it reach zero. */
  lemma NoZeroBeforeRelease(sha: Bytes -> Hash, s0: Store, sys: System, i: nat, j: nat, h: Hash)
    requires Steady(sha, s0, sys) && i in sys.procs && j in sys.procs
    requires sys.procs[i].job.DeleteJob? && sys.procs[i].at == ReleaseCount && sys.procs[i].hash == Some(h)
    ensures !SawZero(sys.procs[j], h)
  {
    assert Local(sys, i) && Local(sys, j) && Holds(sha, s0, sys, j);
    OwedIsPositive(sha, s0, sys, i, h);
  }

  lemma ZeroSeenOnce(sha: Bytes -> Hash, s0: Store, sys: System, i: nat, j: nat, h: Hash)
    requires Steady(sha, s0, sys) && i in sys.procs && j in sys.procs && i != j && sys.procs[i].at != Finished
    requires WellFormed(sha, sys.procs[i]) && SawZero(sys.procs[j], h)
    ensures !SawZero(Step(sha, sys.store, sys.procs[i]).1, h)
  {
    var p := sys.procs[i];
    if SawZero(Step(sha, sys.store, p).1, h) {
      ZeroIsSeenOnRelease(sha, sys.store, p, h);
      assert Holds(sha, s0, sys, i);
      if p.at == ReleaseCount {
        NoZeroBeforeRelease(sha, s0, sys, i, j, h);
      }
    }
  }

  lemma StaysOneZero(sha: Bytes -> Hash, s0: Store, sys: System, i: nat)
    requires Steady(sha, s0, sys) && AllWellFormed(sha, sys) && i in sys.procs && sys.procs[i].at != Finished
    ensures OneZero(Turn(sha, sys, i).procs)
  {
    forall j, h | j in sys.procs && j != i && SawZero(sys.procs[j], h)
      ensures !SawZero(Step(sha, sys.store, sys.procs[i]).1, h)
    {
      ZeroSeenOnce(sha, s0, sys, i, j, h);
    }
  }

  // ---------- one turn ----------

  lemma TurnStaysLocal(sha: Bytes -> Hash, s0: Store, sys: System, i: nat, j: nat)
    requires Steady(sha, s0, sys) && AllWellFormed(sha, sys)
    requires i in sys.procs && j in sys.procs && sys.procs[i].at != Finished
    ensures Local(Turn(sha, sys, i), j)
  {
    if i == j {
      MoverStaysLocal(sha, s0, sys, i);
    } else {
      OthersStayLocal(sha, s0, sys, i, j);
    }
  }

  lemma TurnStaysExact(sha: Bytes -> Hash, s0: Store, sys: System, i: nat, h: Hash)
    requires Steady(sha, s0, sys) && AllWellFormed(sha, sys) && i in sys.procs && sys.procs[i].at != Finished
    ensures Exact(Turn(sha, sys, i), h)
  {
    var p := sys.procs[i];
    assert Local(sys, i) && Holds(sha, s0, sys, i) && Exact(sys, h);
    OwingAfter(sys.procs, i, Step(sha, sys.store, p).1, h);
    if p.job.UploadJob? {
      UploadStaysExact(sha, sys.store, p, h);
    } else {
      if p.at == ReleaseCount {
        OwedIsPositive(sha, s0, sys, i, p.hash.value);
      }
      DeleteStaysExact(sha, sys.store, p, h);
    }
  }

  lemma TurnStaysOwned(sha: Bytes -> Hash, s0: Store, sys: System, i: nat, path: string)
    requires Steady(sha, s0, sys) && AllWellFormed(sha, sys) && i in sys.procs && sys.procs[i].at != Finished
    ensures Owned(Turn(sha, sys, i), path)
  {
    assert Local(sys, i) && Holds(sha, s0, sys, i) && Owned(sys, path);
    if sys.procs[i].job.UploadJob? {
      UploadStaysOwned(sha, sys, i, path);
    } else {
      DeleteStaysOwned(sha, sys, i, path);
    }
  }

  lemma TurnStaysOnce(sha: Bytes -> Hash, s0: Store, sys: System, i: nat)
    requires DeletedOnce(sha, s0, sys.procs) && AllWellFormed(sha, sys) && i in sys.procs
    ensures DeletedOnce(sha, s0, Turn(sha, sys, i).procs)
  {
    StepAdvances(sha, sys.store, sys.procs[i]);
    var p' := Turn(sha, sys, i).procs[i];
    var procs' := sys.procs[i := p'];
    forall k, j, h, v | Victim(sha, s0, procs', h, v) && Deletes(procs', k, v) && Deletes(procs', j, v)
      ensures k == j
    {
      SameVictims(sha, s0, sys.procs, i, p', h, v);
      assert Deletes(sys.procs, k, v) && Deletes(sys.procs, j, v);
    }
  }

  /** Whoever moves, the invariant holds again. */
  lemma TurnStaysSteady(sha: Bytes -> Hash, s0: Store, sys: System, i: nat)
    requires Steady(sha, s0, sys)
    ensures AllWellFormed(sha, sys) && Steady(sha, s0, Turn(sha, sys, i))
  {
    GuardedIsWellFormed(sha, s0, sys);
    var now := Turn(sha, sys, i);
    if i !in sys.procs || sys.procs[i].at == Finished {
      assert now.procs == sys.procs && now.store == sys.store;
      assert now == sys;
    } else {
      TurnStaysOnce(sha, s0, sys, i);
      TurnStaysGuarded(sha, s0, sys, i);
      forall j | j in now.procs ensures Local(now, j) { TurnStaysLocal(sha, s0, sys, i, j); }
      forall h: Hash ensures Exact(now, h) { TurnStaysExact(sha, s0, sys, i, h); }
      forall h: Hash ensures Attended(now, h) { TurnStaysAttended(sha, s0, sys, i, h); }
      forall path ensures Owned(now, path) { TurnStaysOwned(sha, s0, sys, i, path); }
      StaysOneZero(sha, s0, sys, i);
    }
  }
}
