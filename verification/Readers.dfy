/** A download among concurrent uploads and deletes: a reader joins the row of a file, and fetches the
    blob under its path after any number of other calls. */
module Readers {
  import opened Model
  import opened Schema
  import opened Protocol
  import opened Machine
  import opened Bound
  import opened Refinement
  import opened Safety
  import opened SafetySteps
  import opened SafetyRuns
  import opened SafetyEnds

  // ---------- no path ever serves another content ----------

  /** Content of an upload that has this path. */
  ghost predicate WrittenBy(procs: map<nat, Proc>, path: string, content: Bytes) {
    exists i :: i in procs && procs[i].job.UploadJob? && procs[i].job.args.path == path
                && procs[i].job.args.content == content
  }

  predicate UnderWay(p: Proc) {
    p.job.UploadJob? && p.at != PutContent && p.at != Finished
  }

  /** Blobs are those of the start, or of the upload with that path; rows point where they may. */
  ghost predicate Known(sha: Bytes -> Hash, s0: Store, sys: System) {
    && (forall path :: path in sys.store.blobs ==>
          || (path in s0.blobs && sys.store.blobs[path] == s0.blobs[path])
          || WrittenBy(sys.procs, path, sys.store.blobs[path]))
    && (forall h :: h in sys.store.db.rows ==> MayPoint(sha, s0, sys.procs, h, sys.store.db.rows[h].path))
    && (forall i :: i in sys.procs && UnderWay(sys.procs[i]) ==> sys.procs[i].job.args.accepted)
  }

  lemma WrittenByLasts(procs: map<nat, Proc>, i: nat, p': Proc, path: string, content: Bytes)
    requires i in procs && p'.job == procs[i].job && WrittenBy(procs, path, content)
    ensures WrittenBy(procs[i := p'], path, content)
  {
    var j :| j in procs && procs[j].job.UploadJob? && procs[j].job.args.path == path
             && procs[j].job.args.content == content;
    assert procs[i := p'][j].job == procs[j].job;
  }

  /** What one step writes, and where a row that it makes points. */
  lemma StepWrites(sha: Bytes -> Hash, s: Store, p: Proc)
    requires WellFormed(sha, p) && p.at != Finished && p.faults == {}
    ensures var (s', p') := Step(sha, s, p);
            && (forall path :: path in s'.blobs ==>
                  || (path in s.blobs && s'.blobs[path] == s.blobs[path])
                  || (p.job.UploadJob? && path == p.job.args.path && s'.blobs[path] == p.job.args.content))
            && (forall h :: h in s'.db.rows ==>
                  || (h in s.db.rows && s'.db.rows[h].path == s.db.rows[h].path)
                  || (p.job.UploadJob? && p.at == AddRow && h == sha(p.job.args.content)
                      && s'.db.rows[h].path == p.job.args.path))
            && (p.job.UploadJob? && p'.at != Finished && p.at == PutContent ==> p.job.args.accepted)
  {
  }

  lemma TurnKnows(sha: Bytes -> Hash, s0: Store, sys: System, i: nat)
    requires AllWellFormed(sha, sys) && Faultless(sys.procs) && Known(sha, s0, sys)
    requires i in sys.procs && sys.procs[i].at != Finished
    ensures Known(sha, s0, Turn(sha, sys, i))
  {
    var p := sys.procs[i];
    var (s', p') := Step(sha, sys.store, p);
    var procs' := sys.procs[i := p'];
    StepAdvances(sha, sys.store, p);
    StepWrites(sha, sys.store, p);
    forall path | path in s'.blobs
      ensures (path in s0.blobs && s'.blobs[path] == s0.blobs[path]) || WrittenBy(procs', path, s'.blobs[path])
    {
      BlobKnown(sys, i, p', path, s'.blobs[path]);
    }
    forall h | h in s'.db.rows
      ensures MayPoint(sha, s0, procs', h, s'.db.rows[h].path)
    {
      RowKnown(sha, s0, sys, i, p', h, s'.db.rows[h].path);
    }
  }

  lemma BlobKnown(sys: System, i: nat, p': Proc, path: string, content: Bytes)
    requires i in sys.procs && p'.job == sys.procs[i].job
    ensures WrittenBy(sys.procs, path, content) ==> WrittenBy(sys.procs[i := p'], path, content)
    ensures p'.job.UploadJob? && p'.job.args.path == path && p'.job.args.content == content ==>
              WrittenBy(sys.procs[i := p'], path, content)
  {
    if WrittenBy(sys.procs, path, content) {
      WrittenByLasts(sys.procs, i, p', path, content);
    }
    assert sys.procs[i := p'][i] == p';
  }

  lemma RowKnown(sha: Bytes -> Hash, s0: Store, sys: System, i: nat, p': Proc, h: Hash, path: string)
    requires i in sys.procs && p'.job == sys.procs[i].job
    ensures MayPoint(sha, s0, sys.procs, h, path) ==> MayPoint(sha, s0, sys.procs[i := p'], h, path)
    ensures Carries(sha, p'.job, h) && p'.job.args.path == path ==> MayPoint(sha, s0, sys.procs[i := p'], h, path)
  {
    if MayPoint(sha, s0, sys.procs, h, path) {
      MayPointLasts(sha, s0, sys.procs, i, p', h, path);
    }
    if Carries(sha, p'.job, h) {
      assert i in Carriers(sha, sys.procs[i := p'], h);
    }
  }

  lemma {:induction false} StaysKnown(sha: Bytes -> Hash, s0: Store, sys: System, schedule: seq<nat>)
    requires AllWellFormed(sha, sys) && Faultless(sys.procs) && Known(sha, s0, sys)
    ensures var now := Interleave(sha, sys, schedule);
            AllWellFormed(sha, now) && Faultless(now.procs) && Known(sha, s0, now)
    decreases |schedule|
  {
    if schedule == [] {
    } else {
      var i := schedule[0];
      TurnKeepsForm(sha, sys, i);
      if i in sys.procs {
        StepAdvances(sha, sys.store, sys.procs[i]);
        if sys.procs[i].at == Finished {
          assert Turn(sha, sys, i).procs == sys.procs;
        } else {
          TurnKnows(sha, s0, sys, i);
        }
      }
      StaysKnown(sha, s0, Turn(sha, sys, i), schedule[1..]);
    }
  }

  /** A path that a row of `h` may have holds, whenever it holds anything, content of that digest. */
  lemma PathServesItsDigest(sha: Bytes -> Hash, s0: Store, now: System, h: Hash, path: string)
    requires Calls(sha, s0, now.procs) && Known(sha, s0, now) && MayPoint(sha, s0, now.procs, h, path)
    ensures path in now.store.blobs ==> sha(now.store.blobs[path]) == h
  {
    if h in s0.db.rows && path == s0.db.rows[h].path {
      assert RowBacked(sha, s0, h);
    }
  }

  /** The path that a reader finds in the row of a file, at the moment it looks. */
  function PathRead(now: System, id: string): string
    requires Joins(now.store.db, id)
  {
    now.store.db.rows[now.store.db.files[id].hash].path
  }

  lemma StartIsKnown(sha: Bytes -> Hash, sys: System)
    requires Calls(sha, sys.store, sys.procs) && AtStart(sys)
    ensures AllWellFormed(sha, sys) && Known(sha, sys.store, sys)
  {
    StartIsWellFormed(sha, sys);
  }

  lemma SameCalls(sha: Bytes -> Hash, s0: Store, procs: map<nat, Proc>, procs': map<nat, Proc>)
    requires Calls(sha, s0, procs) && procs'.Keys == procs.Keys
    requires forall i :: i in procs ==> procs'[i].job == procs[i].job && procs'[i].faults == procs[i].faults
    ensures Calls(sha, s0, procs')
  {
  }

  lemma SamePoints(sha: Bytes -> Hash, s0: Store, procs: map<nat, Proc>, procs': map<nat, Proc>, h: Hash, path: string)
    requires MayPoint(sha, s0, procs, h, path) && procs'.Keys == procs.Keys
    requires forall i :: i in procs ==> procs'[i].job == procs[i].job
    ensures MayPoint(sha, s0, procs', h, path)
  {
    if !(h in s0.db.rows && path == s0.db.rows[h].path) {
      var u :| u in Carriers(sha, procs, h) && procs[u].job.args.path == path;
      assert u in Carriers(sha, procs', h);
    }
  }

  /** In any batch of fault-free calls, safe or not: whatever runs between the look at the row and
      the fetch of the blob, the reader never gets bytes of another digest. */
  lemma NeverWrongBytes(sha: Bytes -> Hash, sys: System, before: seq<nat>, between: seq<nat>, id: string)
    requires Calls(sha, sys.store, sys.procs) && AtStart(sys)
    ensures AllWellFormed(sha, sys) && AllWellFormed(sha, Interleave(sha, sys, before))
    ensures var look := Interleave(sha, sys, before);
            var fetch := Interleave(sha, look, between);
            Joins(look.store.db, id) && PathRead(look, id) in fetch.store.blobs ==>
              sha(fetch.store.blobs[PathRead(look, id)]) == look.store.db.files[id].hash
  {
    StartIsKnown(sha, sys);
    StaysKnown(sha, sys.store, sys, before);
    var look := Interleave(sha, sys, before);
    StaysKnown(sha, sys.store, look, between);
    var fetch := Interleave(sha, look, between);
    InterleavingKeepsJobs(sha, sys, before);
    InterleavingKeepsJobs(sha, look, between);
    if Joins(look.store.db, id) {
      SameCalls(sha, sys.store, sys.procs, fetch.procs);
      SamePoints(sha, sys.store, look.procs, fetch.procs, look.store.db.files[id].hash, PathRead(look, id));
      PathServesItsDigest(sha, sys.store, fetch, look.store.db.files[id].hash, PathRead(look, id));
    }
  }

  // ---------- a safe batch fails a reader only after a delete ----------

  lemma PathsStay(sha: Bytes -> Hash, s: Store, p: Proc, h: Hash)
    requires WellFormed(sha, p) && h in s.db.rows && h in Step(sha, s, p).0.db.rows
    ensures Step(sha, s, p).0.db.rows[h].path == s.db.rows[h].path
  {
  }

  lemma FilesStay(sha: Bytes -> Hash, s: Store, p: Proc, id: string)
    requires WellFormed(sha, p) && id in s.db.files && id in Step(sha, s, p).0.db.files
    ensures Step(sha, s, p).0.db.files[id] == s.db.files[id]
  {
  }

  lemma LivePathStays(sha: Bytes -> Hash, s: Store, p: Proc, id: string)
    requires WellFormed(sha, p) && SchemaHolds(s.db) && SchemaHolds(Step(sha, s, p).0.db)
    requires id in s.db.files && id in Step(sha, s, p).0.db.files
    ensures var s' := Step(sha, s, p).0;
            && s'.db.files[id] == s.db.files[id] && Joins(s.db, id) && Joins(s'.db, id)
            && s'.db.rows[s'.db.files[id].hash].path == s.db.rows[s.db.files[id].hash].path
  {
    FilesStay(sha, s, p, id);
    PathsStay(sha, s, p, s.db.files[id].hash);
  }

  lemma {:induction false} RemovedForGood(sha: Bytes -> Hash, s0: Store, sys: System, schedule: seq<nat>, id: string)
    requires Guarded(sha, s0, sys)
    ensures AllWellFormed(sha, sys)
    ensures Alive(Interleave(sha, sys, schedule).procs, id) ==> Alive(sys.procs, id)
    decreases |schedule|
  {
    GuardedIsWellFormed(sha, s0, sys);
    if schedule == [] {
    } else {
      var i := schedule[0];
      TurnStaysGuarded(sha, s0, sys, i);
      RemovedForGood(sha, s0, Turn(sha, sys, i), schedule[1..], id);
      if i in sys.procs && sys.procs[i].at != Finished && Alive(Turn(sha, sys, i).procs, id) {
        GuardedMoves(sha, s0, sys, i);
        AliveBefore(sys.procs, i, Step(sha, sys.store, sys.procs[i]).1, id);
      } else if i in sys.procs && sys.procs[i].at == Finished {
        assert Turn(sha, sys, i).procs == sys.procs;
      }
    }
  }

  /** A file that is there now and later is there throughout, and its row keeps its path. */
  lemma {:induction false} PathLasts(sha: Bytes -> Hash, s0: Store, sys: System, schedule: seq<nat>, id: string)
    requires Guarded(sha, s0, sys) && id in sys.store.db.files
    ensures AllWellFormed(sha, sys)
    ensures var now := Interleave(sha, sys, schedule);
            id in now.store.db.files ==>
              Joins(sys.store.db, id) && Joins(now.store.db, id) && PathRead(now, id) == PathRead(sys, id)
    decreases |schedule|
  {
    GuardedIsWellFormed(sha, s0, sys);
    if schedule == [] {
    } else {
      var i := schedule[0];
      var next := Turn(sha, sys, i);
      TurnStaysGuarded(sha, s0, sys, i);
      if id in Interleave(sha, sys, schedule).store.db.files {
        InterleavingGuarded(sha, s0, next, schedule[1..]);
        LiveIsAlive(sha, s0, Interleave(sha, next, schedule[1..]), id);
        RemovedForGood(sha, s0, next, schedule[1..], id);
        LiveStaysInTurn(sha, s0, sys, i, id);
        PathLasts(sha, s0, next, schedule[1..], id);
      }
    }
  }

  lemma {:induction false} InterleavingGuarded(sha: Bytes -> Hash, s0: Store, sys: System, schedule: seq<nat>)
    requires Guarded(sha, s0, sys)
    ensures AllWellFormed(sha, sys) && Guarded(sha, s0, Interleave(sha, sys, schedule))
    decreases |schedule|
  {
    GuardedIsWellFormed(sha, s0, sys);
    if schedule == [] {
    } else {
      TurnStaysGuarded(sha, s0, sys, schedule[0]);
      InterleavingGuarded(sha, s0, Turn(sha, sys, schedule[0]), schedule[1..]);
    }
  }

  lemma LiveStaysInTurn(sha: Bytes -> Hash, s0: Store, sys: System, i: nat, id: string)
    requires Guarded(sha, s0, sys) && AllWellFormed(sha, sys) && Guarded(sha, s0, Turn(sha, sys, i))
    requires id in sys.store.db.files && Alive(Turn(sha, sys, i).procs, id)
    ensures var next := Turn(sha, sys, i);
            && id in next.store.db.files && Joins(sys.store.db, id) && Joins(next.store.db, id)
            && PathRead(next, id) == PathRead(sys, id)
  {
    if i in sys.procs && sys.procs[i].at != Finished {
      assert Holds(sha, s0, sys, i);
      StepKeepsFiles(sha, sys.store, sys.procs[i], id);
      assert !HasRemoved(Turn(sha, sys, i).procs[i], id);
      LivePathStays(sha, sys.store, sys.procs[i], id);
    }
  }

  /** In a safe batch: a reader that has found the row of a file gets its bytes, unless a delete of
      that file has removed it in between. */
  lemma FailsOnlyAfterDelete(sha: Bytes -> Hash, sys: System, before: seq<nat>, between: seq<nat>, id: string)
    requires Calls(sha, sys.store, sys.procs) && Safe(sha, sys.store, sys.procs) && AtStart(sys)
    ensures AllWellFormed(sha, sys) && AllWellFormed(sha, Interleave(sha, sys, before))
    ensures var look := Interleave(sha, sys, before);
            var fetch := Interleave(sha, look, between);
            Joins(look.store.db, id) && PathRead(look, id) !in fetch.store.blobs ==>
              id !in fetch.store.db.files && !Alive(fetch.procs, id)
  {
    StaysRecorded(sha, sys, before);
    var look := Interleave(sha, sys, before);
    GuardedIsWellFormed(sha, sys.store, look);
    InterleavingRecords(sha, sys.store, look, between);
    var fetch := Interleave(sha, look, between);
    if Joins(look.store.db, id) {
      PathLasts(sha, sys.store, look, between, id);
      if id in fetch.store.db.files {
        LiveFileIsServed(sha, sys.store, fetch, id);
      } else {
        GoneWasRemoved(sha, sys.store, look, between, id);
      }
    }
  }

  /** What was there once and is gone has been removed. */
  lemma GoneWasRemoved(sha: Bytes -> Hash, s0: Store, look: System, between: seq<nat>, id: string)
    requires Guarded(sha, s0, look) && Recorded(sha, s0, look) && id in look.store.db.files
    ensures AllWellFormed(sha, look)
    ensures id !in Interleave(sha, look, between).store.db.files ==>
              !Alive(Interleave(sha, look, between).procs, id)
  {
    InterleavingRecords(sha, s0, look, between);
    var fetch := Interleave(sha, look, between);
    LiveBelongs(sha, s0, look, id);
    if id !in s0.db.files {
      var u :| u in Carriers(sha, look.procs, look.store.db.files[id].hash) && look.procs[u].job.args.id == id
               && Stored(look.procs[u]);
      StoredStays(sha, s0, look, between, u);
      assert Uploaded(fetch.procs, id);
    }
  }

  lemma {:induction false} StoredStays(sha: Bytes -> Hash, s0: Store, sys: System, schedule: seq<nat>, u: nat)
    requires Guarded(sha, s0, sys) && u in sys.procs && Stored(sys.procs[u])
    ensures AllWellFormed(sha, sys)
    ensures u in Interleave(sha, sys, schedule).procs && Interleave(sha, sys, schedule).procs[u] == sys.procs[u]
    decreases |schedule|
  {
    GuardedIsWellFormed(sha, s0, sys);
    if schedule == [] {
    } else {
      TurnStaysGuarded(sha, s0, sys, schedule[0]);
      StoredStays(sha, s0, Turn(sha, sys, schedule[0]), schedule[1..], u);
    }
  }
}
