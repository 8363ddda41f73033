/** What the invariant of module Safety gives over every interleaving of a safe batch. */
module SafetyRuns {
  import opened Model
  import opened Schema
  import opened Protocol
  import opened Machine
  import Bound
  import opened Refinement
  import opened PlainMap
  import opened Safety
  import opened SafetySteps

  // ---------- the start ----------

  lemma UnusedPathIsFree(sha: Bytes -> Hash, s: Store, path: string)
    requires Backed(sha, s) && path !in s.blobs
    ensures !PathTaken(s.db, path)
  {
    forall h | h in s.db.rows
      ensures s.db.rows[h].path != path
    {
      assert RowBacked(sha, s, h);
    }
  }

  lemma StartHolds(sha: Bytes -> Hash, s0: Store, sys: System, i: nat)
    requires Calls(sha, s0, sys.procs) && sys.store == s0 && AtStart(sys) && i in sys.procs
    ensures Holds(sha, s0, sys, i)
  {
    if sys.procs[i].job.UploadJob? {
      UnusedPathIsFree(sha, s0, sys.procs[i].job.args.path);
    }
  }

  lemma StartKeeps(sha: Bytes -> Hash, s0: Store, sys: System, h: Hash)
    requires Calls(sha, s0, sys.procs) && sys.store == s0 && AtStart(sys)
    ensures Kept(sha, s0, sys, h)
  {
    assert Released(sys.procs, h) == {} && Raised(sha, sys.procs, h) == {};
    if h in s0.db.rows {
      assert RowBacked(sha, s0, h);
    }
  }

  lemma StartIsGuarded(sha: Bytes -> Hash, sys: System)
    requires Calls(sha, sys.store, sys.procs) && Safe(sha, sys.store, sys.procs) && AtStart(sys)
    ensures Guarded(sha, sys.store, sys)
  {
    forall i | i in sys.procs
      ensures Holds(sha, sys.store, sys, i)
    {
      StartHolds(sha, sys.store, sys, i);
    }
    forall h: Hash
      ensures Kept(sha, sys.store, sys, h)
    {
      StartKeeps(sha, sys.store, sys, h);
    }
  }

  // ---------- where blobs come from ----------

  /** All contents a run can meet: the blobs it starts with and the contents it uploads. */
  ghost function SeenBy(s0: Store, procs: map<nat, Proc>): set<Bytes> {
    s0.blobs.Values + set i | i in procs && procs[i].job.UploadJob? :: procs[i].job.args.content
  }

  ghost predicate AllSeen(sys: System, seen: set<Bytes>) {
    && (forall path :: path in sys.store.blobs ==> sys.store.blobs[path] in seen)
    && (forall i :: i in sys.procs && sys.procs[i].job.UploadJob? ==> sys.procs[i].job.args.content in seen)
  }

  lemma StepBlobs(sha: Bytes -> Hash, s: Store, p: Proc, path: string)
    requires WellFormed(sha, p) && p.faults == {} && path in Step(sha, s, p).0.blobs
    ensures var s' := Step(sha, s, p).0;
            || (path in s.blobs && s'.blobs[path] == s.blobs[path])
            || (p.job.UploadJob? && s'.blobs[path] == p.job.args.content)
  {
  }

  lemma TurnSees(sha: Bytes -> Hash, sys: System, i: nat, seen: set<Bytes>)
    requires AllWellFormed(sha, sys) && Bound.Faultless(sys.procs) && AllSeen(sys, seen)
    ensures AllSeen(Turn(sha, sys, i), seen)
  {
    if i in sys.procs {
      StepAdvances(sha, sys.store, sys.procs[i]);
      forall path | path in Turn(sha, sys, i).store.blobs
        ensures Turn(sha, sys, i).store.blobs[path] in seen
      {
        StepBlobs(sha, sys.store, sys.procs[i], path);
      }
    }
  }

  lemma {:induction false} InterleavingStaysGuarded(sha: Bytes -> Hash, s0: Store, sys: System, schedule: seq<nat>,
                                                    seen: set<Bytes>)
    requires Guarded(sha, s0, sys) && AllSeen(sys, seen)
    ensures AllWellFormed(sha, sys)
    ensures Guarded(sha, s0, Interleave(sha, sys, schedule)) && AllSeen(Interleave(sha, sys, schedule), seen)
    decreases |schedule|
  {
    GuardedIsWellFormed(sha, s0, sys);
    if schedule == [] {
    } else {
      TurnStaysGuarded(sha, s0, sys, schedule[0]);
      TurnSees(sha, sys, schedule[0], seen);
      InterleavingStaysGuarded(sha, s0, Turn(sha, sys, schedule[0]), schedule[1..], seen);
    }
  }

  lemma Reachable(sha: Bytes -> Hash, sys: System, schedule: seq<nat>)
    requires Calls(sha, sys.store, sys.procs) && Safe(sha, sys.store, sys.procs) && AtStart(sys)
    ensures AllWellFormed(sha, sys)
    ensures var now := Interleave(sha, sys, schedule);
            Guarded(sha, sys.store, now) && AllSeen(now, SeenBy(sys.store, sys.procs))
  {
    StartIsGuarded(sha, sys);
    InterleavingStaysGuarded(sha, sys.store, sys, schedule, SeenBy(sys.store, sys.procs));
  }

  // ---------- in every reachable state ----------

  /** The file has its row, and the row its blob. */
  ghost predicate FileServed(sha: Bytes -> Hash, s: Store, id: string) {
    id in s.db.files ==> s.db.files[id].hash in s.db.rows && RowBacked(sha, s, s.db.files[id].hash)
  }

  /** A live file makes its hash needed. */
  lemma LiveIsNeeded(sha: Bytes -> Hash, s0: Store, now: System, id: string)
    requires Guarded(sha, s0, now) && id in now.store.db.files
    ensures Needed(sha, s0, now.procs, now.store.db.files[id].hash)
    ensures Begun(sha, s0, now.procs, now.store.db.files[id].hash)
  {
    var h := now.store.db.files[id].hash;
    LiveBelongs(sha, s0, now, id);
    FoundHasBegun(sha, s0, now.procs, h, id);
    forall i | i in now.procs
      ensures !HasRemoved(now.procs[i], id)
    {
      assert Holds(sha, s0, now, i);
    }
    assert Victim(sha, s0, now.procs, h, id) && Alive(now.procs, id);
  }

  lemma LiveFileIsServed(sha: Bytes -> Hash, s0: Store, now: System, id: string)
    requires Guarded(sha, s0, now)
    ensures FileServed(sha, now.store, id)
  {
    if id in now.store.db.files {
      LiveIsNeeded(sha, s0, now, id);
      assert Kept(sha, s0, now, now.store.db.files[id].hash);
    }
  }

  /** At no moment of any interleaving of a safe batch is a live file without its row or its bytes. */
  lemma LiveFilesAlwaysServed(sha: Bytes -> Hash, sys: System, schedule: seq<nat>, id: string)
    requires Calls(sha, sys.store, sys.procs) && Safe(sha, sys.store, sys.procs) && AtStart(sys)
    ensures AllWellFormed(sha, sys) && FileServed(sha, Interleave(sha, sys, schedule).store, id)
  {
    Reachable(sha, sys, schedule);
    LiveFileIsServed(sha, sys.store, Interleave(sha, sys, schedule), id);
  }

  /** With digests injective on the contents seen, the bytes are the right ones: those the file had
      at the start, or those its upload carried. */
  lemma LiveFilesKeepTheirBytes(sha: Bytes -> Hash, sys: System, schedule: seq<nat>, id: string)
    requires Calls(sha, sys.store, sys.procs) && Safe(sha, sys.store, sys.procs) && AtStart(sys)
    requires InjectiveOn(sha, SeenBy(sys.store, sys.procs))
    ensures AllWellFormed(sha, sys)
    ensures var now := Interleave(sha, sys, schedule).store;
            id in now.db.files ==>
              && now.db.files[id].hash in now.db.rows && now.db.rows[now.db.files[id].hash].path in now.blobs
              && (id in sys.store.db.files ==>
                    sys.store.db.files[id].hash in sys.store.db.rows
                    && sys.store.db.rows[sys.store.db.files[id].hash].path in sys.store.blobs
                    && ContentOf(now, id) == ContentOf(sys.store, id))
              && (forall i :: i in sys.procs && sys.procs[i].job.UploadJob? && sys.procs[i].job.args.id == id ==>
                    ContentOf(now, id) == sys.procs[i].job.args.content)
  {
    Reachable(sha, sys, schedule);
    InterleavingKeepsJobs(sha, sys, schedule);
    var now := Interleave(sha, sys, schedule);
    if id in now.store.db.files {
      LiveFileIsServed(sha, sys.store, now, id);
      if id in sys.store.db.files {
        OldFileIsSame(sha, sys.store, now, id);
        assert RowBacked(sha, sys.store, sys.store.db.files[id].hash);
      }
      forall i | i in sys.procs && sys.procs[i].job.UploadJob? && sys.procs[i].job.args.id == id
        ensures ContentOf(now.store, id) == sys.procs[i].job.args.content
      {
        assert Holds(sha, sys.store, now, i);
        assert now.procs[i].job == sys.procs[i].job;
      }
    }
  }

  lemma OldFileIsSame(sha: Bytes -> Hash, s0: Store, now: System, id: string)
    requires Guarded(sha, s0, now) && id in now.store.db.files && id in s0.db.files
    ensures now.store.db.files[id] == s0.db.files[id]
  {
  }

  lemma {:induction false} InterleavingKeepsJobs(sha: Bytes -> Hash, sys: System, schedule: seq<nat>)
    requires AllWellFormed(sha, sys)
    ensures var now := Interleave(sha, sys, schedule);
            && now.procs.Keys == sys.procs.Keys
            && forall i :: i in sys.procs ==>
                 now.procs[i].job == sys.procs[i].job && now.procs[i].faults == sys.procs[i].faults
    decreases |schedule|
  {
    if schedule == [] {
    } else {
      TurnKeepsForm(sha, sys, schedule[0]);
      if schedule[0] in sys.procs {
        StepAdvances(sha, sys.store, sys.procs[schedule[0]]);
      }
      InterleavingKeepsJobs(sha, Turn(sha, sys, schedule[0]), schedule[1..]);
    }
  }
}
