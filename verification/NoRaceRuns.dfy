/** What the invariant of module NoRace gives over every interleaving. */
module NoRaceRuns {
  import opened Model
  import opened Schema
  import opened Protocol
  import opened Machine
  import opened Bound
  import opened Refinement
  import opened Clean
  import opened Safety
  import opened SafetySteps
  import opened SafetyRuns
  import opened SafetyEnds
  import opened NoRace
  import opened NoRaceSteps

  // ---------- the invariant over runs ----------

  lemma TidyIsSteady(sha: Bytes -> Hash, sys: System)
    requires Calls(sha, sys.store, sys.procs) && Tidy(sha, sys.store, sys.procs) && AtStart(sys)
    ensures Steady(sha, sys.store, sys)
  {
    StartIsGuarded(sha, sys);
    CleanIsSound(sha, sys.store);
    forall h: Hash
      ensures Exact(sys, h) && Attended(sys, h)
    {
      assert Owing(sys.procs, h) == {};
      assert Surplus(sys.store.db, h) == 0;
      NoFilesIffUnreferenced(sys.store.db, h);
    }
  }

  lemma {:induction false} InterleavingStaysSteady(sha: Bytes -> Hash, s0: Store, sys: System, schedule: seq<nat>)
    requires Steady(sha, s0, sys)
    ensures AllWellFormed(sha, sys) && Steady(sha, s0, Interleave(sha, sys, schedule))
    decreases |schedule|
  {
    GuardedIsWellFormed(sha, s0, sys);
    if schedule == [] {
    } else {
      TurnStaysSteady(sha, s0, sys, schedule[0]);
      InterleavingStaysSteady(sha, s0, Turn(sha, sys, schedule[0]), schedule[1..]);
    }
  }

  lemma StaysSteady(sha: Bytes -> Hash, sys: System, schedule: seq<nat>)
    requires Calls(sha, sys.store, sys.procs) && Tidy(sha, sys.store, sys.procs) && AtStart(sys)
    ensures AllWellFormed(sha, sys) && Steady(sha, sys.store, Interleave(sha, sys, schedule))
  {
    TidyIsSteady(sha, sys);
    InterleavingStaysSteady(sha, sys.store, sys, schedule);
  }

  // ---------- in every reachable state ----------

  /** At every moment the count of a hash is its files plus the claims on their way. */
  lemma CountsAlwaysExact(sha: Bytes -> Hash, sys: System, schedule: seq<nat>, h: Hash)
    requires Calls(sha, sys.store, sys.procs) && Tidy(sha, sys.store, sys.procs) && AtStart(sys)
    ensures AllWellFormed(sha, sys)
    ensures var now := Interleave(sha, sys, schedule);
            && CountOf(now.store.db, h) == |FilesOf(now.store.db, h)| + |Owing(now.procs, h)|
            && (forall i :: i in Owing(now.procs, h) ==> now.procs[i].debt == Claim)
  {
    StaysSteady(sha, sys, schedule);
    SteadyCounts(sha, sys.store, Interleave(sha, sys, schedule), h);
  }

  lemma SteadyCounts(sha: Bytes -> Hash, s0: Store, now: System, h: Hash)
    requires Steady(sha, s0, now)
    ensures CountOf(now.store.db, h) == |FilesOf(now.store.db, h)| + |Owing(now.procs, h)|
    ensures forall i :: i in Owing(now.procs, h) ==> now.procs[i].debt == Claim
  {
    assert Exact(now, h);
    forall i | i in Owing(now.procs, h)
      ensures now.procs[i].debt == Claim
    {
      assert Local(now, i);
    }
  }

  // ---------- when all calls have returned ----------

  lemma NobodyOwes(sha: Bytes -> Hash, s0: Store, now: System, h: Hash)
    requires Steady(sha, s0, now) && Quiescent(now)
    ensures Owing(now.procs, h) == {}
  {
    forall i | i in now.procs
      ensures !now.procs[i].Owes(h)
    {
      assert Local(now, i) && Holds(sha, s0, now, i);
    }
  }

  /** Any interleaving ends in a clean store: rows, blobs and groups of files in bijection, every
      count exact, nothing orphaned. */
  lemma EndsClean(sha: Bytes -> Hash, sys: System, schedule: seq<nat>)
    requires Calls(sha, sys.store, sys.procs) && Tidy(sha, sys.store, sys.procs) && AtStart(sys)
    ensures AllWellFormed(sha, sys)
    ensures var now := Interleave(sha, sys, schedule);
            Quiescent(now) ==> IsClean(sha, now.store)
  {
    StaysSteady(sha, sys, schedule);
    if Quiescent(Interleave(sha, sys, schedule)) {
      SteadyEndsClean(sha, sys.store, Interleave(sha, sys, schedule));
    }
  }

  lemma RowEndsClean(sha: Bytes -> Hash, s0: Store, now: System, h: Hash)
    requires Steady(sha, s0, now) && Quiescent(now) && h in now.store.db.rows
    ensures RowBacked(sha, now.store, h)
    ensures now.store.db.rows[h].count == |FilesOf(now.store.db, h)| && Referenced(now.store.db, h)
  {
    assert Exact(now, h) && Attended(now, h) && Kept(sha, s0, now, h);
    NobodyOwes(sha, s0, now, h);
    NoFilesIffUnreferenced(now.store.db, h);
    var id :| id in now.store.db.files && now.store.db.files[id].hash == h;
    LiveFileIsServed(sha, s0, now, id);
  }

  lemma SteadyEndsClean(sha: Bytes -> Hash, s0: Store, now: System)
    requires Steady(sha, s0, now) && Quiescent(now)
    ensures IsClean(sha, now.store)
  {
    forall h | h in now.store.db.rows
      ensures RowBacked(sha, now.store, h)
      ensures now.store.db.rows[h].count == |FilesOf(now.store.db, h)| && Referenced(now.store.db, h)
    {
      RowEndsClean(sha, s0, now, h);
    }
    forall path | path in now.store.blobs
      ensures PathTaken(now.store.db, path)
    {
      assert NoRace.Owned(now, path);
    }
  }

  /** Never do two deletes see one hash reach zero. At the end a row that was there is gone if and
      only if one did, and is there if and only if a file references it. */
  lemma OneObserverPerEmptiedHash(sha: Bytes -> Hash, sys: System, schedule: seq<nat>, h: Hash)
    requires Calls(sha, sys.store, sys.procs) && Tidy(sha, sys.store, sys.procs) && AtStart(sys)
    ensures AllWellFormed(sha, sys)
    ensures var now := Interleave(sha, sys, schedule);
            && OneZero(now.procs)
            && (Quiescent(now) ==>
                  (Begun(sha, sys.store, now.procs, h) ==> (h !in now.store.db.rows <==> Emptied(now.procs, h)))
                  && (h in now.store.db.rows <==> Referenced(now.store.db, h)))
  {
    StaysSteady(sha, sys, schedule);
    StaysRecorded(sha, sys, schedule);
    var now := Interleave(sha, sys, schedule);
    if Quiescent(now) {
      SteadyEndsClean(sha, sys.store, now);
      forall i | i in now.procs && SawZero(now.procs[i], h)
        ensures h !in now.store.db.rows
      {
        assert Local(now, i);
      }
    }
  }

  // ---------- uploads only ----------

  predicate OnlyUploads(procs: map<nat, Proc>) {
    forall i :: i in procs ==> procs[i].job.UploadJob?
  }

  lemma OnlyUploadsAreSafe(sha: Bytes -> Hash, s0: Store, procs: map<nat, Proc>)
    requires Calls(sha, s0, procs) && OnlyUploads(procs)
    ensures Tidy(sha, s0, procs)
  {
    forall h, v, us | Victim(sha, s0, procs, h, v) && us <= Carriers(sha, procs, h)
      ensures Spares(s0, procs, h, v, us)
    {
      assert Aimed(s0, procs, h, v, us) == {};
    }
  }

  /** Uploads racing with each other: at every moment each row is counted and has its blob, also
      while first uploads of the same bytes race for the primary key; and at the end there is one
      row for each distinct content, old or offered. */
  lemma RacingUploads(sha: Bytes -> Hash, sys: System, schedule: seq<nat>, h: Hash)
    requires Calls(sha, sys.store, sys.procs) && AtStart(sys) && OnlyUploads(sys.procs)
    ensures AllWellFormed(sha, sys)
    ensures var now := Interleave(sha, sys, schedule);
            && (h in now.store.db.rows ==> now.store.db.rows[h].count >= 1 && RowBacked(sha, now.store, h))
            && (Quiescent(now) ==>
                  (h in now.store.db.rows <==> h in sys.store.db.rows || Carriers(sha, sys.procs, h) != {}))
  {
    OnlyUploadsAreSafe(sha, sys.store, sys.procs);
    StaysSteady(sha, sys, schedule);
    InterleavingKeepsJobs(sha, sys, schedule);
    var now := Interleave(sha, sys, schedule);
    SameCarriersLater(sha, sys.procs, now.procs, h);
    if h in now.store.db.rows {
      RowIsCounted(sha, sys.store, now, h);
    }
    if Quiescent(now) {
      UploadsEnd(sha, sys.store, now, h);
    }
  }

  lemma SameCarriersLater(sha: Bytes -> Hash, procs: map<nat, Proc>, procs': map<nat, Proc>, h: Hash)
    requires procs'.Keys == procs.Keys && forall i :: i in procs ==> procs'[i].job == procs[i].job
    ensures Carriers(sha, procs', h) == Carriers(sha, procs, h)
    ensures OnlyUploads(procs) ==> OnlyUploads(procs')
  {
  }

  lemma RowIsCounted(sha: Bytes -> Hash, s0: Store, now: System, h: Hash)
    requires Steady(sha, s0, now) && OnlyUploads(now.procs) && h in now.store.db.rows
    ensures now.store.db.rows[h].count >= 1 && RowBacked(sha, now.store, h)
  {
    OfferedIsNeeded(sha, s0, now, h);
    assert Exact(now, h) && Attended(now, h) && Kept(sha, s0, now, h);
  }

  lemma RaisedCarry(sha: Bytes -> Hash, procs: map<nat, Proc>, h: Hash)
    ensures Raised(sha, procs, h) <= Carriers(sha, procs, h)
  {
  }

  /** With nobody deleting, what there is, and what is offered, is needed. */
  lemma OfferedIsNeeded(sha: Bytes -> Hash, s0: Store, now: System, h: Hash)
    requires Steady(sha, s0, now) && OnlyUploads(now.procs)
    requires h in now.store.db.rows || h in s0.db.rows || Carriers(sha, now.procs, h) != {}
    ensures Needed(sha, s0, now.procs, h)
  {
    assert Kept(sha, s0, now, h);
    if h in s0.db.rows {
      var id :| id in s0.db.files && s0.db.files[id].hash == h;
      assert Victim(sha, s0, now.procs, h, id) && Alive(now.procs, id);
    } else {
      RaisedCarry(sha, now.procs, h);
      var u :| u in Carriers(sha, now.procs, h);
      var id := now.procs[u].job.args.id;
      assert Uploads(sha, now.procs, h, id);
      assert Victim(sha, s0, now.procs, h, id) && Alive(now.procs, id);
    }
  }

  lemma UploadsEnd(sha: Bytes -> Hash, s0: Store, now: System, h: Hash)
    requires Steady(sha, s0, now) && Quiescent(now) && OnlyUploads(now.procs)
    ensures h in now.store.db.rows <==> h in s0.db.rows || Carriers(sha, now.procs, h) != {}
  {
    assert Kept(sha, s0, now, h);
    if h in s0.db.rows || Carriers(sha, now.procs, h) != {} {
      OfferedIsNeeded(sha, s0, now, h);
      if h !in s0.db.rows {
        var u :| u in Carriers(sha, now.procs, h);
        assert Local(now, u);
      }
    } else {
      RaisedCarry(sha, now.procs, h);
    }
  }
}
