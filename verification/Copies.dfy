/** What becomes of blobs in any batch of fault-free calls, safe or not: the copy that an upload stores
    under its fresh path stays exactly as the blob of the row that it made, and the blob of the row
    that a clean-up has looked up goes. */
module Copies {
  import opened Model
  import opened Protocol
  import opened Machine
  import opened Refinement
  import opened Bound
  import opened Safety
  import SafetySteps

  /** The upload has reported success, and the record that it answered carries that path. */
  predicate AnsweredWith(p: Proc, path: string) {
    p.answer.Some? && p.answer.value.Success? && p.answer.value.value.Some?
    && p.answer.value.value.value.GetStoragePath() == path
  }

  /** Where the copy is gone, and what it means that it is still there at the end. */
  predicate CopyInHand(s: Store, p: Proc) {
    p.job.UploadJob? ==>
      var path := p.job.args.path;
      && (p.at in {PutContent, RaiseCount, AddReference, LowerCount} ==> path !in s.blobs)
      && (p.at == Finished && path in s.blobs ==> AnsweredWith(p, path))
  }

  ghost predicate CopiesInHand(sys: System) {
    forall i :: i in sys.procs ==> CopyInHand(sys.store, sys.procs[i])
  }

  lemma MoverKeepsCopy(sha: Bytes -> Hash, s: Store, p: Proc)
    requires WellFormed(sha, p) && p.at != Finished && p.faults == {} && CopyInHand(s, p)
    ensures CopyInHand(Step(sha, s, p).0, Step(sha, s, p).1)
  {
  }

  lemma StepAddsBlob(sha: Bytes -> Hash, s: Store, p: Proc, path: string)
    requires WellFormed(sha, p) && p.at != Finished
    requires path in Step(sha, s, p).0.blobs && path !in s.blobs
    ensures p.job.UploadJob? && path == p.job.args.path && p.at == PutContent
  {
  }

  lemma TurnKeepsCopies(sha: Bytes -> Hash, s0: Store, sys: System, i: nat)
    requires AllWellFormed(sha, sys) && Calls(sha, s0, sys.procs) && CopiesInHand(sys)
    ensures CopiesInHand(Turn(sha, sys, i))
  {
    if i in sys.procs && sys.procs[i].at != Finished {
      var p := sys.procs[i];
      StepAdvances(sha, sys.store, p);
      MoverKeepsCopy(sha, sys.store, p);
      forall j | j in sys.procs && j != i
        ensures CopyInHand(Step(sha, sys.store, p).0, sys.procs[j])
      {
        OtherCopyKept(sha, sys, i, j);
      }
    } else if i in sys.procs {
      assert Turn(sha, sys, i) == sys;
    }
  }

  lemma OtherCopyKept(sha: Bytes -> Hash, sys: System, i: nat, j: nat)
    requires AllWellFormed(sha, sys) && i in sys.procs && j in sys.procs && sys.procs[i].at != Finished
    requires sys.procs[i].job.UploadJob? && sys.procs[j].job.UploadJob? ==>
               sys.procs[i].job.args.path != sys.procs[j].job.args.path
    requires CopyInHand(sys.store, sys.procs[j])
    ensures CopyInHand(Step(sha, sys.store, sys.procs[i]).0, sys.procs[j])
  {
    var p, q := sys.procs[i], sys.procs[j];
    if q.job.UploadJob? && q.job.args.path in Step(sha, sys.store, p).0.blobs && q.job.args.path !in sys.store.blobs {
      StepAddsBlob(sha, sys.store, p, q.job.args.path);
    }
  }

  lemma {:induction false} CopiesStayInHand(sha: Bytes -> Hash, s0: Store, sys: System, schedule: seq<nat>)
    requires AllWellFormed(sha, sys) && Calls(sha, s0, sys.procs) && CopiesInHand(sys)
    ensures CopiesInHand(Interleave(sha, sys, schedule))
    decreases |schedule|
  {
    if schedule == [] {
    } else {
      TurnKeepsForm(sha, sys, schedule[0]);
      TurnKeepsCopies(sha, s0, sys, schedule[0]);
      TurnKeepsCalls(sha, s0, sys, schedule[0]);
      CopiesStayInHand(sha, s0, Turn(sha, sys, schedule[0]), schedule[1..]);
    }
  }

  lemma TurnKeepsCalls(sha: Bytes -> Hash, s0: Store, sys: System, i: nat)
    requires AllWellFormed(sha, sys) && Calls(sha, s0, sys.procs)
    ensures Calls(sha, s0, Turn(sha, sys, i).procs)
  {
    if i in sys.procs {
      StepAdvances(sha, sys.store, sys.procs[i]);
      SafetySteps.CallsKept(sha, s0, sys.procs, i, Step(sha, sys.store, sys.procs[i]).1);
    }
  }

  /** In every reachable state of every batch: if the blob under a finished upload's path is there,
      that upload has reported success, and its record carries that very path. */
  lemma CopyGoesUnlessKept(sha: Bytes -> Hash, sys: System, schedule: seq<nat>, i: nat)
    requires Calls(sha, sys.store, sys.procs) && AtStart(sys)
    ensures AllWellFormed(sha, sys)
    ensures var now := Interleave(sha, sys, schedule);
            i in now.procs && now.procs[i].job.UploadJob? && now.procs[i].at == Finished
            && now.procs[i].job.args.path in now.store.blobs ==>
              AnsweredWith(now.procs[i], now.procs[i].job.args.path)
  {
    StartIsWellFormed(sha, sys);
    CopiesStayInHand(sha, sys.store, sys, schedule);
  }

  // ---------- what a clean-up has looked up ----------

  /** No upload is still to store content under this path. */
  ghost predicate Settled(procs: map<nat, Proc>, path: string) {
    forall u :: u in procs && procs[u].job.UploadJob? && procs[u].job.args.path == path ==> procs[u].at != PutContent
  }

  /** A delete that is past its blob call has dropped the blob of the row that it had looked up. */
  predicate HasDropped(s: Store, p: Proc) {
    p.job.DeleteJob? && p.read.Some? ==>
      p.at == DropContent || (p.at in {RemoveRow, Finished} && p.read.value.path !in s.blobs)
  }

  ghost predicate ReadsSettled(sys: System, i: nat)
    requires i in sys.procs
  {
    var p := sys.procs[i];
    HasDropped(sys.store, p) && (p.job.DeleteJob? && p.read.Some? ==> Settled(sys.procs, p.read.value.path))
  }

  ghost predicate PathsSettled(sys: System) {
    && (forall h :: h in sys.store.db.rows ==> Settled(sys.procs, sys.store.db.rows[h].path))
    && (forall i :: i in sys.procs ==> ReadsSettled(sys, i))
  }

  lemma NobodyStartsAgain(sha: Bytes -> Hash, sys: System, i: nat, path: string)
    requires AllWellFormed(sha, sys) && i in sys.procs && Settled(sys.procs, path)
    ensures Settled(Turn(sha, sys, i).procs, path)
  {
    StepAdvances(sha, sys.store, sys.procs[i]);
  }

  /** Which row paths a step brings: none, or that of an upload past its Put. */
  lemma StepPaths(sha: Bytes -> Hash, s: Store, p: Proc, h: Hash)
    requires WellFormed(sha, p) && h in Step(sha, s, p).0.db.rows
    ensures var (s', p') := Step(sha, s, p);
            || (h in s.db.rows && s'.db.rows[h].path == s.db.rows[h].path)
            || (p.job.UploadJob? && p.at == AddRow && s'.db.rows[h].path == p.job.args.path)
  {
  }

  lemma StepReads(sha: Bytes -> Hash, s: Store, p: Proc)
    requires WellFormed(sha, p) && p.at != Finished && p.faults == {} && HasDropped(s, p)
    ensures var (s', p') := Step(sha, s, p);
            && HasDropped(s', p')
            && (p.job.DeleteJob? && p'.read.Some? ==>
                  p'.read == p.read || exists h :: h in s.db.rows && p'.read.value.path == s.db.rows[h].path)
  {
    if p.job.DeleteJob? && p.at == FindPath && p.hash.value in s.db.rows {
      assert Step(sha, s, p).1.read.value.path == s.db.rows[p.hash.value].path;
    }
  }

  lemma NewRowIsSettled(sha: Bytes -> Hash, s0: Store, sys: System, i: nat, h: Hash)
    requires AllWellFormed(sha, sys) && Calls(sha, s0, sys.procs) && PathsSettled(sys)
    requires i in sys.procs && h in Turn(sha, sys, i).store.db.rows
    ensures Settled(Turn(sha, sys, i).procs, Turn(sha, sys, i).store.db.rows[h].path)
  {
    var p := sys.procs[i];
    var path := Turn(sha, sys, i).store.db.rows[h].path;
    StepPaths(sha, sys.store, p, h);
    if h in sys.store.db.rows && sys.store.db.rows[h].path == path {
      NobodyStartsAgain(sha, sys, i, path);
    } else {
      assert Settled(sys.procs, path);
      NobodyStartsAgain(sha, sys, i, path);
    }
  }

  /** Content that is dropped under a settled path does not come back. */
  lemma StaysDropped(sha: Bytes -> Hash, sys: System, i: nat, q: Proc)
    requires AllWellFormed(sha, sys) && i in sys.procs && HasDropped(sys.store, q)
    requires q.job.DeleteJob? && q.read.Some? ==> Settled(sys.procs, q.read.value.path)
    ensures HasDropped(Turn(sha, sys, i).store, q)
  {
    var p := sys.procs[i];
    if q.job.DeleteJob? && q.read.Some? && p.at != Finished {
      var path := q.read.value.path;
      if path in Step(sha, sys.store, p).0.blobs && path !in sys.store.blobs {
        StepAddsBlob(sha, sys.store, p, path);
        assert false;
      }
    }
  }

  lemma ReadStaysSettled(sha: Bytes -> Hash, sys: System, i: nat, j: nat)
    requires AllWellFormed(sha, sys) && PathsSettled(sys) && Faultless(sys.procs)
    requires i in sys.procs && sys.procs[i].at != Finished && j in sys.procs
    ensures ReadsSettled(Turn(sha, sys, i), j)
  {
    var q := Turn(sha, sys, i).procs[j];
    assert ReadsSettled(sys, j);
    if j == i {
      StepReads(sha, sys.store, sys.procs[i]);
      StepAdvances(sha, sys.store, sys.procs[i]);
    } else {
      StaysDropped(sha, sys, i, q);
    }
    if q.job.DeleteJob? && q.read.Some? {
      NobodyStartsAgain(sha, sys, i, q.read.value.path);
    }
  }

  lemma TurnKeepsPaths(sha: Bytes -> Hash, s0: Store, sys: System, i: nat)
    requires AllWellFormed(sha, sys) && Calls(sha, s0, sys.procs) && PathsSettled(sys)
    requires i in sys.procs && sys.procs[i].at != Finished
    ensures PathsSettled(Turn(sha, sys, i))
  {
    var next := Turn(sha, sys, i);
    forall h | h in next.store.db.rows
      ensures Settled(next.procs, next.store.db.rows[h].path)
    {
      NewRowIsSettled(sha, s0, sys, i, h);
    }
    forall j | j in next.procs
      ensures ReadsSettled(next, j)
    {
      ReadStaysSettled(sha, sys, i, j);
    }
  }

  lemma {:induction false} PathsStaySettled(sha: Bytes -> Hash, s0: Store, sys: System, schedule: seq<nat>)
    requires AllWellFormed(sha, sys) && Calls(sha, s0, sys.procs) && PathsSettled(sys)
    ensures PathsSettled(Interleave(sha, sys, schedule))
    decreases |schedule|
  {
    if schedule == [] {
    } else {
      var i := schedule[0];
      TurnKeepsForm(sha, sys, i);
      TurnKeepsCalls(sha, s0, sys, i);
      if i in sys.procs && sys.procs[i].at != Finished {
        TurnKeepsPaths(sha, s0, sys, i);
      } else {
        assert Turn(sha, sys, i) == sys;
      }
      PathsStaySettled(sha, s0, Turn(sha, sys, i), schedule[1..]);
    }
  }

  lemma StartIsSettled(sha: Bytes -> Hash, sys: System)
    requires Calls(sha, sys.store, sys.procs) && AtStart(sys)
    ensures PathsSettled(sys)
  {
    forall h | h in sys.store.db.rows
      ensures Settled(sys.procs, sys.store.db.rows[h].path)
    {
      assert RowBacked(sha, sys.store, h);
    }
  }

  /** In every reachable state of every batch of fault-free calls: once a delete that has looked up a
      row to clean up is past its blob call, the blob under the path of that row is gone for good,
      even if the row itself went, or was made anew, in between. */
  lemma CleanUpDropsWhatItFound(sha: Bytes -> Hash, sys: System, schedule: seq<nat>, i: nat)
    requires Calls(sha, sys.store, sys.procs) && AtStart(sys)
    ensures AllWellFormed(sha, sys)
    ensures var now := Interleave(sha, sys, schedule);
            i in now.procs && now.procs[i].job.DeleteJob? && now.procs[i].read.Some?
            && now.procs[i].at in {RemoveRow, Finished} ==>
              now.procs[i].read.value.path !in now.store.blobs
  {
    StartIsWellFormed(sha, sys);
    StartIsSettled(sha, sys);
    PathsStaySettled(sha, sys.store, sys, schedule);
    assert i in Interleave(sha, sys, schedule).procs ==> ReadsSettled(Interleave(sha, sys, schedule), i);
  }
}
