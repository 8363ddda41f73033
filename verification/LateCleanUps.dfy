/** Clean-ups that come late: which deletes can still take the bytes of a file, and that a delete can
    do so although it released nothing. */
module LateCleanUps {
  import opened Wrappers
  import opened Model
  import opened Schema
  import opened Protocol
  import opened Machine
  import opened Clean
  import opened Losses
  import opened SafetyExactly
  import Solo

  // ---------- who can still take the bytes of a file ----------

  /** The file is there, with its row and the bytes. */
  ghost predicate Stands(s: Store, v: string, file: FileRow, path: string, bytes: Bytes) {
    && v in s.db.files && s.db.files[v] == file
    && file.hash in s.db.rows && s.db.rows[file.hash].path == path
    && path in s.blobs && s.blobs[path] == bytes
  }

  /** A delete that has not looked up its hash yet may have found a file of this one. */
  predicate MayAim(sys: System, p: Proc, h: Hash) {
    || (p.job.Id() in sys.store.db.files && sys.store.db.files[p.job.Id()].hash == h)
    || exists u :: u in sys.procs && sys.procs[u].job.UploadJob? && sys.procs[u].at != Finished
                   && sys.procs[u].job.args.id == p.job.Id()
  }

  /** Who may still take the file or its bytes: a delete of the file, a delete of its hash that has
      still to look up the row, one that has read this very path, or an upload with this path. What
      a delete read before the row got this path does not count. */
  predicate Threatens(sys: System, p: Proc, v: string, h: Hash, path: string) {
    p.at != Finished
    && match p.job
       case UploadJob(a) => a.path == path || a.id == v
       case DeleteJob(id, now) =>
         || id == v
         || (p.at == FindHash && MayAim(sys, p, h))
         || (p.at in {RemoveFile, ReleaseCount, FindPath} && p.hash == Some(h))
         || (p.at == DropContent && p.read.Some? && p.read.value.path == path)
  }

  ghost predicate Unthreatened(sys: System, v: string, h: Hash, path: string) {
    forall i :: i in sys.procs ==> !Threatens(sys, sys.procs[i], v, h, path)
  }

  lemma StepLetsStand(sha: Bytes -> Hash, sys: System, p: Proc, v: string, file: FileRow, path: string, bytes: Bytes)
    requires WellFormed(sha, p) && Stands(sys.store, v, file, path, bytes)
    requires !Threatens(sys, p, v, file.hash, path)
    ensures Stands(Step(sha, sys.store, p).0, v, file, path, bytes)
  {
  }

  /** A delete that does not work on `h` finds the row of another hash, with another path. */
  lemma DeleteLooksElsewhere(sha: Bytes -> Hash, s: Store, p: Proc, h: Hash)
    requires WellFormed(sha, p) && p.job.DeleteJob? && p.at != Finished && UniquePaths(s.db) && h in s.db.rows
    requires p.at == FindHash && p.job.id in s.db.files ==> s.db.files[p.job.id].hash != h
    requires p.at in {RemoveFile, ReleaseCount, FindPath} ==> p.hash != Some(h)
    ensures var p' := Step(sha, s, p).1;
            && p'.job == p.job && p'.at != FindHash
            && (p'.at in {RemoveFile, ReleaseCount, FindPath} ==> p'.hash != Some(h))
            && (p'.at == DropContent ==> p'.read.Some? && p'.read.value.path != s.db.rows[h].path)
  {
  }

  /** Nobody who moves aims at the hash from then on. */
  lemma MoverStaysHarmless(sha: Bytes -> Hash, sys: System, i: nat, v: string, file: FileRow, path: string,
                           bytes: Bytes)
    requires AllWellFormed(sha, sys) && SchemaHolds(sys.store.db) && Stands(sys.store, v, file, path, bytes)
    requires i in sys.procs && !Threatens(sys, sys.procs[i], v, file.hash, path)
    ensures !Threatens(Turn(sha, sys, i), Turn(sha, sys, i).procs[i], v, file.hash, path)
  {
    var p := sys.procs[i];
    StepAdvances(sha, sys.store, p);
    if p.job.DeleteJob? && p.at != Finished {
      DeleteLooksElsewhere(sha, sys.store, p, file.hash);
    }
  }

  lemma StepAddsFile(sha: Bytes -> Hash, s: Store, p: Proc, id: string)
    requires WellFormed(sha, p) && !(p.job.UploadJob? && p.at != Finished && p.job.args.id == id)
    ensures var s' := Step(sha, s, p).0;
            id in s'.db.files ==> id in s.db.files && s'.db.files[id] == s.db.files[id]
  {
  }

  lemma AimAfterStep(sha: Bytes -> Hash, sys: System, i: nat, q: Proc, h: Hash)
    requires AllWellFormed(sha, sys) && i in sys.procs && !MayAim(sys, q, h)
    ensures !MayAim(Turn(sha, sys, i), q, h)
  {
    var next := Turn(sha, sys, i);
    StepAdvances(sha, sys.store, sys.procs[i]);
    StepAddsFile(sha, sys.store, sys.procs[i], q.job.Id());
    forall u | u in next.procs && next.procs[u].job.UploadJob? && next.procs[u].at != Finished
      ensures next.procs[u].job.args.id != q.job.Id()
    {
      assert sys.procs[u].job.UploadJob? && sys.procs[u].at != Finished;
    }
  }

  lemma TurnStaysUnthreatened(sha: Bytes -> Hash, sys: System, i: nat, v: string, file: FileRow, path: string,
                              bytes: Bytes)
    requires AllWellFormed(sha, sys) && SchemaHolds(sys.store.db) && Stands(sys.store, v, file, path, bytes)
    requires Unthreatened(sys, v, file.hash, path)
    ensures var next := Turn(sha, sys, i);
            Stands(next.store, v, file, path, bytes) && Unthreatened(next, v, file.hash, path)
  {
    if i in sys.procs {
      var next := Turn(sha, sys, i);
      StepLetsStand(sha, sys, sys.procs[i], v, file, path, bytes);
      MoverStaysHarmless(sha, sys, i, v, file, path, bytes);
      forall j | j in next.procs && j != i
        ensures !Threatens(next, next.procs[j], v, file.hash, path)
      {
        assert !Threatens(sys, sys.procs[j], v, file.hash, path);
        if !MayAim(sys, sys.procs[j], file.hash) {
          AimAfterStep(sha, sys, i, sys.procs[j], file.hash);
        }
      }
    }
  }

  /** With any faults and in any batch: once nobody threatens a file, it stands with its bytes
      throughout every continuation; a clean-up that has looked up an older row takes nothing. */
  lemma {:induction false} UnthreatenedStands(sha: Bytes -> Hash, sys: System, schedule: seq<nat>, v: string,
                                              file: FileRow, path: string, bytes: Bytes)
    requires AllWellFormed(sha, sys) && SchemaHolds(sys.store.db) && Stands(sys.store, v, file, path, bytes)
    requires Unthreatened(sys, v, file.hash, path)
    ensures Stands(Interleave(sha, sys, schedule).store, v, file, path, bytes)
    decreases |schedule|
  {
    if schedule == [] {
    } else {
      TurnKeepsForm(sha, sys, schedule[0]);
      if schedule[0] in sys.procs {
        StepKeepsSchema(sha, sys.store, sys.procs[schedule[0]]);
      }
      TurnStaysUnthreatened(sha, sys, schedule[0], v, file, path, bytes);
      UnthreatenedStands(sha, Turn(sha, sys, schedule[0]), schedule[1..], v, file, path, bytes);
    }
  }

  // ---------- a delete that released nothing ----------

  /** Two deletes of `x`, and an upload. */
  predicate TwoDeletesAndUpload(start: System, a: UploadArgs, x: string) {
    && start.procs.Keys == {0, 1, 2}
    && start.procs[0] == Begin(DeleteJob(x, a.now), {}) && start.procs[1] == Begin(DeleteJob(x, a.now), {})
    && start.procs[2] == Begin(UploadJob(a), {})
  }

  predicate Succeeded(p: Proc) {
    p.at == Finished && p.answer.Some? && p.answer.value.Success?
  }

  lemma DeletesLast(sha: Bytes -> Hash, s: Store, x: string, now: Time)
    requires IsClean(sha, s) && x in s.db.files && FilesOf(s.db, s.db.files[x].hash) == {x}
    ensures var (s', p') := Alone(sha, s, Begin(DeleteJob(x, now), {}));
            && s' == AfterDelete(s, x, now) && Succeeded(p')
            && x !in s'.db.files && s.db.files[x].hash !in s'.db.rows
  {
    AloneFinishes(sha, s, Begin(DeleteJob(x, now), {}));
    Solo.DeleteAlone(sha, s, x, now, {});
    DeleteClosedForm(sha, s, x, now);
  }

  lemma StillFresh(sha: Bytes -> Hash, s: Store, x: string, t: Time, a: UploadArgs)
    requires IsClean(sha, s) && x in s.db.files && FilesOf(s.db, s.db.files[x].hash) == {x}
    requires Fresh(s, UploadOp(a, {}))
    ensures Fresh(AfterDelete(s, x, t), UploadOp(a, {}))
  {
    var s' := AfterDelete(s, x, t);
    assert s'.blobs.Keys <= s.blobs.Keys && s'.db.rows.Keys <= s.db.rows.Keys;
    assert forall h :: h in s'.db.rows ==> s'.db.rows[h] == s.db.rows[h];
  }

  /** The second delete finds the file. */
  lemma SecondFinds(sha: Bytes -> Hash, start: System, a: UploadArgs, x: string) returns (now: System)
    requires Reaches(sha, start, start) && TwoDeletesAndUpload(start, a, x)
    requires x in start.store.db.files && start.store.db.files[x].hash == sha(a.content)
    ensures Reaches(sha, start, now) && now.store == start.store && now.procs.Keys == {0, 1, 2}
    ensures now.procs[0] == start.procs[0] && now.procs[2] == start.procs[2]
    ensures now.procs[1] == start.procs[1].(at := RemoveFile, hash := Some(sha(a.content)))
  {
    now := Moves(sha, start, start, 1);
  }

  /** The first delete is through, and the file and its content have gone. */
  ghost predicate FirstIsDone(sha: Bytes -> Hash, now: System, a: UploadArgs, x: string) {
    && now.procs.Keys == {0, 1, 2} && Succeeded(now.procs[0]) && now.procs[2] == Begin(UploadJob(a), {})
    && now.procs[1] == Begin(DeleteJob(x, a.now), {}).(at := RemoveFile, hash := Some(sha(a.content)))
    && x !in now.store.db.files && sha(a.content) !in now.store.db.rows && Fresh(now.store, UploadOp(a, {}))
  }

  lemma FirstCleansUp(sha: Bytes -> Hash, start: System, a: UploadArgs, x: string) returns (now: System)
    requires Reaches(sha, start, start) && IsClean(sha, start.store) && TwoDeletesAndUpload(start, a, x)
    requires x in start.store.db.files && start.store.db.files[x].hash == sha(a.content)
    requires FilesOf(start.store.db, sha(a.content)) == {x} && Fresh(start.store, UploadOp(a, {}))
    ensures Reaches(sha, start, now) && FirstIsDone(sha, now, a, x)
  {
    var found := SecondFinds(sha, start, a, x);
    now := Finishes(sha, start, found, 0);
    DeletesLast(sha, start.store, x, a.now);
    StillFresh(sha, start.store, x, a.now, a);
  }

  /** The content has gone, and the second delete is about to clean up. */
  ghost predicate AboutToBeLate(sha: Bytes -> Hash, now: System, a: UploadArgs) {
    && now.procs.Keys == {0, 1, 2} && Succeeded(now.procs[0]) && now.procs[2] == Begin(UploadJob(a), {})
    && now.procs[1].job.DeleteJob? && now.procs[1].at == FindPath && now.procs[1].faults == {}
    && now.procs[1].hash == Some(sha(a.content))
    && sha(a.content) !in now.store.db.rows && Fresh(now.store, UploadOp(a, {}))
  }

  /** The second delete finds neither file nor row, reads a count of zero, and goes on to clean up. */
  lemma SecondReleasesNothing(sha: Bytes -> Hash, start: System, now: System, a: UploadArgs, x: string)
    returns (late: System)
    requires Reaches(sha, start, now) && FirstIsDone(sha, now, a, x)
    ensures Reaches(sha, start, late) && AboutToBeLate(sha, late, a)
  {
    var removed := Moves(sha, start, now, 1);
    assert removed.store.db.files == now.store.db.files && removed.store == now.store;
    late := Moves(sha, start, removed, 1);
    assert late.store == now.store;
  }

  lemma UploadsNew(sha: Bytes -> Hash, s: Store, a: UploadArgs)
    requires sha(a.content) !in s.db.rows && a.accepted && Fresh(s, UploadOp(a, {}))
    ensures var (s', p') := Alone(sha, s, Begin(UploadJob(a), {}));
            && s' == AfterUpload(sha, s, a) && Succeeded(p')
  {
    AloneFinishes(sha, s, Begin(UploadJob(a), {}));
    Solo.UploadAlone(sha, s, a, {});
    UploadClosedForm(sha, s, a);
  }

  /** The clean-up of a row with a file drops the blob, and keeps the row. */
  lemma CleansUpInUse(sha: Bytes -> Hash, s: Store, p: Proc, v: string)
    requires WellFormed(sha, p) && p.job.DeleteJob? && p.at == FindPath && p.faults == {}
    requires p.hash.value in s.db.rows && v in s.db.files && s.db.files[v].hash == p.hash.value
    ensures var (s', p') := Alone(sha, s, p);
            s'.db == s.db && s'.blobs == s.blobs - {s.db.rows[p.hash.value].path} && Succeeded(p')
  {
    AloneFinishes(sha, s, p);
    Solo.CleanUpAlone(sha, s, p);
  }

  /** The upload makes a new row and a new blob, which the late clean-up then drops. */
  lemma CleansUpTheNew(sha: Bytes -> Hash, start: System, now: System, a: UploadArgs) returns (end: System)
    requires Reaches(sha, start, now) && {1, 2} <= now.procs.Keys && sha(a.content) !in now.store.db.rows
    requires now.procs[2] == Begin(UploadJob(a), {}) && a.accepted && Fresh(now.store, UploadOp(a, {}))
    requires now.procs[1].job.DeleteJob? && now.procs[1].at == FindPath && now.procs[1].faults == {}
    requires now.procs[1].hash == Some(sha(a.content))
    ensures Reaches(sha, start, end) && Lost(end.store, a.id)
    ensures CountOf(end.store.db, sha(a.content)) == 1
    ensures {1, 2} <= end.procs.Keys && end.procs == now.procs[2 := end.procs[2]][1 := end.procs[1]]
    ensures Succeeded(end.procs[1]) && Succeeded(end.procs[2])
  {
    var stored := Finishes(sha, start, now, 2);
    UploadsNew(sha, now.store, a);
    end := Finishes(sha, start, stored, 1);
    CleansUpInUse(sha, stored.store, stored.procs[1], a.id);
  }

  lemma LateEnds(sha: Bytes -> Hash, start: System, late: System, a: UploadArgs) returns (end: System)
    requires Reaches(sha, start, late) && AboutToBeLate(sha, late, a) && a.accepted
    ensures Reaches(sha, start, end) && Lost(end.store, a.id) && CountOf(end.store.db, sha(a.content)) == 1
    ensures end.procs.Keys == {0, 1, 2} && forall i :: i in end.procs ==> Succeeded(end.procs[i])
  {
    end := CleansUpTheNew(sha, start, late, a);
    assert end.procs[0] == late.procs[0];
  }

  /** A delete that found the file, but neither removed nor released anything, drops the bytes of a
      file that was uploaded after the content had gone. All calls report success, and the row
      counts the file. */
  lemma EmptyReleaseRace(sha: Bytes -> Hash, start: System, a: UploadArgs, x: string) returns (end: System)
    requires AtStart(start) && IsClean(sha, start.store) && TwoDeletesAndUpload(start, a, x)
    requires x in start.store.db.files && start.store.db.files[x].hash == sha(a.content)
    requires FilesOf(start.store.db, sha(a.content)) == {x} && a.accepted && Fresh(start.store, UploadOp(a, {}))
    ensures Reaches(sha, start, end) && Lost(end.store, a.id) && CountOf(end.store.db, sha(a.content)) == 1
    ensures end.procs.Keys == {0, 1, 2} && forall i :: i in end.procs ==> Succeeded(end.procs[i])
  {
    StartReaches(sha, start);
    var gone := FirstCleansUp(sha, start, a, x);
    var late := SecondReleasesNothing(sha, start, gone, a, x);
    end := LateEnds(sha, start, late, a);
  }
}
