/** A rollback that lowers the count of another row: an upload that loses the row it has attached to
    takes its reference from whatever row its hash has by then. */
module StrayLower {
  import opened Wrappers
  import opened Model
  import opened Schema
  import opened Protocol
  import opened Machine
  import opened Clean
  import opened SafetyExactly
  import opened LateCleanUps
  import Solo

  /** Two deletes of `x`, and two uploads. */
  predicate TwoDeletesAndUploads(start: System, a: UploadArgs, b: UploadArgs, x: string) {
    && start.procs.Keys == {0, 1, 2, 3}
    && start.procs[0] == Begin(DeleteJob(x, a.now), {}) && start.procs[1] == Begin(DeleteJob(x, a.now), {})
    && start.procs[2] == Begin(UploadJob(a), {}) && start.procs[3] == Begin(UploadJob(b), {})
  }

  /** The row of `h` with this count, and no other file of `h` than `x`, if that. */
  ghost predicate Counting(s: Store, h: Hash, count: int, x: string) {
    && h in s.db.rows && s.db.rows[h].count == count
    && forall id :: id in s.db.files && s.db.files[id].hash == h ==> id == x
  }

  /** What an upload of the same bytes needs to be able to store its own row. */
  ghost predicate Free(s: Store, a: UploadArgs) {
    Fresh(s, UploadOp(a, {}))
  }

  /** The first upload has found the row, and all others are about to start. */
  ghost predicate HasFound(sha: Bytes -> Hash, now: System, a: UploadArgs, b: UploadArgs, x: string) {
    && now.procs.Keys == {0, 1, 2, 3} && now.procs[3] == Begin(UploadJob(b), {}) && Free(now.store, b)
    && now.procs[0] == Begin(DeleteJob(x, a.now), {}) && now.procs[1] == Begin(DeleteJob(x, a.now), {})
    && now.procs[2].job == UploadJob(a) && now.procs[2].at == RaiseCount && now.procs[2].faults == {}
    && x in now.store.db.files && now.store.db.files[x].hash == sha(a.content)
    && Counting(now.store, sha(a.content), 1, x)
  }

  lemma UploadLooks(sha: Bytes -> Hash, start: System, now: System, a: UploadArgs) returns (next: System)
    requires Reaches(sha, start, now) && 2 in now.procs && now.procs[2] == Begin(UploadJob(a), {}) && a.accepted
    requires Free(now.store, a) && sha(a.content) in now.store.db.rows
    ensures Reaches(sha, start, next) && next.store == now.store
    ensures 2 in next.procs && next.procs == now.procs[2 := next.procs[2]]
    ensures next.procs[2].job == UploadJob(a) && next.procs[2].at == RaiseCount && next.procs[2].faults == {}
  {
    var put := Moves(sha, start, now, 2);
    var found := Moves(sha, start, put, 2);
    next := Moves(sha, start, found, 2);
    CopyIsDropped(now.store, a.path, a.content);
  }

  lemma UploadFinds(sha: Bytes -> Hash, start: System, a: UploadArgs, b: UploadArgs, x: string) returns (now: System)
    requires Reaches(sha, start, start) && TwoDeletesAndUploads(start, a, b, x) && a.accepted
    requires x in start.store.db.files && start.store.db.files[x].hash == sha(a.content)
    requires Free(start.store, a) && Free(start.store, b) && Counting(start.store, sha(a.content), 1, x)
    ensures Reaches(sha, start, now) && HasFound(sha, now, a, b, x)
  {
    now := UploadLooks(sha, start, start, a);
  }

  predicate AboutToRemove(p: Proc, x: string, h: Hash) {
    p.job.DeleteJob? && p.job.id == x && p.at == RemoveFile && p.hash == Some(h) && p.faults == {}
  }

  /** A delete that has found its file runs to its end: rows and blobs only go. */
  lemma RemoverOnlyRemoves(sha: Bytes -> Hash, s: Store, p: Proc, x: string, h: Hash)
    requires WellFormed(sha, p) && AboutToRemove(p, x, h)
    ensures var (s', p') := Alone(sha, s, p);
            && p'.at == Finished && s'.db.files == s.db.files - {x}
            && s'.blobs.Keys <= s.blobs.Keys
            && forall g :: g in s'.db.rows ==> g in s.db.rows && s'.db.rows[g].path == s.db.rows[g].path
  {
    AloneFinishes(sha, s, p);
    AloneStep(sha, s, p);
    var (s1, p1) := Step(sha, s, p);
    AloneStep(sha, s1, p1);
    var (s2, p2) := Step(sha, s1, p1);
    if p2.at != Finished {
      Solo.CleanUpAlone(sha, s2, p2);
    }
  }

  /** It lowers the count; at zero, and with nobody else using the row, the row goes. */
  lemma RemoverLowers(sha: Bytes -> Hash, s: Store, p: Proc, x: string, h: Hash, count: int)
    requires WellFormed(sha, p) && AboutToRemove(p, x, h) && Counting(s, h, count, x)
    ensures var s' := Alone(sha, s, p).0;
            if count == 1 then h !in s'.db.rows else Counting(s', h, count - 1, x)
  {
    AloneStep(sha, s, p);
    var (s1, p1) := Step(sha, s, p);
    AloneStep(sha, s1, p1);
    var (s2, p2) := Step(sha, s1, p1);
    if p2.at != Finished {
      Solo.CleanUpAlone(sha, s2, p2);
      assert !Referenced(s2.db, h);
    }
  }

  lemma StaysFree(s: Store, s': Store, x: string, b: UploadArgs)
    requires Free(s, b) && s'.db.files == s.db.files - {x} && s'.blobs.Keys <= s.blobs.Keys
    requires forall g :: g in s'.db.rows ==> g in s.db.rows && s'.db.rows[g].path == s.db.rows[g].path
    ensures Free(s', b)
  {
  }

  /** The upload still holds its claim, with the row of its hash at this count. */
  ghost predicate Claiming(now: System, a: UploadArgs, b: UploadArgs) {
    && now.procs.Keys == {0, 1, 2, 3} && now.procs[3] == Begin(UploadJob(b), {}) && Free(now.store, b)
    && now.procs[2].job == UploadJob(a) && now.procs[2].at == AddReference && now.procs[2].faults == {}
  }

  lemma StillFree(s: Store, s': Store, b: UploadArgs)
    requires Free(s, b) && s'.db.files == s.db.files && s'.blobs == s.blobs
    requires forall g :: g in s'.db.rows ==> g in s.db.rows && s'.db.rows[g].path == s.db.rows[g].path
    ensures Free(s', b)
  {
  }

  lemma RaisedStays(s: Store, h: Hash, now: Time, x: string, b: UploadArgs)
    requires Counting(s, h, 1, x) && Free(s, b)
    ensures var s' := s.(db := AddToCount(s.db, h, 1, now)); Counting(s', h, 2, x) && Free(s', b)
  {
    StillFree(s, s.(db := AddToCount(s.db, h, 1, now)), b);
  }

  /** Both deletes find the file, and the upload raises the count to two. */
  lemma ToClaim(sha: Bytes -> Hash, start: System, now: System, a: UploadArgs, b: UploadArgs, x: string)
    returns (next: System)
    requires Reaches(sha, start, now) && HasFound(sha, now, a, b, x)
    ensures Reaches(sha, start, next) && Claiming(next, a, b) && Counting(next.store, sha(a.content), 2, x)
    ensures AboutToRemove(next.procs[0], x, sha(a.content)) && AboutToRemove(next.procs[1], x, sha(a.content))
  {
    var one := Moves(sha, start, now, 0);
    var two := Moves(sha, start, one, 1);
    next := Moves(sha, start, two, 2);
    RaisedStays(now.store, sha(a.content), a.now, x, b);
  }

  /** What the end of a delete that has found its file does to the store. */
  lemma RemoverEnds(sha: Bytes -> Hash, s: Store, p: Proc, x: string, h: Hash, count: int, b: UploadArgs)
    requires WellFormed(sha, p) && AboutToRemove(p, x, h) && Counting(s, h, count, x) && Free(s, b)
    ensures var (s', p') := Alone(sha, s, p);
            && p'.at == Finished && Free(s', b)
            && if count == 1 then h !in s'.db.rows else Counting(s', h, count - 1, x)
  {
    RemoverOnlyRemoves(sha, s, p, x, h);
    RemoverLowers(sha, s, p, x, h, count);
    StaysFree(s, Alone(sha, s, p).0, x, b);
  }

  lemma FirstGoes(sha: Bytes -> Hash, start: System, now: System, a: UploadArgs, b: UploadArgs, x: string)
    returns (next: System)
    requires Reaches(sha, start, now) && Claiming(now, a, b) && Counting(now.store, sha(a.content), 2, x)
    requires AboutToRemove(now.procs[0], x, sha(a.content)) && AboutToRemove(now.procs[1], x, sha(a.content))
    ensures Reaches(sha, start, next) && Claiming(next, a, b) && Counting(next.store, sha(a.content), 1, x)
    ensures next.procs[0].at == Finished && AboutToRemove(next.procs[1], x, sha(a.content))
  {
    next := Finishes(sha, start, now, 0);
    RemoverEnds(sha, now.store, now.procs[0], x, sha(a.content), 2, b);
  }

  lemma SecondGoes(sha: Bytes -> Hash, start: System, now: System, a: UploadArgs, b: UploadArgs, x: string)
    returns (next: System)
    requires Reaches(sha, start, now) && Claiming(now, a, b) && Counting(now.store, sha(a.content), 1, x)
    requires now.procs[0].at == Finished && AboutToRemove(now.procs[1], x, sha(a.content))
    ensures Reaches(sha, start, next) && Claiming(next, a, b) && sha(a.content) !in next.store.db.rows
    ensures next.procs[0].at == Finished && next.procs[1].at == Finished
  {
    next := Finishes(sha, start, now, 1);
    RemoverEnds(sha, now.store, now.procs[1], x, sha(a.content), 1, b);
  }

  /** The deletes are through, and the claim, whose row has gone, cannot be used. */
  ghost predicate Refused(sha: Bytes -> Hash, now: System, a: UploadArgs, b: UploadArgs) {
    && now.procs.Keys == {0, 1, 2, 3} && now.procs[0].at == Finished && now.procs[1].at == Finished
    && now.procs[2].job == UploadJob(a) && now.procs[2].at == LowerCount && now.procs[2].faults == {}
    && now.procs[3] == Begin(UploadJob(b), {}) && Free(now.store, b) && sha(b.content) !in now.store.db.rows
  }

  lemma ClaimIsRefused(sha: Bytes -> Hash, start: System, now: System, a: UploadArgs, b: UploadArgs)
    returns (next: System)
    requires Reaches(sha, start, now) && Claiming(now, a, b) && sha(a.content) !in now.store.db.rows
    requires now.procs[0].at == Finished && now.procs[1].at == Finished && b.content == a.content
    ensures Reaches(sha, start, next) && Refused(sha, next, a, b)
  {
    next := Moves(sha, start, now, 2);
  }

  /** The file of `b` stands on a row with this count, and all but the rollback are through. */
  ghost predicate Standing(sha: Bytes -> Hash, now: System, a: UploadArgs, b: UploadArgs, count: int) {
    && now.procs.Keys == {0, 1, 2, 3} && now.procs[0].at == Finished && now.procs[1].at == Finished
    && now.procs[2].job == UploadJob(a) && Succeeded(now.procs[3])
    && b.id in now.store.db.files && now.store.db.files[b.id].hash == sha(b.content)
    && sha(b.content) in now.store.db.rows && now.store.db.rows[sha(b.content)].count == count
  }

  /** The other upload makes a row of its own. */
  lemma OtherMakesRow(sha: Bytes -> Hash, start: System, now: System, a: UploadArgs, b: UploadArgs)
    returns (next: System)
    requires Reaches(sha, start, now) && Refused(sha, now, a, b) && b.accepted
    ensures Reaches(sha, start, next) && Standing(sha, next, a, b, 1)
    ensures next.procs[2].at == LowerCount && next.procs[2].faults == {}
  {
    next := Finishes(sha, start, now, 3);
    UploadsNew(sha, now.store, b);
  }

  /** The rollback lowers the count of that row. */
  lemma LowersTheNew(sha: Bytes -> Hash, start: System, now: System, a: UploadArgs, b: UploadArgs)
    returns (end: System)
    requires Reaches(sha, start, now) && Standing(sha, now, a, b, 1) && a.content == b.content
    requires now.procs[2].at == LowerCount && now.procs[2].faults == {}
    ensures Reaches(sha, start, end) && Standing(sha, end, a, b, 0) && end.procs[2].at == Finished
  {
    end := Moves(sha, start, now, 2);
  }

  lemma ToRefused(sha: Bytes -> Hash, start: System, now: System, a: UploadArgs, b: UploadArgs, x: string)
    returns (next: System)
    requires Reaches(sha, start, now) && Claiming(now, a, b) && Counting(now.store, sha(a.content), 2, x)
    requires AboutToRemove(now.procs[0], x, sha(a.content)) && AboutToRemove(now.procs[1], x, sha(a.content))
    requires b.content == a.content
    ensures Reaches(sha, start, next) && Refused(sha, next, a, b)
  {
    var one := FirstGoes(sha, start, now, a, b, x);
    var gone := SecondGoes(sha, start, one, a, b, x);
    next := ClaimIsRefused(sha, start, gone, a, b);
  }

  lemma ToTheEnd(sha: Bytes -> Hash, start: System, now: System, a: UploadArgs, b: UploadArgs) returns (end: System)
    requires Reaches(sha, start, now) && Refused(sha, now, a, b) && b.accepted && b.content == a.content
    ensures Reaches(sha, start, end) && Quiescent(end) && Standing(sha, end, a, b, 0)
  {
    var stored := OtherMakesRow(sha, start, now, a, b);
    end := LowersTheNew(sha, start, stored, a, b);
  }

  /** An upload raises the count of a row, which two deletes of one file then bring to zero and remove;
      the upload is refused, and its rollback lowers the count of the row that another upload has made
      since: all calls return, and a file stands on a row that counts nobody. */
  lemma StrayLowerRace(sha: Bytes -> Hash, start: System, a: UploadArgs, b: UploadArgs, x: string)
    returns (end: System)
    requires AtStart(start) && TwoDeletesAndUploads(start, a, b, x) && a.accepted && b.accepted
    requires a.content == b.content && Free(start.store, a) && Free(start.store, b)
    requires x in start.store.db.files && start.store.db.files[x].hash == sha(a.content)
    requires Counting(start.store, sha(a.content), 1, x)
    ensures Reaches(sha, start, end) && Quiescent(end) && Standing(sha, end, a, b, 0)
  {
    StartReaches(sha, start);
    var found := UploadFinds(sha, start, a, b, x);
    var claiming := ToClaim(sha, start, found, a, b, x);
    var refused := ToRefused(sha, start, claiming, a, b, x);
    end := ToTheEnd(sha, start, refused, a, b);
  }
}
