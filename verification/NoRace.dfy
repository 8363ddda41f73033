/** Safe batches in which no file is deleted twice: the invariant that every step keeps, besides that
    of module Safety. Counts are exact in every reachable state. */
module NoRace {
  import opened Wrappers
  import opened Model
  import opened Schema
  import opened Protocol
  import opened Machine
  import opened Bound
  import opened Safety

  // ---------- the hypothesis ----------

  predicate Deletes(procs: map<nat, Proc>, i: nat, v: string) {
    i in procs && procs[i].job.DeleteJob? && procs[i].job.id == v
  }

  /** No file that is there, or is to come, is deleted by two calls. */
  ghost predicate DeletedOnce(sha: Bytes -> Hash, s0: Store, procs: map<nat, Proc>) {
    forall i, j, h, v :: Victim(sha, s0, procs, h, v) && Deletes(procs, i, v) && Deletes(procs, j, v) ==> i == j
  }

  /** A safe batch in which no file is deleted twice. */
  ghost predicate Tidy(sha: Bytes -> Hash, s0: Store, procs: map<nat, Proc>) {
    Safe(sha, s0, procs) && DeletedOnce(sha, s0, procs)
  }

  // ---------- what holds of one process ----------

  /** A delete alone decides over its file; once it saw zero, it alone cleans up its hash. */
  ghost predicate DeleteLocal(s: Store, p: Proc)
    requires p.job.DeleteJob?
  {
    && (p.at == RemoveFile ==> p.job.id in s.db.files && p.hash == Some(s.db.files[p.job.id].hash))
    && (p.at == ReleaseCount ==> p.debt == Claim)
    && (Cleaning(p) && p.hash.Some? ==> p.hash.value in s.db.rows && s.db.rows[p.hash.value].count == 0)
    && (p.at == DropContent && p.hash.Some? ==>
          p.read.Some? && p.read.value.path == s.db.rows[p.hash.value].path)
    && (p.at == RemoveRow && p.hash.Some? ==> s.db.rows[p.hash.value].path !in s.blobs)
    && (p.at == Finished && p.hash.Some? && p.seen == Some(0) ==> p.hash.value !in s.db.rows)
  }

  ghost predicate Local(sys: System, i: nat)
    requires i in sys.procs
  {
    var p := sys.procs[i];
    && p.debt != Leak
    && (p.job.DeleteJob? ==> DeleteLocal(sys.store, p))
  }

  // ---------- what holds of the whole system ----------

  /** Counts are exact, where a claim stands for the reference on its way. */
  ghost predicate Exact(sys: System, h: Hash) {
    Surplus(sys.store.db, h) == |Owing(sys.procs, h)|
  }

  ghost predicate Tended(procs: map<nat, Proc>, h: Hash) {
    exists i :: i in procs && Cleaning(procs[i]) && procs[i].hash == Some(h)
  }

  ghost predicate Attended(sys: System, h: Hash) {
    h in sys.store.db.rows && sys.store.db.rows[h].count == 0 ==> Tended(sys.procs, h)
  }

  ghost predicate Held(procs: map<nat, Proc>, path: string) {
    exists i :: i in procs && HoldsBlob(procs[i]) && procs[i].job.args.path == path
  }

  ghost predicate Owned(sys: System, path: string) {
    path in sys.store.blobs ==> PathTaken(sys.store.db, path) || Held(sys.procs, path)
  }

  /** No two deletes observe zero for the same hash. */
  ghost predicate OneZero(procs: map<nat, Proc>) {
    forall i, j, h :: i in procs && j in procs && SawZero(procs[i], h) && SawZero(procs[j], h) ==> i == j
  }

  ghost predicate Steady(sha: Bytes -> Hash, s0: Store, sys: System) {
    && DeletedOnce(sha, s0, sys.procs)
    && Guarded(sha, s0, sys)
    && (forall i :: i in sys.procs ==> Local(sys, i))
    && (forall h :: Exact(sys, h))
    && (forall h :: Attended(sys, h))
    && (forall path :: Owned(sys, path))
    && OneZero(sys.procs)
  }

  // ---------- consequences used by the steps ----------

  /** A hash that somebody owes has a positive count. */
  lemma OwedIsPositive(sha: Bytes -> Hash, s0: Store, sys: System, i: nat, h: Hash)
    requires Steady(sha, s0, sys) && i in sys.procs && sys.procs[i].Owes(h)
    ensures h in sys.store.db.rows && sys.store.db.rows[h].count >= 1
  {
    assert i in Owing(sys.procs, h);
    assert Exact(sys, h);
  }

  /** What a delete has seen reach zero, no pending upload carries. */
  lemma ZeroIsNotPending(sha: Bytes -> Hash, s0: Store, sys: System, i: nat, j: nat, h: Hash)
    requires Steady(sha, s0, sys) && i in sys.procs && j in sys.procs && SawZero(sys.procs[j], h)
    requires sys.procs[i].job.UploadJob? && sys.procs[i].job.args.accepted && !Stored(sys.procs[i])
    ensures h != sha(sys.procs[i].job.args.content)
  {
    PendingIsNeeded(sha, s0, sys, i);
    assert Kept(sha, s0, sys, h);
  }

  lemma CleanerSawZero(sha: Bytes -> Hash, s0: Store, sys: System, j: nat)
    requires Steady(sha, s0, sys) && j in sys.procs && Cleaning(sys.procs[j])
    ensures sys.procs[j].hash.Some? && SawZero(sys.procs[j], sys.procs[j].hash.value)
  {
    assert Holds(sha, s0, sys, j);
  }

  // ---------- the deletes that do not move ----------

  /** A change of the store that the delete `q` does not notice. */
  ghost predicate Unnoticed(s: Store, s': Store, q: Proc)
    requires q.job.DeleteJob?
  {
    DeleteLocal(s, q) ==> DeleteLocal(s', q)
  }

  lemma PutUnnoticed(s: Store, path: string, content: Bytes, q: Proc)
    requires q.job.DeleteJob? && !PathTaken(s.db, path)
    ensures Unnoticed(s, Put(s, path, content), q)
  {
  }

  lemma DropUnnoticed(s: Store, path: string, q: Proc)
    requires q.job.DeleteJob?
    ensures Unnoticed(s, Drop(s, path), q)
  {
  }

  lemma CountUnnoticed(s: Store, h: Hash, delta: int, now: Time, q: Proc)
    requires q.job.DeleteJob? && (Cleaning(q) ==> q.hash != Some(h))
    ensures Unnoticed(s, s.(db := AddToCount(s.db, h, delta, now)), q)
  {
  }

  lemma InsertStorageUnnoticed(s: Store, h: Hash, row: Row, q: Proc)
    requires CanInsertStorage(s.db, h, row.path) && q.job.DeleteJob? && !SawZero(q, h)
    ensures Unnoticed(s, s.(db := InsertStorage(s.db, h, row)), q)
  {
  }

  lemma DeleteStorageUnnoticed(s: Store, h: Hash, q: Proc)
    requires q.job.DeleteJob? && (Cleaning(q) ==> q.hash != Some(h))
    ensures Unnoticed(s, s.(db := DeleteStorage(s.db, h)), q)
  {
  }

  lemma InsertFileUnnoticed(s: Store, id: string, file: FileRow, q: Proc)
    requires CanInsertFile(s.db, id, file.hash) && q.job.DeleteJob?
    ensures Unnoticed(s, s.(db := InsertFile(s.db, id, file)), q)
  {
  }
}
