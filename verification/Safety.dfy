/** Which batches of concurrent calls are safe: a condition on the calls, and the invariant that
    every step of a safe batch keeps. No live file is ever without its row or its bytes. */
module Safety {
  import opened Wrappers
  import opened Model
  import opened Schema
  import opened Protocol
  import opened Machine
  import opened Bound
  import opened Refinement
  import opened Clean

  // ---------- the calls, and when they are safe ----------

  /** Calls without faults on a clean store. Uploads draw different and unused ids and paths.
      Deletes name any ids: several the same one, and also one that an upload of the batch draws. */
  ghost predicate Calls(sha: Bytes -> Hash, s0: Store, procs: map<nat, Proc>) {
    && IsClean(sha, s0)
    && Faultless(procs)
    && (forall i, j :: i in procs && j in procs && i != j && procs[i].job.UploadJob? && procs[j].job.UploadJob? ==>
          procs[i].job.args.id != procs[j].job.args.id && procs[i].job.args.path != procs[j].job.args.path)
    && (forall i :: i in procs && procs[i].job.UploadJob? ==>
          procs[i].job.args.id !in s0.db.files && procs[i].job.args.path !in s0.blobs)
  }

  /** An accepted upload of content with this digest. */
  predicate Carries(sha: Bytes -> Hash, job: Job, h: Hash) {
    job.UploadJob? && job.args.accepted && sha(job.args.content) == h
  }

  ghost function Carriers(sha: Bytes -> Hash, procs: map<nat, Proc>, h: Hash): set<nat> {
    set i | i in procs && Carries(sha, procs[i].job, h)
  }

  ghost predicate Uploads(sha: Bytes -> Hash, procs: map<nat, Proc>, h: Hash, v: string) {
    exists i :: i in Carriers(sha, procs, h) && procs[i].job.args.id == v
  }

  /** A file of `h` at the start, or one that a call is to add. */
  ghost predicate Victim(sha: Bytes -> Hash, s0: Store, procs: map<nat, Proc>, h: Hash, v: string) {
    v in FilesOf(s0.db, h) || Uploads(sha, procs, h, v)
  }

  /** A delete of a file of `h` that the start has. */
  predicate AimsAtOld(s0: Store, job: Job, h: Hash) {
    job.DeleteJob? && job.id in s0.db.files && s0.db.files[job.id].hash == h
  }

  /** A delete of a file that one of these uploads adds. */
  ghost predicate AimsAtNew(procs: map<nat, Proc>, job: Job, us: set<nat>) {
    job.DeleteJob? && exists u :: u in us && u in procs && procs[u].job.UploadJob? && procs[u].job.args.id == job.id
  }

  /** The deletes of files of `h`, of the start or of the uploads `us`, other than `v`. */
  ghost function Aimed(s0: Store, procs: map<nat, Proc>, h: Hash, v: string, us: set<nat>): set<nat> {
    set i | i in procs && procs[i].job.Id() != v
            && (AimsAtOld(s0, procs[i].job, h) || AimsAtNew(procs, procs[i].job, us))
  }

  /** `v` is spared when only these uploads come before: the deletes of the other files are fewer
      than the references. */
  ghost predicate Spares(s0: Store, procs: map<nat, Proc>, h: Hash, v: string, us: set<nat>) {
    |FilesOf(s0.db, h)| + |us| > 0 ==> |Aimed(s0, procs, h, v, us)| < |FilesOf(s0.db, h)| + |us|
  }

  /** For every file that is there, or is to come, and whichever other uploads of its hash come
      first: the deletes of the other files are fewer than the references. */
  ghost predicate Safe(sha: Bytes -> Hash, s0: Store, procs: map<nat, Proc>) {
    forall h, v, us :: Victim(sha, s0, procs, h, v) && us <= Carriers(sha, procs, h) ==> Spares(s0, procs, h, v, us)
  }

  // ---------- what holds of one process ----------

  predicate HoldsBlob(p: Proc) {
    p.job.UploadJob? && p.at in {FindRow, DropCopy, AddRow, DropUnstored}
  }

  predicate Cleaning(p: Proc) {
    p.job.DeleteJob? && p.at in {FindPath, DropContent, RemoveRow}
  }

  predicate SawZero(p: Proc, h: Hash) {
    p.job.DeleteJob? && p.hash == Some(h) && p.seen == Some(0)
  }

  predicate Stored(p: Proc) {
    p.job.UploadJob? && p.at == Finished && p.answer.Some? && p.answer.value.Success?
  }

  /** An upload holds its own blob and nobody's path, its id is unused until it succeeds, and a row
      it has seen or made does not go away while it needs it. */
  ghost predicate UploadLocal(sha: Bytes -> Hash, s: Store, p: Proc)
    requires p.job.UploadJob?
  {
    var a := p.job.args;
    && p.at !in {LowerCount, UndoRow, DropUnfiled}
    && (a.id in s.db.files ==> Stored(p) && a.accepted && s.db.files[a.id] == NewFile(sha, a))
    && (p.at == PutContent ==> a.path !in s.blobs)
    && (p.at in {PutContent, FindRow, DropCopy, AddRow, DropUnstored} ==> !PathTaken(s.db, a.path))
    && (HoldsBlob(p) ==> a.path in s.blobs && s.blobs[a.path] == a.content)
    && (p.at in {DropCopy, RaiseCount, AddReference, AddFirstFile, DropUnstored} ==> sha(a.content) in s.db.rows)
    && ((p.at != PutContent && p.at != Finished) || Stored(p) ==> a.accepted)
  }

  /** A file of `h`, of the start or of an upload that has succeeded. */
  ghost predicate Belongs(sha: Bytes -> Hash, s0: Store, procs: map<nat, Proc>, h: Hash, id: string) {
    || id in FilesOf(s0.db, h)
    || exists u :: u in Carriers(sha, procs, h) && procs[u].job.args.id == id && Stored(procs[u])
  }

  /** A path that a row of `h` may have: that of its row at the start, or that of an upload. */
  ghost predicate MayPoint(sha: Bytes -> Hash, s0: Store, procs: map<nat, Proc>, h: Hash, path: string) {
    || (h in s0.db.rows && path == s0.db.rows[h].path)
    || exists u :: u in Carriers(sha, procs, h) && procs[u].job.args.path == path
  }

  /** A delete has found a file that was there, has released its hash only after the file went, and
      cleans up a row of that hash. */
  ghost predicate DeleteHolds(sha: Bytes -> Hash, s0: Store, procs: map<nat, Proc>, s: Store, p: Proc)
    requires p.job.DeleteJob?
  {
    && (p.hash.Some? ==> Belongs(sha, s0, procs, p.hash.value, p.job.id))
    && (p.hash.None? <==> p.at == FindHash || p.answer == Some(Failure(NotFound)))
    && (p.at == Finished && p.hash.Some? ==> p.answer == Some(Success(None)) && p.seen.Some?)
    && (p.at in {RemoveFile, ReleaseCount} || Cleaning(p) ==> p.hash.Some?)
    && (p.at in {FindHash, RemoveFile, ReleaseCount} ==> p.seen == None)
    && (p.seen.Some? || p.at == ReleaseCount ==> p.hash.Some? && p.job.id !in s.db.files)
    && (Cleaning(p) ==> p.seen == Some(0))
    && (p.at == DropContent ==> p.read.Some? && MayPoint(sha, s0, procs, p.hash.value, p.read.value.path))
  }

  ghost predicate Holds(sha: Bytes -> Hash, s0: Store, sys: System, i: nat)
    requires i in sys.procs
  {
    var p := sys.procs[i];
    && WellFormed(sha, p)
    && (p.job.UploadJob? && p.at == Finished && p.job.args.accepted ==>
          Begun(sha, s0, sys.procs, sha(p.job.args.content)))
    && if p.job.UploadJob? then UploadLocal(sha, sys.store, p) else DeleteHolds(sha, s0, sys.procs, sys.store, p)
  }

  // ---------- what holds of one hash ----------

  predicate HasReleased(p: Proc, h: Hash) {
    p.job.DeleteJob? && p.hash == Some(h) && p.seen.Some?
  }

  /** The deletes that have lowered the count of `h`, or found its row gone. */
  ghost function Released(procs: map<nat, Proc>, h: Hash): set<nat> {
    set i | i in procs && HasReleased(procs[i], h)
  }

  predicate HasRaised(sha: Bytes -> Hash, p: Proc, h: Hash) {
    Carries(sha, p.job, h) && (p.debt == Claim || Stored(p))
  }

  /** The uploads that have raised the count of `h`, or made its row. */
  ghost function Raised(sha: Bytes -> Hash, procs: map<nat, Proc>, h: Hash): set<nat> {
    set i | i in procs && HasRaised(sha, procs[i], h)
  }

  /** A delete that has removed the file `v`. */
  predicate HasRemoved(p: Proc, v: string) {
    p.job.DeleteJob? && p.job.id == v && (p.seen.Some? || p.at == ReleaseCount)
  }

  ghost predicate Alive(procs: map<nat, Proc>, v: string) {
    forall i :: i in procs ==> !HasRemoved(procs[i], v)
  }

  /** Some file of `h` is there, or is to come. */
  ghost predicate Needed(sha: Bytes -> Hash, s0: Store, procs: map<nat, Proc>, h: Hash) {
    exists v :: Victim(sha, s0, procs, h, v) && Alive(procs, v)
  }

  /** There is a row of `h`, or there has been one. */
  ghost predicate Begun(sha: Bytes -> Hash, s0: Store, procs: map<nat, Proc>, h: Hash) {
    h in s0.db.rows || Raised(sha, procs, h) != {}
  }

  /** The row has its blob, and counts at least what was raised and not released. */
  ghost predicate Intact(sha: Bytes -> Hash, s0: Store, sys: System, h: Hash) {
    && h in sys.store.db.rows && RowBacked(sha, sys.store, h)
    && sys.store.db.rows[h].count + |Released(sys.procs, h)|
       >= |FilesOf(s0.db, h)| + |Raised(sha, sys.procs, h)|
  }

  ghost predicate Kept(sha: Bytes -> Hash, s0: Store, sys: System, h: Hash) {
    && (h in sys.store.db.rows ==>
          MayPoint(sha, s0, sys.procs, h, sys.store.db.rows[h].path) && Begun(sha, s0, sys.procs, h))
    && (forall i :: i in sys.procs && SawZero(sys.procs[i], h) ==> !Needed(sha, s0, sys.procs, h))
    && (Needed(sha, s0, sys.procs, h) && Begun(sha, s0, sys.procs, h) ==> Intact(sha, s0, sys, h))
  }

  /** Every file is one of the start, or one that an upload has added. */
  ghost predicate FilesBelong(sha: Bytes -> Hash, s0: Store, sys: System) {
    forall id :: id in sys.store.db.files ==>
      || (id in s0.db.files && sys.store.db.files[id] == s0.db.files[id])
      || Uploads(sha, sys.procs, sys.store.db.files[id].hash, id)
  }

  ghost predicate Guarded(sha: Bytes -> Hash, s0: Store, sys: System) {
    && Calls(sha, s0, sys.procs)
    && Safe(sha, s0, sys.procs)
    && SchemaHolds(sys.store.db)
    && FilesBelong(sha, s0, sys)
    && (forall i :: i in sys.procs ==> Holds(sha, s0, sys, i))
    && (forall h :: Kept(sha, s0, sys, h))
  }

  // ---------- why a safe batch loses nothing ----------

  lemma SubsetIsSmaller(a: set<nat>, b: set<nat>)
    requires a <= b
    ensures |a| <= |b|
  {
    assert b == a + (b - a);
  }

  /** The deletes that have found a file have found one that was there. */
  ghost predicate FoundBelongs(sha: Bytes -> Hash, s0: Store, procs: map<nat, Proc>) {
    forall i :: i in procs && procs[i].job.DeleteJob? && procs[i].hash.Some? ==>
      Belongs(sha, s0, procs, procs[i].hash.value, procs[i].job.id)
  }

  /** Who has released a hash aimed at one of its files, and not at one that is alive. */
  lemma ReleasesAim(sha: Bytes -> Hash, s0: Store, procs: map<nat, Proc>, h: Hash, v: string)
    requires FoundBelongs(sha, s0, procs) && Alive(procs, v)
    ensures Released(procs, h) <= Aimed(s0, procs, h, v, Raised(sha, procs, h))
  {
    forall i | i in Released(procs, h)
      ensures i in Aimed(s0, procs, h, v, Raised(sha, procs, h))
    {
      assert Belongs(sha, s0, procs, h, procs[i].job.id) && !HasRemoved(procs[i], v);
      if procs[i].job.id !in FilesOf(s0.db, h) {
        var u :| u in Carriers(sha, procs, h) && procs[u].job.args.id == procs[i].job.id && Stored(procs[u]);
        assert u in Raised(sha, procs, h);
      }
    }
  }

  /** While a file is alive, the releases stay below what was there and what was raised. */
  lemma ReleasesStayBelow(sha: Bytes -> Hash, s0: Store, procs: map<nat, Proc>, h: Hash)
    requires Calls(sha, s0, procs) && Safe(sha, s0, procs) && FoundBelongs(sha, s0, procs)
    requires Needed(sha, s0, procs, h) && Begun(sha, s0, procs, h)
    ensures |Released(procs, h)| < |FilesOf(s0.db, h)| + |Raised(sha, procs, h)|
  {
    var v :| Victim(sha, s0, procs, h, v) && Alive(procs, v);
    var us := Raised(sha, procs, h);
    ReleasesAim(sha, s0, procs, h, v);
    SubsetIsSmaller(Released(procs, h), Aimed(s0, procs, h, v, us));
    assert us <= Carriers(sha, procs, h);
    assert Spares(s0, procs, h, v, us);
    NoFilesIffUnreferenced(s0.db, h);
  }

  /** An accepted upload that has not finished is needed. */
  lemma PendingIsNeeded(sha: Bytes -> Hash, s0: Store, sys: System, i: nat)
    requires Guarded(sha, s0, sys) && i in sys.procs && sys.procs[i].job.UploadJob? && sys.procs[i].job.args.accepted
    requires !Stored(sys.procs[i])
    ensures Needed(sha, s0, sys.procs, sha(sys.procs[i].job.args.content))
  {
    var a := sys.procs[i].job.args;
    var h := sha(a.content);
    assert i in Carriers(sha, sys.procs, h) && Uploads(sha, sys.procs, h, a.id);
    forall j | j in sys.procs
      ensures !HasRemoved(sys.procs[j], a.id)
    {
      assert Holds(sha, s0, sys, j);
    }
    assert Victim(sha, s0, sys.procs, h, a.id) && Alive(sys.procs, a.id);
  }

  /** The paths of different hashes are different. */
  lemma PathsDiffer(sha: Bytes -> Hash, s0: Store, procs: map<nat, Proc>, g: Hash, h: Hash, path: string)
    requires Calls(sha, s0, procs) && MayPoint(sha, s0, procs, g, path) && MayPoint(sha, s0, procs, h, path)
    ensures g == h
  {
    if g in s0.db.rows && path == s0.db.rows[g].path {
      assert RowBacked(sha, s0, g);
    }
    if h in s0.db.rows && path == s0.db.rows[h].path {
      assert RowBacked(sha, s0, h);
    }
  }

  // ---------- the processes that do not move ----------

  /** A change of the store that an upload does not notice. */
  ghost predicate Undisturbed(sha: Bytes -> Hash, s: Store, s': Store, q: Proc)
    requires q.job.UploadJob?
  {
    var a := q.job.args;
    && (a.id in s'.db.files ==> a.id in s.db.files && s'.db.files[a.id] == s.db.files[a.id])
    && (a.accepted && q.at != Finished && sha(a.content) in s.db.rows ==> sha(a.content) in s'.db.rows)
    && (PathTaken(s'.db, a.path) ==> PathTaken(s.db, a.path))
    && (q.at == PutContent && a.path in s'.blobs ==> a.path in s.blobs)
    && (HoldsBlob(q) && a.path in s.blobs ==> a.path in s'.blobs && s'.blobs[a.path] == s.blobs[a.path])
  }

  lemma UndisturbedStays(sha: Bytes -> Hash, s: Store, s': Store, q: Proc)
    requires q.job.UploadJob? && WellFormed(sha, q) && UploadLocal(sha, s, q) && Undisturbed(sha, s, s', q)
    ensures UploadLocal(sha, s', q)
  {
  }
}
