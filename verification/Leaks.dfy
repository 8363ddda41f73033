/** Exact accounting of reference counts over sequential runs with arbitrary faults. */
module Leaks {
  import opened Model
  import opened Schema
  import opened Protocol

  /** The upload finds a row, raises its count, cannot insert its file and cannot lower the count again. */
  ghost predicate LeaksOnLower(sha: Bytes -> Hash, s: Store, a: UploadArgs, faults: set<Point>) {
    && a.accepted && PutContent !in faults && FindRow !in faults && sha(a.content) in s.db.rows
    && RaiseCount !in faults
    && (AddReference in faults || a.id in s.db.files)
    && LowerCount in faults
  }

  /** The upload adds a row with count one and cannot insert its file: the guarded DELETE keeps the row. */
  ghost predicate LeaksOnFirstFile(sha: Bytes -> Hash, s: Store, a: UploadArgs, faults: set<Point>) {
    && a.accepted && PutContent !in faults
    && AddRow !in faults && CanInsertStorage(s.db, sha(a.content), a.path)
    && (AddFirstFile in faults || a.id in s.db.files)
  }

  /** The file row is gone and the count was not lowered. */
  ghost predicate LeaksOnRelease(s: Store, id: string, faults: set<Point>) {
    FindHash !in faults && RemoveFile !in faults && id in s.db.files && ReleaseCount in faults
  }

  /** How many counts of `h` one operation leaks: zero or one. */
  ghost function Leak(sha: Bytes -> Hash, s: Store, op: Op, h: Hash): nat {
    match op
    case UploadOp(a, faults) =>
      if h == sha(a.content) && (LeaksOnLower(sha, s, a, faults) || LeaksOnFirstFile(sha, s, a, faults)) then 1 else 0
    case DeleteOp(id, now, faults) =>
      if LeaksOnRelease(s, id, faults) && s.db.files[id].hash == h then 1 else 0
  }

  ghost function Leaked(sha: Bytes -> Hash, s: Store, ops: seq<Op>, h: Hash): nat
    decreases |ops|
  {
    if ops == [] then 0
    else Leak(sha, s, ops[0], h) + Leaked(sha, Apply(sha, s, ops[0]), ops[1..], h)
  }

  lemma DuplicateSurplus(sha: Bytes -> Hash, s: Store, a: UploadArgs, faults: set<Point>, h: Hash)
    requires sha(a.content) in s.db.rows
    ensures Surplus(UploadDuplicate(sha, s, a, faults).store.db, h) == Surplus(s.db, h)
         + (if h == sha(a.content) && RaiseCount !in faults && LowerCount in faults
              && (AddReference in faults || a.id in s.db.files) then 1 else 0)
  {
    var g := sha(a.content);
    SurplusOfAddToCount(s.db, g, 1, a.now, h);
    var raised := AddToCount(s.db, g, 1, a.now);
    if AddReference in faults || a.id in s.db.files {
      SurplusOfAddToCount(raised, g, -1, a.now, h);
    } else {
      SurplusOfInsertFile(raised, a.id, NewFile(sha, a), h);
    }
  }

  lemma NewSurplus(sha: Bytes -> Hash, s: Store, a: UploadArgs, faults: set<Point>, h: Hash)
    ensures Surplus(UploadNew(sha, s, a, faults).store.db, h) == Surplus(s.db, h)
         + (if h == sha(a.content) && AddRow !in faults && CanInsertStorage(s.db, sha(a.content), a.path)
              && (AddFirstFile in faults || a.id in s.db.files) then 1 else 0)
  {
    var g := sha(a.content);
    if AddRow !in faults && CanInsertStorage(s.db, g, a.path) {
      SurplusOfInsertStorage(s.db, g, NewRow(a), h);
      var added := InsertStorage(s.db, g, NewRow(a));
      if AddFirstFile !in faults && a.id !in s.db.files {
        SurplusOfInsertFile(added, a.id, NewFile(sha, a), h);
      }
    }
  }

  lemma UploadSurplus(sha: Bytes -> Hash, s: Store, a: UploadArgs, faults: set<Point>, h: Hash)
    ensures Surplus(Upload(sha, s, a, faults).store.db, h)
         == Surplus(s.db, h) + Leak(sha, s, UploadOp(a, faults), h)
  {
    if a.accepted && PutContent !in faults {
      var s1 := Put(s, a.path, a.content);
      if FindRow !in faults && sha(a.content) in s.db.rows {
        DuplicateSurplus(sha, s1, a, faults, h);
      } else {
        NewSurplus(sha, s1, a, faults, h);
      }
    }
  }

  lemma CleanUpSurplus(s: Store, g: Hash, faults: set<Point>, h: Hash)
    ensures Surplus(CleanUp(s, g, faults).db, h) == Surplus(s.db, h)
  {
  }

  lemma DeleteSurplus(sha: Bytes -> Hash, s: Store, id: string, now: Time, faults: set<Point>, h: Hash)
    requires ForeignKey(s.db)
    ensures Surplus(Delete(s, id, now, faults).store.db, h)
         == Surplus(s.db, h) + Leak(sha, s, DeleteOp(id, now, faults), h)
  {
    if FindHash !in faults && id in s.db.files && RemoveFile !in faults {
      var g := s.db.files[id].hash;
      SurplusOfDeleteFile(s.db, id, h);
      var removed := DeleteFile(s.db, id);
      SurplusOfAddToCount(removed, g, -1, now, h);
      var released := if ReleaseCount in faults then removed else AddToCount(removed, g, -1, now);
      CleanUpSurplus(s.(db := released), g, faults, h);
    }
  }

  /** In every sequential run, whatever fails: the count of every hash is its files plus what
      leaked. A leak comes only from a failed decrement in Delete, from a failed rollback
      decrement in Upload, or from a failed insert of the first file of a new row. */
  lemma {:induction false} CountsAreExact(sha: Bytes -> Hash, s: Store, ops: seq<Op>, h: Hash)
    requires SchemaHolds(s.db)
    ensures Surplus(Run(sha, s, ops).db, h) == Surplus(s.db, h) + Leaked(sha, s, ops, h)
    decreases |ops|
  {
    if ops == [] {
    } else {
      match ops[0] {
        case UploadOp(a, faults) => UploadSurplus(sha, s, a, faults, h);
        case DeleteOp(id, now, faults) => DeleteSurplus(sha, s, id, now, faults, h);
      }
      SchemaKept(sha, s, ops[0]);
      CountsAreExact(sha, Apply(sha, s, ops[0]), ops[1..], h);
    }
  }

  /** From the empty store: a row never counts fewer files than reference it, and a referenced
      row is never removed. */
  lemma NeverUnderCounted(sha: Bytes -> Hash, ops: seq<Op>, h: Hash)
    ensures var db := Run(sha, EMPTY, ops).db;
            && CountOf(db, h) == |FilesOf(db, h)| + Leaked(sha, EMPTY, ops, h)
            && (Referenced(db, h) ==> h in db.rows && db.rows[h].count >= 1)
  {
    assert FilesOf(EMPTY.db, h) == {};
    CountsAreExact(sha, EMPTY, ops, h);
    SchemaKeptRun(sha, EMPTY, ops);
    NoFilesIffUnreferenced(Run(sha, EMPTY, ops).db, h);
  }
}
