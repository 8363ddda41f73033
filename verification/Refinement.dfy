/** The deduplicated store refines a plain map from ids to named contents: exactly when a faulty
    operation breaks this, and that nothing else does. */
module Refinement {
  import opened Model
  import opened Schema
  import opened Protocol
  import Leaks

  // ---------- invariants ----------

  /** The blob under the row's path is the content whose digest keys the row. */
  ghost predicate RowBacked(sha: Bytes -> Hash, s: Store, h: Hash)
    requires h in s.db.rows
  {
    var row := s.db.rows[h];
    row.path in s.blobs && sha(s.blobs[row.path]) == h && row.size == |s.blobs[row.path]|
  }

  ghost predicate Backed(sha: Bytes -> Hash, s: Store) {
    forall h {:trigger RowBacked(sha, s, h)} :: h in s.db.rows ==> RowBacked(sha, s, h)
  }

  /** No count is below the number of files that rely on it. */
  ghost predicate Covered(db: Db) {
    forall h :: h in db.rows ==> Surplus(db, h) >= 0
  }

  /** Every stored row serves its content, and no row can be removed under a live file. */
  ghost predicate Sound(sha: Bytes -> Hash, s: Store) {
    SchemaHolds(s.db) && Covered(s.db) && Backed(sha, s)
  }

  // ---------- exactly which operations break it ----------

  /** The row was added, its first file was refused, and the rollback dropped the blob but, its
      guard being `reference_count = 0`, kept the row. */
  ghost predicate StrandsRow(sha: Bytes -> Hash, s: Store, a: UploadArgs, faults: set<Point>) {
    && a.accepted && PutContent !in faults
    && (FindRow in faults || sha(a.content) !in s.db.rows)
    && AddRow !in faults && sha(a.content) !in s.db.rows
    && AddFirstFile in faults
    && DropUnfiled !in faults
  }

  /** The count read as zero and the blob was dropped, while the row stayed: because its count
      was never lowered, or because the final DELETE failed. */
  ghost predicate StrandsOnDelete(s: Store, id: string, faults: set<Point>) {
    && FindHash !in faults && RemoveFile !in faults && id in s.db.files
    && (ReleaseCount in faults || CountOf(s.db, s.db.files[id].hash) == 1)
    && FindPath !in faults && DropContent !in faults
    && (ReleaseCount in faults || RemoveRow in faults)
  }

  ghost predicate Strands(sha: Bytes -> Hash, s: Store, op: Op) {
    match op
    case UploadOp(a, faults) => StrandsRow(sha, s, a, faults)
    case DeleteOp(id, now, faults) => StrandsOnDelete(s, id, faults)
  }

  // ---------- Upload ----------

  lemma PutKeepsBacked(sha: Bytes -> Hash, s: Store, path: string, content: Bytes)
    requires Backed(sha, s) && !PathTaken(s.db, path)
    ensures Backed(sha, Put(s, path, content)) && Backed(sha, Drop(Put(s, path, content), path))
    ensures Backed(sha, Drop(s, path))
  {
    forall h | h in s.db.rows
      ensures RowBacked(sha, Put(s, path, content), h)
      ensures RowBacked(sha, Drop(Put(s, path, content), path), h)
      ensures RowBacked(sha, Drop(s, path), h)
    {
      assert RowBacked(sha, s, h) && s.db.rows[h].path != path;
    }
  }

  /** A duplicate drops at most its own copy, and no row loses its path or its size. */
  lemma DuplicateSparesRows(sha: Bytes -> Hash, s: Store, a: UploadArgs, faults: set<Point>, h: Hash)
    requires sha(a.content) in s.db.rows
    ensures var s' := UploadDuplicate(sha, s, a, faults).store;
            && (h in s'.db.rows ==>
                  h in s.db.rows && s'.db.rows[h].path == s.db.rows[h].path && s'.db.rows[h].size == s.db.rows[h].size)
            && (s'.blobs == s.blobs || s'.blobs == s.blobs - {a.path})
  {
  }

  lemma DuplicateKeepsBacked(sha: Bytes -> Hash, s: Store, a: UploadArgs, faults: set<Point>)
    requires Backed(sha, s) && sha(a.content) in s.db.rows && !PathTaken(s.db, a.path)
    ensures Backed(sha, UploadDuplicate(sha, s, a, faults).store)
  {
    var s' := UploadDuplicate(sha, s, a, faults).store;
    forall h | h in s'.db.rows
      ensures RowBacked(sha, s', h)
    {
      DuplicateSparesRows(sha, s, a, faults, h);
      assert RowBacked(sha, s, h) && s.db.rows[h].path != a.path;
    }
  }

  lemma NewKeepsBacked(sha: Bytes -> Hash, s: Store, a: UploadArgs, faults: set<Point>)
    requires Backed(sha, s) && !PathTaken(s.db, a.path) && a.id !in s.db.files
    requires a.path in s.blobs && s.blobs[a.path] == a.content
    ensures var stranded := AddRow !in faults && sha(a.content) !in s.db.rows
                            && AddFirstFile in faults && DropUnfiled !in faults;
            Backed(sha, UploadNew(sha, s, a, faults).store) <==> !stranded
  {
    var g := sha(a.content);
    var s' := UploadNew(sha, s, a, faults).store;
    if AddRow !in faults && g !in s.db.rows && AddFirstFile in faults && DropUnfiled !in faults {
      assert g in s'.db.rows && !RowBacked(sha, s', g);
    } else {
      forall h | h in s'.db.rows
        ensures RowBacked(sha, s', h)
      {
        if h in s.db.rows {
          assert RowBacked(sha, s, h) && s.db.rows[h].path != a.path;
        }
      }
    }
  }

  lemma UploadBacked(sha: Bytes -> Hash, s: Store, a: UploadArgs, faults: set<Point>)
    requires Backed(sha, s) && Fresh(s, UploadOp(a, faults))
    ensures Backed(sha, Upload(sha, s, a, faults).store) <==> !StrandsRow(sha, s, a, faults)
  {
    if a.accepted && PutContent !in faults {
      PutKeepsBacked(sha, s, a.path, a.content);
      var s1 := Put(s, a.path, a.content);
      if FindRow !in faults && sha(a.content) in s.db.rows {
        DuplicateKeepsBacked(sha, s1, a, faults);
      } else {
        NewKeepsBacked(sha, s1, a, faults);
      }
    } else if a.accepted && a.torn.Some? {
      PutKeepsBacked(sha, s, a.path, if a.torn.value <= |a.content| then a.content[..a.torn.value] else a.content);
    }
  }

  // ---------- Delete ----------

  lemma CleanUpBacked(sha: Bytes -> Hash, s: Store, g: Hash, faults: set<Point>)
    requires Backed(sha, s) && SchemaHolds(s.db)
    ensures var stranded := FindPath !in faults && g in s.db.rows && DropContent !in faults
                            && (RemoveRow in faults || s.db.rows[g].count != 0 || Referenced(s.db, g));
            Backed(sha, CleanUp(s, g, faults)) <==> !stranded
  {
    var s' := CleanUp(s, g, faults);
    if g in s'.db.rows && s.db.rows[g].path !in s'.blobs {
      assert RowBacked(sha, s, g) && !RowBacked(sha, s', g);
    } else {
      forall h | h in s'.db.rows
        ensures RowBacked(sha, s', h)
      {
        assert RowBacked(sha, s, h);
      }
    }
  }

  lemma DeleteBacked(sha: Bytes -> Hash, s: Store, id: string, now: Time, faults: set<Point>)
    requires Sound(sha, s)
    ensures Backed(sha, Delete(s, id, now, faults).store) <==> !StrandsOnDelete(s, id, faults)
  {
    if FindHash !in faults && id in s.db.files && RemoveFile !in faults {
      var g := s.db.files[id].hash;
      var removed := DeleteFile(s.db, id);
      var released := if ReleaseCount in faults then removed else AddToCount(removed, g, -1, now);
      var s2 := s.(db := released);
      forall h | h in s2.db.rows
        ensures RowBacked(sha, s2, h)
      {
        assert RowBacked(sha, s, h);
      }
      CleanUpBacked(sha, s2, g, faults);
      assert Surplus(s.db, g) >= 0;
      SurplusOfDeleteFile(s.db, id, g);
      SurplusOfAddToCount(removed, g, -1, now, g);
      NoFilesIffUnreferenced(released, g);
      assert id in FilesOf(s.db, g);
    }
  }

  // ---------- one operation, exactly ----------

  lemma CoveredKept(sha: Bytes -> Hash, s: Store, op: Op)
    requires SchemaHolds(s.db) && Covered(s.db)
    ensures Covered(Apply(sha, s, op).db)
  {
    forall h | h in Apply(sha, s, op).db.rows
      ensures Surplus(Apply(sha, s, op).db, h) >= 0
    {
      match op {
        case UploadOp(a, faults) => Leaks.UploadSurplus(sha, s, a, faults, h);
        case DeleteOp(id, now, faults) => Leaks.DeleteSurplus(sha, s, id, now, faults, h);
      }
      if h !in s.db.rows {
        assert FilesOf(s.db, h) == {};
      }
    }
  }

  /** From a sound store an operation, with any faults, leads to a sound store if and only if it
      does not strand a row. */
  lemma SoundExactly(sha: Bytes -> Hash, s: Store, op: Op)
    requires Sound(sha, s) && Fresh(s, op)
    ensures Sound(sha, Apply(sha, s, op)) <==> !Strands(sha, s, op)
  {
    SchemaKept(sha, s, op);
    CoveredKept(sha, s, op);
    match op {
      case UploadOp(a, faults) => UploadBacked(sha, s, a, faults);
      case DeleteOp(id, now, faults) => DeleteBacked(sha, s, id, now, faults);
    }
  }
}
