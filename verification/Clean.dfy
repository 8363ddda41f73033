/** The invariant of fault-free sequential runs: rows, blobs and groups of files in bijection. */
module Clean {
  import opened Model
  import opened Schema
  import opened Protocol
  import opened Refinement
  import Leaks

  /** Every count is the size of its group of files and at least one; every blob is the blob of
      exactly one row, whose key is its digest. */
  ghost predicate IsClean(sha: Bytes -> Hash, s: Store) {
    && SchemaHolds(s.db)
    && Backed(sha, s)
    && (forall h :: h in s.db.rows ==> s.db.rows[h].count == |FilesOf(s.db, h)| && Referenced(s.db, h))
    && (forall p :: p in s.blobs ==> PathTaken(s.db, p))
  }

  lemma CleanIsSound(sha: Bytes -> Hash, s: Store)
    requires IsClean(sha, s)
    ensures Sound(sha, s)
    ensures forall h :: Surplus(s.db, h) == 0
  {
  }

  lemma CountsStayExact(sha: Bytes -> Hash, s: Store, op: Op, h: Hash)
    requires IsClean(sha, s) && Fresh(s, op) && op.faults == {}
    ensures Surplus(Apply(sha, s, op).db, h) == 0
  {
    CleanIsSound(sha, s);
    match op {
      case UploadOp(a, faults) => Leaks.UploadSurplus(sha, s, a, faults, h);
      case DeleteOp(id, now, faults) => Leaks.DeleteSurplus(sha, s, id, now, faults, h);
    }
  }

  /** A fault-free accepted upload, in closed form. */
  function AfterUpload(sha: Bytes -> Hash, s: Store, a: UploadArgs): Store {
    var g := sha(a.content);
    var files := s.db.files[a.id := NewFile(sha, a)];
    if g in s.db.rows then
      var row := s.db.rows[g];
      Store(Db(s.db.rows[g := row.(count := row.count + 1, updatedAt := a.now)], files), s.blobs)
    else
      Store(Db(s.db.rows[g := NewRow(a)], files), s.blobs[a.path := a.content])
  }

  lemma CopyIsDropped(s: Store, path: string, content: Bytes)
    requires path !in s.blobs
    ensures Drop(Put(s, path, content), path) == s
  {
    assert Drop(Put(s, path, content), path).blobs == s.blobs;
  }

  lemma DuplicateClosedForm(sha: Bytes -> Hash, s: Store, a: UploadArgs)
    requires a.path !in s.blobs && a.id !in s.db.files && sha(a.content) in s.db.rows
    ensures UploadDuplicate(sha, Put(s, a.path, a.content), a, {}).store == AfterUpload(sha, s, a)
  {
    CopyIsDropped(s, a.path, a.content);
    assert DropUnless(DropCopy in {}, Put(s, a.path, a.content), a.path) == s;
  }

  lemma NewClosedForm(sha: Bytes -> Hash, s: Store, a: UploadArgs)
    requires a.id !in s.db.files && sha(a.content) !in s.db.rows && !PathTaken(s.db, a.path)
    ensures UploadNew(sha, Put(s, a.path, a.content), a, {}).store == AfterUpload(sha, s, a)
  {
    assert CanInsertStorage(Put(s, a.path, a.content).db, sha(a.content), a.path);
  }

  lemma UploadClosedForm(sha: Bytes -> Hash, s: Store, a: UploadArgs)
    requires Fresh(s, UploadOp(a, {})) && a.accepted
    ensures Upload(sha, s, a, {}).store == AfterUpload(sha, s, a)
  {
    if sha(a.content) in s.db.rows {
      DuplicateClosedForm(sha, s, a);
    } else {
      NewClosedForm(sha, s, a);
    }
  }

  lemma UploadLeavesNoOrphans(sha: Bytes -> Hash, s: Store, a: UploadArgs)
    requires IsClean(sha, s) && a.id !in s.db.files
    ensures var s' := AfterUpload(sha, s, a);
            && (forall p :: p in s'.blobs ==> PathTaken(s'.db, p))
            && (forall h :: h in s'.db.rows ==> Referenced(s'.db, h))
  {
    var s' := AfterUpload(sha, s, a);
    var g := sha(a.content);
    forall h | h in s'.db.rows
      ensures Referenced(s'.db, h)
    {
      if h == g {
        assert s'.db.files[a.id].hash == h;
      } else {
        var id :| id in s.db.files && s.db.files[id].hash == h;
        assert s'.db.files[id].hash == h;
      }
    }
    forall p | p in s'.blobs
      ensures PathTaken(s'.db, p)
    {
      if p in s.blobs {
        var h :| h in s.db.rows && s.db.rows[h].path == p;
        assert s'.db.rows[h].path == p;
      } else {
        assert s'.db.rows[g].path == p;
      }
    }
  }

  /** A fault-free delete of an existing file from a clean store, in closed form. */
  ghost function AfterDelete(s: Store, id: string, now: Time): Store
    requires id in s.db.files && s.db.files[id].hash in s.db.rows
  {
    var g := s.db.files[id].hash;
    var row := s.db.rows[g];
    if FilesOf(s.db, g) == {id} then
      Store(Db(s.db.rows - {g}, s.db.files - {id}), s.blobs - {row.path})
    else
      Store(Db(s.db.rows[g := row.(count := row.count - 1, updatedAt := now)], s.db.files - {id}), s.blobs)
  }

  lemma LastOfGroup(db: Db, id: string)
    requires id in db.files
    ensures var g := db.files[id].hash;
            && (|FilesOf(db, g)| == 1 <==> FilesOf(db, g) == {id})
            && (Referenced(DeleteFile(db, id), g) <==> FilesOf(db, g) != {id})
  {
    var g := db.files[id].hash;
    assert id in FilesOf(db, g);
    FilesOfDelete(db, id, g);
    NoFilesIffUnreferenced(DeleteFile(db, id), g);
    if |FilesOf(db, g)| == 1 {
      assert |FilesOf(db, g) - {id}| == 0;
      assert FilesOf(db, g) == {id};
    }
  }

  /** Deleting the last file of a group removes exactly its row and its blob; deleting another
      one removes no row and no blob. */
  lemma DeleteClosedForm(sha: Bytes -> Hash, s: Store, id: string, now: Time)
    requires IsClean(sha, s) && id in s.db.files
    ensures Delete(s, id, now, {}).store == AfterDelete(s, id, now)
  {
    LastOfGroup(s.db, id);
    var g := s.db.files[id].hash;
    assert Referenced(AddToCount(DeleteFile(s.db, id), g, -1, now), g) <==> Referenced(DeleteFile(s.db, id), g);
    DeleteCases(s, id, now);
  }

  /** Delete without faults, by what the decremented count reads. */
  lemma DeleteCases(s: Store, id: string, now: Time)
    requires id in s.db.files && s.db.files[id].hash in s.db.rows
    ensures var g := s.db.files[id].hash;
            var row := s.db.rows[g];
            var rest := DeleteFile(s.db, id);
            var s' := Delete(s, id, now, {}).store;
            && (row.count != 1 ==>
                  s' == Store(Db(s.db.rows[g := row.(count := row.count - 1, updatedAt := now)], rest.files), s.blobs))
            && (row.count == 1 && !Referenced(AddToCount(rest, g, -1, now), g) ==>
                  s' == Store(Db(s.db.rows - {g}, rest.files), s.blobs - {row.path}))
  {
  }

  lemma DeleteLeavesNoOrphanRow(sha: Bytes -> Hash, s: Store, id: string, now: Time, h: Hash)
    requires IsClean(sha, s) && id in s.db.files && h in AfterDelete(s, id, now).db.rows
    ensures Referenced(AfterDelete(s, id, now).db, h)
  {
    LastOfGroup(s.db, id);
    var rest := DeleteFile(s.db, id);
    assert AfterDelete(s, id, now).db.files == rest.files;
    assert h in s.db.rows;
    var i :| i in s.db.files && s.db.files[i].hash == h;
    if h != s.db.files[id].hash {
      assert i in rest.files && rest.files[i].hash == h;
    } else {
      assert Referenced(rest, h);
    }
  }

  lemma DeleteLeavesNoOrphanBlob(sha: Bytes -> Hash, s: Store, id: string, now: Time, p: string)
    requires IsClean(sha, s) && id in s.db.files && p in AfterDelete(s, id, now).blobs
    ensures PathTaken(AfterDelete(s, id, now).db, p)
  {
    var h :| h in s.db.rows && s.db.rows[h].path == p;
    var rows := AfterDelete(s, id, now).db.rows;
    assert h in rows && rows[h].path == p;
  }

  /** Every fault-free operation keeps the store clean. */
  lemma CleanKept(sha: Bytes -> Hash, s: Store, op: Op)
    requires IsClean(sha, s) && Fresh(s, op) && op.faults == {}
    ensures IsClean(sha, Apply(sha, s, op))
  {
    CleanIsSound(sha, s);
    NoFaultStrandsNothing(sha, s, op);
    SoundExactly(sha, s, op);
    forall h | h in Apply(sha, s, op).db.rows
      ensures Apply(sha, s, op).db.rows[h].count == |FilesOf(Apply(sha, s, op).db, h)|
    {
      CountsStayExact(sha, s, op, h);
    }
    match op {
      case UploadOp(a, faults) =>
        if a.accepted {
          UploadClosedForm(sha, s, a);
          UploadLeavesNoOrphans(sha, s, a);
        }
      case DeleteOp(id, now, faults) =>
        if id in s.db.files {
          DeleteClosedForm(sha, s, id, now);
          forall h | h in AfterDelete(s, id, now).db.rows
            ensures Referenced(AfterDelete(s, id, now).db, h)
          {
            DeleteLeavesNoOrphanRow(sha, s, id, now, h);
          }
          forall p | p in AfterDelete(s, id, now).blobs
            ensures PathTaken(AfterDelete(s, id, now).db, p)
          {
            DeleteLeavesNoOrphanBlob(sha, s, id, now, p);
          }
        }
    }
  }

  lemma NoFaultStrandsNothing(sha: Bytes -> Hash, s: Store, op: Op)
    requires op.faults == {}
    ensures !Strands(sha, s, op)
  {
  }

  lemma {:induction false} CleanRun(sha: Bytes -> Hash, s: Store, ops: seq<Op>)
    requires IsClean(sha, s) && FreshRun(sha, s, ops) && FaultFree(ops)
    ensures IsClean(sha, Run(sha, s, ops))
    decreases |ops|
  {
    if ops == [] {
    } else {
      CleanKept(sha, s, ops[0]);
      CleanRun(sha, Apply(sha, s, ops[0]), ops[1..]);
    }
  }
}
