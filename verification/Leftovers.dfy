/** What a single operation leaves behind, under any faults: exactly when a blob that no row points
    to, exactly when a row that no file uses; and exactly which faults its answer shows. */
module Leftovers {
  import opened Wrappers
  import opened Model
  import opened Schema
  import opened Protocol
  import opened Refinement
  import opened PlainMap

  /** Every blob belongs to a row. */
  ghost predicate NoOrphan(s: Store) {
    forall path :: path in s.blobs ==> PathTaken(s.db, path)
  }

  /** Every row is used by a file. */
  ghost predicate NoUnused(db: Db) {
    forall h :: h in db.rows ==> Referenced(db, h)
  }

  // ---------- the conditions ----------

  /** An upload that cannot add a row, because the statement fails or because the row is there. */
  predicate CannotAddRow(sha: Bytes -> Hash, s: Store, a: UploadArgs, faults: set<Point>) {
    AddRow in faults || sha(a.content) in s.db.rows
  }

  predicate IsDuplicate(sha: Bytes -> Hash, s: Store, a: UploadArgs, faults: set<Point>) {
    FindRow !in faults && sha(a.content) in s.db.rows
  }

  /** A copy that was not dropped, or written in part only. */
  predicate LeavesCopy(sha: Bytes -> Hash, s: Store, a: UploadArgs, faults: set<Point>) {
    && a.accepted
    && if PutContent in faults then a.torn.Some?
       else if IsDuplicate(sha, s, a, faults) then DropCopy in faults
       else CannotAddRow(sha, s, a, faults) && DropUnstored in faults
  }

  /** The last release, whose clean-up removes the row and not the blob. */
  predicate LeavesBlob(s: Store, id: string, faults: set<Point>) {
    && FindHash !in faults && RemoveFile !in faults && id in s.db.files
    && CountOf(s.db, s.db.files[id].hash) == 1
    && ReleaseCount !in faults && FindPath !in faults && DropContent in faults && RemoveRow !in faults
  }

  ghost predicate LeavesOrphan(sha: Bytes -> Hash, s: Store, op: Op) {
    match op
    case UploadOp(a, faults) => LeavesCopy(sha, s, a, faults)
    case DeleteOp(id, now, faults) => LeavesBlob(s, id, faults)
  }

  /** A new row whose first file is refused; or the last file of a row that stays: because its count
      is not lowered to zero, or because its clean-up does not get through. */
  ghost predicate LeavesUnused(sha: Bytes -> Hash, s: Store, op: Op) {
    match op
    case UploadOp(a, faults) =>
      && a.accepted && PutContent !in faults && !CannotAddRow(sha, s, a, faults) && AddFirstFile in faults
    case DeleteOp(id, now, faults) =>
      && FindHash !in faults && RemoveFile !in faults && id in s.db.files
      && FilesOf(s.db, s.db.files[id].hash) == {id}
      && (ReleaseCount in faults || CountOf(s.db, s.db.files[id].hash) != 1
          || FindPath in faults || RemoveRow in faults)
  }

  // ---------- uploads ----------

  /** The blobs and the rows after an upload. */
  ghost predicate UploadLeaves(sha: Bytes -> Hash, s: Store, s': Store, a: UploadArgs, copy: bool, row: bool) {
    && (forall path :: path != a.path ==> (path in s'.blobs <==> path in s.blobs))
    && (a.path in s'.blobs <==> copy)
    && s'.db.rows.Keys == s.db.rows.Keys + (if row then {sha(a.content)} else {})
    && (forall h :: h in s.db.rows ==> s'.db.rows[h].path == s.db.rows[h].path)
    && (row && sha(a.content) !in s.db.rows ==> s'.db.rows[sha(a.content)].path == a.path)
  }

  lemma DuplicateLeaves(sha: Bytes -> Hash, s: Store, a: UploadArgs, faults: set<Point>)
    requires sha(a.content) in s.db.rows && a.path in s.blobs
    ensures UploadLeaves(sha, s, UploadDuplicate(sha, s, a, faults).store, a, DropCopy in faults, false)
  {
  }

  lemma NewLeaves(sha: Bytes -> Hash, s: Store, a: UploadArgs, faults: set<Point>)
    requires !PathTaken(s.db, a.path) && a.id !in s.db.files && a.path in s.blobs
    ensures UploadLeaves(sha, s, UploadNew(sha, s, a, faults).store, a,
                         if CannotAddRow(sha, s, a, faults) then DropUnstored in faults
                         else AddFirstFile !in faults || DropUnfiled in faults,
                         !CannotAddRow(sha, s, a, faults))
  {
  }

  /** Whether the upload leaves its copy, and whether it makes a row. */
  predicate MakesRow(sha: Bytes -> Hash, s: Store, a: UploadArgs, faults: set<Point>) {
    a.accepted && PutContent !in faults && !CannotAddRow(sha, s, a, faults)
  }

  lemma UploadAfter(sha: Bytes -> Hash, s: Store, a: UploadArgs, faults: set<Point>)
    requires Fresh(s, UploadOp(a, faults))
    ensures UploadLeaves(sha, s, Upload(sha, s, a, faults).store, a,
                         LeavesCopy(sha, s, a, faults)
                         || (MakesRow(sha, s, a, faults) && (AddFirstFile !in faults || DropUnfiled in faults)),
                         MakesRow(sha, s, a, faults))
  {
    if a.accepted && PutContent !in faults {
      var s1 := Put(s, a.path, a.content);
      if IsDuplicate(sha, s, a, faults) {
        DuplicateLeaves(sha, s1, a, faults);
      } else {
        NewLeaves(sha, s1, a, faults);
      }
    }
  }

  /** The paths of the rows after it. */
  lemma PathsAfterUpload(sha: Bytes -> Hash, s: Store, a: UploadArgs, faults: set<Point>, path: string)
    requires Fresh(s, UploadOp(a, faults))
    ensures PathTaken(Upload(sha, s, a, faults).store.db, path) <==>
      PathTaken(s.db, path) || (MakesRow(sha, s, a, faults) && path == a.path)
  {
    var s' := Upload(sha, s, a, faults).store;
    UploadAfter(sha, s, a, faults);
    if PathTaken(s.db, path) {
      var h :| h in s.db.rows && s.db.rows[h].path == path;
      assert h in s'.db.rows && s'.db.rows[h].path == path;
    }
    if MakesRow(sha, s, a, faults) && path == a.path {
      assert s'.db.rows[sha(a.content)].path == path;
    }
  }

  lemma UploadOrphans(sha: Bytes -> Hash, s: Store, a: UploadArgs, faults: set<Point>)
    requires Fresh(s, UploadOp(a, faults)) && NoOrphan(s)
    ensures NoOrphan(Upload(sha, s, a, faults).store) <==> !LeavesCopy(sha, s, a, faults)
  {
    var s' := Upload(sha, s, a, faults).store;
    UploadAfter(sha, s, a, faults);
    forall path
      ensures PathTaken(s'.db, path) <==> PathTaken(s.db, path) || (MakesRow(sha, s, a, faults) && path == a.path)
    {
      PathsAfterUpload(sha, s, a, faults, path);
    }
    if LeavesCopy(sha, s, a, faults) {
      assert a.path in s'.blobs && !PathTaken(s'.db, a.path);
    }
  }

  // ---------- deletes ----------

  /** A count of one means that nobody else uses the row. */
  lemma OnlyFile(sha: Bytes -> Hash, s: Store, id: string)
    requires Sound(sha, s) && id in s.db.files
    ensures var h := s.db.files[id].hash;
            && h in s.db.rows && s.db.rows[h].count >= 1
            && (s.db.rows[h].count == 1 ==> FilesOf(s.db, h) == {id} && !Referenced(DeleteFile(s.db, id), h))
  {
    var h := s.db.files[id].hash;
    assert Surplus(s.db, h) >= 0 && id in FilesOf(s.db, h);
    FilesOfDelete(s.db, id, h);
    NoFilesIffUnreferenced(DeleteFile(s.db, id), h);
    if s.db.rows[h].count == 1 {
      assert |FilesOf(s.db, h)| == 1;
      assert |FilesOf(s.db, h) - {id}| == 0;
    }
  }

  /** What a clean-up does to the keys: the row goes if its count is zero and nobody uses it. */
  lemma CleanUpKeys(s: Store, h: Hash, faults: set<Point>)
    ensures var s' := CleanUp(s, h, faults);
            var seen := FindPath !in faults && h in s.db.rows;
            && s'.db.rows.Keys == s.db.rows.Keys
                                  - (if seen && RemoveRow !in faults && s.db.rows[h].count == 0
                                        && !Referenced(s.db, h) then {h} else {})
            && s'.blobs.Keys == s.blobs.Keys - (if seen && DropContent !in faults then {s.db.rows[h].path} else {})
            && (forall g :: g in s'.db.rows ==> s'.db.rows[g].path == s.db.rows[g].path)
  {
  }

  /** The keys after a delete, with these ones gone, and no row's path changed. */
  ghost predicate KeysAfter(s: Store, s': Store, rows: set<Hash>, blobs: set<string>) {
    && s'.db.rows.Keys == s.db.rows.Keys - rows && s'.blobs.Keys == s.blobs.Keys - blobs
    && forall g :: g in s'.db.rows ==> s'.db.rows[g].path == s.db.rows[g].path
  }

  predicate RunsUpToTheRow(faults: set<Point>) {
    FindHash !in faults && RemoveFile !in faults
  }

  /** With its release failing a delete drops the blob and keeps the row. */
  lemma UnreleasedKeys(sha: Bytes -> Hash, s: Store, id: string, now: Time, faults: set<Point>)
    requires Sound(sha, s) && RunsUpToTheRow(faults) && id in s.db.files && ReleaseCount in faults
    ensures var h := s.db.files[id].hash;
            KeysAfter(s, Delete(s, id, now, faults).store, {},
                      if FindPath !in faults && DropContent !in faults then {s.db.rows[h].path} else {})
  {
    OnlyFile(sha, s, id);
    CleanUpKeys(s.(db := DeleteFile(s.db, id)), s.db.files[id].hash, faults);
  }

  /** Otherwise the last release removes both, as far as the clean-up gets through, and any other
      release removes nothing. */
  lemma ReleasedKeys(sha: Bytes -> Hash, s: Store, id: string, now: Time, faults: set<Point>)
    requires Sound(sha, s) && RunsUpToTheRow(faults) && id in s.db.files && ReleaseCount !in faults
    ensures var h := s.db.files[id].hash;
            var cleans := s.db.rows[h].count == 1 && FindPath !in faults;
            KeysAfter(s, Delete(s, id, now, faults).store,
                      if cleans && RemoveRow !in faults then {h} else {},
                      if cleans && DropContent !in faults then {s.db.rows[h].path} else {})
  {
    var h := s.db.files[id].hash;
    OnlyFile(sha, s, id);
    var rest := DeleteFile(s.db, id);
    var released := AddToCount(rest, h, -1, now);
    assert Referenced(released, h) <==> Referenced(rest, h);
    CleanUpKeys(s.(db := released), h, faults);
  }

  /** A sound delete removes the row exactly if its release is the last one and all goes well up to
      the final statement. */
  lemma CleanUpAfter(sha: Bytes -> Hash, s: Store, id: string, now: Time, faults: set<Point>)
    requires Sound(sha, s) && RunsUpToTheRow(faults) && id in s.db.files
    ensures var h := s.db.files[id].hash;
            var last := ReleaseCount !in faults && s.db.rows[h].count == 1;
            KeysAfter(s, Delete(s, id, now, faults).store,
                      if last && FindPath !in faults && RemoveRow !in faults then {h} else {},
                      if (last || ReleaseCount in faults) && FindPath !in faults && DropContent !in faults
                      then {s.db.rows[h].path} else {})
  {
    if ReleaseCount in faults {
      UnreleasedKeys(sha, s, id, now, faults);
    } else {
      ReleasedKeys(sha, s, id, now, faults);
    }
  }

  lemma DeleteOrphans(sha: Bytes -> Hash, s: Store, id: string, now: Time, faults: set<Point>)
    requires Sound(sha, s) && NoOrphan(s)
    ensures NoOrphan(Delete(s, id, now, faults).store) <==> !LeavesBlob(s, id, faults)
  {
    var s' := Delete(s, id, now, faults).store;
    if FindHash !in faults && RemoveFile !in faults && id in s.db.files {
      var h := s.db.files[id].hash;
      OnlyFile(sha, s, id);
      CleanUpAfter(sha, s, id, now, faults);
      assert RowBacked(sha, s, h);
      if LeavesBlob(s, id, faults) {
        assert s.db.rows[h].path in s'.blobs && !PathTaken(s'.db, s.db.rows[h].path);
      } else {
        forall path | path in s'.blobs
          ensures PathTaken(s'.db, path)
        {
          var g :| g in s.db.rows && s.db.rows[g].path == path;
          assert g in s'.db.rows && s'.db.rows[g].path == path;
        }
      }
    }
  }

  /** One operation on a sound store leaves a blob without a row if and only if it is an upload that
      does not drop its copy, or a last delete that removes the row and not the blob. */
  lemma OrphansExactly(sha: Bytes -> Hash, s: Store, op: Op)
    requires Sound(sha, s) && Fresh(s, op) && NoOrphan(s)
    ensures NoOrphan(Apply(sha, s, op)) <==> !LeavesOrphan(sha, s, op)
  {
    match op {
      case UploadOp(a, faults) => UploadOrphans(sha, s, a, faults);
      case DeleteOp(id, now, faults) => DeleteOrphans(sha, s, id, now, faults);
    }
  }

  // ---------- unused rows ----------

  lemma UsedAfterUpload(sha: Bytes -> Hash, s: Store, a: UploadArgs, faults: set<Point>)
    requires Fresh(s, UploadOp(a, faults)) && NoUnused(s.db) && ForeignKey(s.db)
    ensures NoUnused(Upload(sha, s, a, faults).store.db) <==> !LeavesUnused(sha, s, UploadOp(a, faults))
  {
    var o := Upload(sha, s, a, faults);
    UploadAfter(sha, s, a, faults);
    UploadHasEffect(sha, s, a, faults);
    UploadSucceeds(sha, s, a, faults);
    forall h | h in s.db.rows
      ensures Referenced(o.store.db, h)
    {
      var id :| id in s.db.files && s.db.files[id].hash == h;
      assert o.store.db.files[id].hash == h;
    }
    if o.result.Success? {
      assert o.store.db.files[a.id].hash == sha(a.content);
    } else if LeavesUnused(sha, s, UploadOp(a, faults)) {
      assert sha(a.content) in o.store.db.rows && !Referenced(o.store.db, sha(a.content));
    }
  }

  lemma UsedAfterDelete(sha: Bytes -> Hash, s: Store, id: string, now: Time, faults: set<Point>)
    requires Sound(sha, s) && NoUnused(s.db)
    ensures NoUnused(Delete(s, id, now, faults).store.db) <==> !LeavesUnused(sha, s, DeleteOp(id, now, faults))
  {
    var s' := Delete(s, id, now, faults).store;
    if FindHash !in faults && RemoveFile !in faults && id in s.db.files {
      var h := s.db.files[id].hash;
      OnlyFile(sha, s, id);
      CleanUpAfter(sha, s, id, now, faults);
      DeleteHasEffect(s, id, now, faults);
      forall g | g in s.db.rows && (g != h || FilesOf(s.db, h) != {id})
        ensures Referenced(s'.db, g)
      {
        OtherUser(s, s', id, g);
      }
      if LeavesUnused(sha, s, DeleteOp(id, now, faults)) {
        NoOtherUser(s, s', id, h);
        assert h in s'.db.rows;
      }
    }
  }

  lemma NoOtherUser(s: Store, s': Store, id: string, h: Hash)
    requires s'.db.files == s.db.files - {id} && FilesOf(s.db, h) == {id}
    ensures !Referenced(s'.db, h)
  {
    assert forall v :: v in s'.db.files && s'.db.files[v].hash == h ==> v in FilesOf(s.db, h);
  }

  lemma OtherUser(s: Store, s': Store, id: string, g: Hash)
    requires s'.db.files == s.db.files - {id} && Referenced(s.db, g) && FilesOf(s.db, g) != {id}
    ensures Referenced(s'.db, g)
  {
    if id in FilesOf(s.db, g) {
      var v :| v in FilesOf(s.db, g) && v != id;
      assert s'.db.files[v].hash == g;
    } else {
      var v :| v in s.db.files && s.db.files[v].hash == g;
      assert v in FilesOf(s.db, g);
      assert s'.db.files[v].hash == g;
    }
  }

  /** One operation on a sound store leaves a row without a file if and only if it is an upload whose
      row is added and whose first file is refused, or the delete of a last file whose row is not
      released to zero or not cleaned up. */
  lemma UnusedExactly(sha: Bytes -> Hash, s: Store, op: Op)
    requires Sound(sha, s) && Fresh(s, op) && NoUnused(s.db)
    ensures NoUnused(Apply(sha, s, op).db) <==> !LeavesUnused(sha, s, op)
  {
    match op {
      case UploadOp(a, faults) => UsedAfterUpload(sha, s, a, faults);
      case DeleteOp(id, now, faults) => UsedAfterDelete(sha, s, id, now, faults);
    }
  }

  // ---------- answers ----------

  /** Which faults an upload reports: those of its look-ups, statements and copies that it undoes; never
      those of the undoing, nor that a duplicate's copy was not dropped. */
  lemma UploadSucceeds(sha: Bytes -> Hash, s: Store, a: UploadArgs, faults: set<Point>)
    requires Fresh(s, UploadOp(a, faults))
    ensures var r := Upload(sha, s, a, faults).result;
            && (r.Success? <==>
                  && a.accepted && PutContent !in faults
                  && if IsDuplicate(sha, s, a, faults) then RaiseCount !in faults && AddReference !in faults
                     else !CannotAddRow(sha, s, a, faults) && AddFirstFile !in faults)
            && (r.Failure? ==> r.error == if !a.accepted then Rejected
                                          else if PutContent in faults then BlobStore else Database)
  {
  }

  /** A delete reports a failed look-up and a failed DELETE, and nothing that comes after. */
  lemma DeleteSucceeds(s: Store, id: string, now: Time, faults: set<Point>)
    ensures var r := Delete(s, id, now, faults).result;
            && (r.Success? <==> id in s.db.files && FindHash !in faults && RemoveFile !in faults)
            && (r.Failure? ==> r.error == if FindHash in faults || id !in s.db.files then NotFound else Database)
            && (r.Success? <==> id in s.db.files && id !in Delete(s, id, now, faults).store.db.files)
  {
    DeleteHasEffect(s, id, now, faults);
  }
}
