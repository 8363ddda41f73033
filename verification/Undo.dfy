/** What a failed upload leaves behind. */
module Undo {
  import opened Model
  import opened Schema
  import opened Protocol

  /** Same data: the two stores differ at most in `updated_at`, which a raise and a lower refresh. */
  ghost predicate SameRow(r: Row, r': Row) {
    r'.(updatedAt := r.updatedAt) == r
  }

  ghost predicate SameData(s: Store, s': Store) {
    && s'.db.files == s.db.files && s'.blobs == s.blobs
    && s'.db.rows.Keys == s.db.rows.Keys
    && forall h :: h in s.db.rows ==> SameRow(s.db.rows[h], s'.db.rows[h])
  }

  /** The faults under which a failing upload does leave something: a torn Put, an undone Drop of
      the copy, a raised count that was not lowered, or a row whose first file was refused. */
  predicate Leaves(sha: Bytes -> Hash, s: Store, a: UploadArgs, faults: set<Point>) {
    && a.accepted
    && if PutContent in faults then a.torn.Some?
       else if FindRow !in faults && sha(a.content) in s.db.rows then
         DropCopy in faults || (RaiseCount !in faults && LowerCount in faults)
       else if AddRow in faults || sha(a.content) in s.db.rows then
         DropUnstored in faults
       else
         true
  }

  lemma PutThenDrop(s: Store, path: string, content: Bytes)
    requires path !in s.blobs
    ensures Drop(Put(s, path, content), path) == s
    ensures Put(s, path, content) != s
  {
  }

  /** A failed upload with fresh names is undone if and only if its faults leave nothing. */
  lemma FailedUploadUndone(sha: Bytes -> Hash, s: Store, a: UploadArgs, faults: set<Point>)
    requires Fresh(s, UploadOp(a, faults))
    requires Upload(sha, s, a, faults).result.Failure?
    ensures SameData(s, Upload(sha, s, a, faults).store) <==> !Leaves(sha, s, a, faults)
  {
    if a.accepted {
      PutThenDrop(s, a.path, a.content);
      if PutContent in faults {
        if a.torn.Some? && a.torn.value <= |a.content| {
          PutThenDrop(s, a.path, a.content[..a.torn.value]);
        }
      } else if FindRow !in faults && sha(a.content) in s.db.rows {
        FailedDuplicateUndone(sha, s, a, faults);
      } else {
        FailedNewUndone(sha, s, a, faults);
      }
    }
  }

  lemma FailedDuplicateUndone(sha: Bytes -> Hash, s: Store, a: UploadArgs, faults: set<Point>)
    requires Fresh(s, UploadOp(a, faults)) && sha(a.content) in s.db.rows
    requires UploadDuplicate(sha, Put(s, a.path, a.content), a, faults).result.Failure?
    ensures SameData(s, UploadDuplicate(sha, Put(s, a.path, a.content), a, faults).store)
       <==> !(DropCopy in faults || (RaiseCount !in faults && LowerCount in faults))
  {
    PutThenDrop(s, a.path, a.content);
    var s' := UploadDuplicate(sha, Put(s, a.path, a.content), a, faults).store;
    var h := sha(a.content);
    assert s'.db.files == s.db.files && s'.db.rows.Keys == s.db.rows.Keys;
    assert s'.blobs == s.blobs <==> DropCopy !in faults;
    if RaiseCount !in faults && LowerCount in faults {
      assert s'.db.rows[h].count == s.db.rows[h].count + 1;
      assert !SameRow(s.db.rows[h], s'.db.rows[h]);
    } else {
      assert s'.db.rows[h].count == s.db.rows[h].count;
      assert SameRow(s.db.rows[h], s'.db.rows[h]);
    }
  }

  lemma FailedNewUndone(sha: Bytes -> Hash, s: Store, a: UploadArgs, faults: set<Point>)
    requires Fresh(s, UploadOp(a, faults))
    requires UploadNew(sha, Put(s, a.path, a.content), a, faults).result.Failure?
    ensures SameData(s, UploadNew(sha, Put(s, a.path, a.content), a, faults).store)
       <==> (AddRow in faults || sha(a.content) in s.db.rows) && DropUnstored !in faults
  {
  }

  /** The one branch that is never undone: the insert of a first file fails and everything after
      it works. A row with count one and no blob remains, and the next upload of the same bytes
      reports success on it. */
  lemma FirstFileLeftover(sha: Bytes -> Hash, s: Store, a: UploadArgs, b: UploadArgs)
    requires Fresh(s, UploadOp(a, {AddFirstFile})) && a.accepted && sha(a.content) !in s.db.rows
    requires b.accepted && b.content == a.content
    ensures var s' := Upload(sha, s, a, {AddFirstFile}).store;
            && s' == s.(db := s.db.(rows := s.db.rows[sha(a.content) := NewRow(a)]))
            && a.path !in s'.blobs
            && (Fresh(s', UploadOp(b, {})) ==>
                  var o := Upload(sha, s', b, {});
                  && o.result.Success? && o.result.value.storage.Some?
                  && o.result.value.storage.value.storagePath == a.path
                  && o.store.blobs == s.blobs)
  {
    PutThenDrop(s, a.path, a.content);
    var s' := Upload(sha, s, a, {AddFirstFile}).store;
    assert s'.blobs == s.blobs;
    if Fresh(s', UploadOp(b, {})) {
      PutThenDrop(s', b.path, b.content);
    }
  }
}
