/** What a file reports about itself: fixed by the upload that created its row, and unchanged as
    long as the file lives. */
module Metadata {
  import opened Model
  import opened Schema
  import opened Protocol
  import opened PlainMap
  import opened Cache

  lemma DuplicateKeepsRows(sha: Bytes -> Hash, s: Store, a: UploadArgs, faults: set<Point>)
    requires sha(a.content) in s.db.rows
    ensures RowsLast(s.db, UploadDuplicate(sha, s, a, faults).store.db)
    ensures FilesLast(s.db, UploadDuplicate(sha, s, a, faults).store.db)
  {
  }

  lemma NewKeepsRows(sha: Bytes -> Hash, s: Store, a: UploadArgs, faults: set<Point>)
    ensures RowsLast(s.db, UploadNew(sha, s, a, faults).store.db)
    ensures FilesLast(s.db, UploadNew(sha, s, a, faults).store.db)
  {
  }

  lemma DeleteKeepsRows(s: Store, id: string, now: Time, faults: set<Point>)
    ensures RowsLast(s.db, Delete(s, id, now, faults).store.db)
    ensures FilesLast(s.db, Delete(s, id, now, faults).store.db)
  {
    if FindHash !in faults && id in s.db.files && RemoveFile !in faults {
      var h := s.db.files[id].hash;
      var removed := DeleteFile(s.db, id);
      var released := if ReleaseCount in faults then removed else AddToCount(removed, h, -1, now);
      CleanUpOnlyRemoves(s.(db := released), h, faults);
    }
  }

  lemma OpKeepsTables(sha: Bytes -> Hash, s: Store, op: Op)
    ensures RowsLast(s.db, Apply(sha, s, op).db) && FilesLast(s.db, Apply(sha, s, op).db)
  {
    match op {
      case UploadOp(a, faults) =>
        if a.accepted && PutContent !in faults {
          if FindRow !in faults && sha(a.content) in s.db.rows {
            DuplicateKeepsRows(sha, Put(s, a.path, a.content), a, faults);
          } else {
            NewKeepsRows(sha, Put(s, a.path, a.content), a, faults);
          }
        }
      case DeleteOp(id, now, faults) => DeleteKeepsRows(s, id, now, faults);
    }
  }

  lemma OpKeepsRows(sha: Bytes -> Hash, s: Store, op: Op)
    requires SchemaHolds(s.db)
    ensures FilesKeepRows(s.db, Apply(sha, s, op).db)
  {
    SchemaKept(sha, s, op);
    OpKeepsTables(sha, s, op);
    LastingTables(s.db, Apply(sha, s, op).db);
  }

  ghost predicate LivesThrough(sha: Bytes -> Hash, s: Store, ops: seq<Op>, id: string)
    decreases |ops|
  {
    id in s.db.files && (ops == [] || LivesThrough(sha, Apply(sha, s, ops[0]), ops[1..], id))
  }

  /** A file that lives through a run, whatever else is uploaded, deleted or fails, keeps its name,
      hash and dates, and its size, content type and path. */
  lemma {:induction false} LiveFileUnchanged(sha: Bytes -> Hash, s: Store, ops: seq<Op>, id: string)
    requires SchemaHolds(s.db) && LivesThrough(sha, s, ops, id)
    ensures var s' := Run(sha, s, ops);
            && id in s'.db.files && s'.db.files[id] == s.db.files[id]
            && Joins(s.db, id) && Joins(s'.db, id)
            && SameColumns(s.db.rows[s.db.files[id].hash], s'.db.rows[s.db.files[id].hash])
    decreases |ops|
  {
    if ops == [] {
    } else {
      SchemaKept(sha, s, ops[0]);
      OpKeepsRows(sha, s, ops[0]);
      assert id in Apply(sha, s, ops[0]).db.files;
      LiveFileUnchanged(sha, Apply(sha, s, ops[0]), ops[1..], id);
    }
  }

  // ---------- the upload that made the row ----------

  /** The upload at `i` made the row of `h`, which has been there ever since. */
  ghost predicate MadeBy(sha: Bytes -> Hash, ops: seq<Op>, i: nat, h: Hash) {
    && i < |ops| && ops[i].UploadOp? && sha(ops[i].args.content) == h
    && h !in Run(sha, EMPTY, ops[..i]).db.rows
    && forall n :: i < n <= |ops| ==> h in Run(sha, EMPTY, ops[..n]).db.rows
  }

  lemma {:induction false} RunAppend(sha: Bytes -> Hash, s: Store, ops: seq<Op>, op: Op)
    ensures Run(sha, s, ops + [op]) == Apply(sha, Run(sha, s, ops), op)
    decreases |ops|
  {
    if ops == [] {
      assert [op][1..] == [];
    } else {
      RunAppend(sha, Apply(sha, s, ops[0]), ops[1..], op);
      assert (ops + [op])[1..] == ops[1..] + [op];
    }
  }

  /** The row has the size, content type, path and creation time of that upload. */
  predicate ShowsUpload(row: Row, a: UploadArgs) {
    row.size == |a.content| && row.contentType == a.contentType && row.path == a.path && row.createdAt == a.now
  }

  lemma RowAppears(sha: Bytes -> Hash, s: Store, op: Op, h: Hash)
    requires h !in s.db.rows && h in Apply(sha, s, op).db.rows
    ensures op.UploadOp? && h == sha(op.args.content) && ShowsUpload(Apply(sha, s, op).db.rows[h], op.args)
  {
    if op.DeleteOp? {
      DeleteAddsNoRow(s, op.id, op.now, op.faults);
    }
  }

  lemma DeleteAddsNoRow(s: Store, id: string, now: Time, faults: set<Point>)
    ensures Delete(s, id, now, faults).store.db.rows.Keys <= s.db.rows.Keys
  {
  }

  /** Over every run from the empty store, whatever fails: a row has the size, content type, path and
      creation time of one upload, the last one that found it missing. */
  lemma {:induction false} RowComesFromItsUpload(sha: Bytes -> Hash, ops: seq<Op>, h: Hash) returns (i: nat)
    requires h in Run(sha, EMPTY, ops).db.rows
    ensures MadeBy(sha, ops, i, h)
    ensures ShowsUpload(Run(sha, EMPTY, ops).db.rows[h], ops[i].args)
    decreases |ops|
  {
    if ops == [] {
      assert false;
    } else {
      var before, op := ops[..|ops| - 1], ops[|ops| - 1];
      assert ops == before + [op] && ops[..|ops|] == ops;
      RunAppend(sha, EMPTY, before, op);
      var s := Run(sha, EMPTY, before);
      if h in s.db.rows {
        i := RowComesFromItsUpload(sha, before, h);
        assert forall n :: 0 <= n < |ops| ==> ops[..n] == before[..n];
        OpKeepsTables(sha, s, op);
      } else {
        i := |ops| - 1;
        RowAppears(sha, s, op, h);
      }
    }
  }

  /** What a file reports is fixed by that upload, which need not be its own. */
  lemma FileReportsThatUpload(sha: Bytes -> Hash, ops: seq<Op>, id: string) returns (i: nat)
    requires id in Run(sha, EMPTY, ops).db.files
    ensures Joins(Run(sha, EMPTY, ops).db, id)
    ensures MadeBy(sha, ops, i, Run(sha, EMPTY, ops).db.files[id].hash)
    ensures var f := Join(Run(sha, EMPTY, ops).db, id);
            && f.GetContentType() == ops[i].args.contentType && f.GetSize() == |ops[i].args.content|
            && f.GetStoragePath() == ops[i].args.path
  {
    SchemaKeptRun(sha, EMPTY, ops);
    i := RowComesFromItsUpload(sha, ops, Run(sha, EMPTY, ops).db.files[id].hash);
  }

  /** Files of one hash report one size and one content type: those of the upload that created the
      row; later uploads keep only their own name. */
  lemma LaterCopiesKeepOnlyTheirName(sha: Bytes -> Hash, s: Store, a: UploadArgs)
    requires Fresh(s, UploadOp(a, {})) && a.accepted && SchemaHolds(s.db)
    ensures var h := sha(a.content);
            var db' := Upload(sha, s, a, {}).store.db;
            && Joins(db', a.id) && Join(db', a.id).name == a.name
            && (h !in s.db.rows ==>
                  Join(db', a.id).GetContentType() == a.contentType && Join(db', a.id).GetSize() == |a.content|)
            && (forall id :: id in s.db.files && s.db.files[id].hash == h ==>
                  Joins(s.db, id)
                  && Join(db', a.id).GetContentType() == Join(s.db, id).GetContentType()
                  && Join(db', a.id).GetSize() == Join(s.db, id).GetSize())
  {
  }

  /** The record that an upload answers is the one that a query would give, storage path included,
      except that for a duplicate it still shows the count from before. */
  lemma UploadAnswersItsRow(sha: Bytes -> Hash, s: Store, a: UploadArgs, faults: set<Point>)
    ensures var o := Upload(sha, s, a, faults);
            o.result.Success? ==>
              && Joins(o.store.db, a.id)
              && var f, g := o.result.value, Join(o.store.db, a.id);
                 && Lasting(Encode(f)) == Lasting(Encode(g)) && f.GetStoragePath() == g.GetStoragePath()
                 && (sha(a.content) !in s.db.rows ==> f == g)
                 && (sha(a.content) in s.db.rows ==>
                       g.storage.value.referenceCount == f.storage.value.referenceCount + 1)
  {
  }

  /** After the last copy is deleted the next upload decides again. */
  lemma ContentTypeMayChange(sha: Bytes -> Hash, a: UploadArgs, b: UploadArgs, now: Time)
    requires a.accepted && b.accepted && a.content == b.content && a.contentType != b.contentType
    ensures var s1 := Upload(sha, EMPTY, a, {}).store;
            var s2 := Delete(s1, a.id, now, {}).store;
            var s3 := Upload(sha, s2, b, {}).store;
            && Joins(s1.db, a.id) && Join(s1.db, a.id).GetContentType() == a.contentType
            && s2 == EMPTY
            && Joins(s3.db, b.id) && Join(s3.db, b.id).GetContentType() == b.contentType
            && s1.db.files[a.id].hash == s3.db.files[b.id].hash
  {
  }
}
