/** Where what a client sees comes from: over every run from the empty store, whatever fails, each
    field of a record is an argument of the upload that drew its id, or of the upload that made its
    row; and lists follow the clock of the uploads. */
module Origins {
  import opened Model
  import opened Schema
  import opened Listing
  import opened Protocol
  import opened Metadata

  // ---------- the upload that drew the id ----------

  /** The upload at `i` added the file, which has been there ever since. */
  ghost predicate DrawnBy(sha: Bytes -> Hash, ops: seq<Op>, i: nat, id: string) {
    && i < |ops| && ops[i].UploadOp? && ops[i].args.id == id
    && id !in Run(sha, EMPTY, ops[..i]).db.files
    && forall n :: i < n <= |ops| ==> id in Run(sha, EMPTY, ops[..n]).db.files
  }

  lemma FileAppears(sha: Bytes -> Hash, s: Store, op: Op, id: string)
    requires id !in s.db.files && id in Apply(sha, s, op).db.files
    ensures op.UploadOp? && id == op.args.id
    ensures var file := Apply(sha, s, op).db.files[id];
            file.name == op.args.name && file.hash == sha(op.args.content) && file.createdAt == op.args.now
  {
    if op.DeleteOp? {
      DeleteAddsNoFile(s, op.id, op.now, op.faults);
    }
  }

  lemma DeleteAddsNoFile(s: Store, id: string, now: Time, faults: set<Point>)
    ensures Delete(s, id, now, faults).store.db.files.Keys <= s.db.files.Keys
  {
  }

  /** A file has the name, the digest and the time of one upload, which drew its id. */
  lemma {:induction false} FileComesFromItsUpload(sha: Bytes -> Hash, ops: seq<Op>, id: string) returns (i: nat)
    requires id in Run(sha, EMPTY, ops).db.files
    ensures DrawnBy(sha, ops, i, id)
    ensures var file, a := Run(sha, EMPTY, ops).db.files[id], ops[i].args;
            file.name == a.name && file.hash == sha(a.content) && file.createdAt == a.now
    decreases |ops|
  {
    if ops == [] {
      assert false;
    } else {
      var before, op := ops[..|ops| - 1], ops[|ops| - 1];
      assert ops == before + [op] && ops[..|ops|] == ops;
      RunAppend(sha, EMPTY, before, op);
      var s := Run(sha, EMPTY, before);
      if id in s.db.files {
        i := FileComesFromItsUpload(sha, before, id);
        assert forall n :: 0 <= n < |ops| ==> ops[..n] == before[..n];
        OpKeepsTables(sha, s, op);
      } else {
        i := |ops| - 1;
        FileAppears(sha, s, op, id);
      }
    }
  }

  // ---------- records ----------

  /** The record of a file that `a` uploaded, and whose row `b` made: every field, the legacy ones
      included. */
  predicate Tells(sha: Bytes -> Hash, f: File, a: UploadArgs, b: UploadArgs) {
    && f.id == a.id && f.name == a.name && f.storageHash == sha(a.content) && f.createdAt == a.now
    && f.size == |b.content| && f.contentType == b.contentType && f.storagePath == b.path
    && f.checksum == sha(a.content) && f.storage.Some?
    && var s := f.storage.value;
       && s.hash == sha(a.content) && s.size == |b.content| && s.contentType == b.contentType
       && s.storagePath == b.path && s.createdAt == b.now
  }

  /** The JSON object of such a record: what is cached, and what a client of a list or of an upload
      sees. It names no path. */
  predicate JsonTells(sha: Bytes -> Hash, j: FileJson, a: UploadArgs, b: UploadArgs) {
    && j.id == a.id && j.name == a.name && j.storage_hash == sha(a.content) && j.created_at == a.now
    && (j.size.Some? <==> b.content != []) && (j.size.Some? ==> j.size.value == |b.content|)
    && (j.content_type.Some? <==> b.contentType != "")
    && (j.content_type.Some? ==> j.content_type.value == b.contentType)
    && j.checksum.Some? && j.checksum.value == sha(a.content) && j.storage.Some?
    && var s := j.storage.value;
       && s.hash == sha(a.content) && s.size == |b.content| && s.content_type == b.contentType
       && s.created_at == b.now
  }

  lemma JoinTells(sha: Bytes -> Hash, db: Db, id: string, a: UploadArgs, b: UploadArgs)
    requires Joins(db, id) && a.id == id && ShowsUpload(db.rows[db.files[id].hash], b)
    requires var file := db.files[id]; file.name == a.name && file.hash == sha(a.content) && file.createdAt == a.now
    ensures Tells(sha, Join(db, id), a, b) && JsonTells(sha, Encode(Join(db, id)), a, b)
  {
  }

  /** What GetByID joins. */
  lemma RecordTellsItsUploads(sha: Bytes -> Hash, ops: seq<Op>, id: string) returns (i: nat, k: nat)
    requires id in Run(sha, EMPTY, ops).db.files
    ensures Joins(Run(sha, EMPTY, ops).db, id)
    ensures DrawnBy(sha, ops, i, id) && MadeBy(sha, ops, k, Run(sha, EMPTY, ops).db.files[id].hash)
    ensures var f := Join(Run(sha, EMPTY, ops).db, id);
            Tells(sha, f, ops[i].args, ops[k].args) && JsonTells(sha, Encode(f), ops[i].args, ops[k].args)
  {
    SchemaKeptRun(sha, EMPTY, ops);
    i := FileComesFromItsUpload(sha, ops, id);
    k := RowComesFromItsUpload(sha, ops, Run(sha, EMPTY, ops).db.files[id].hash);
    JoinTells(sha, Run(sha, EMPTY, ops).db, id, ops[i].args, ops[k].args);
  }

  /** What List answers, at every place. */
  lemma ListTellsItsUploads(sha: Bytes -> Hash, ops: seq<Op>, order: seq<string>, n: nat) returns (i: nat, k: nat)
    requires IsOrder(Run(sha, EMPTY, ops).db, order) && n < |order|
    ensures DrawnBy(sha, ops, i, order[n]) && MadeBy(sha, ops, k, Run(sha, EMPTY, ops).db.files[order[n]].hash)
    ensures Tells(sha, JoinAll(Run(sha, EMPTY, ops).db, order)[n], ops[i].args, ops[k].args)
  {
    i, k := RecordTellsItsUploads(sha, ops, order[n]);
  }

  lemma SuccessShows(sha: Bytes -> Hash, s: Store, a: UploadArgs, faults: set<Point>)
    requires Upload(sha, s, a, faults).result.Success?
    ensures var o := Upload(sha, s, a, faults);
            && a.id !in s.db.files && a.id in o.store.db.files && sha(a.content) in o.store.db.rows
            && o.store.db.files[a.id].hash == sha(a.content)
            && forall b :: ShowsUpload(o.store.db.rows[sha(a.content)], b) ==>
                 Tells(sha, o.result.value, a, b) && JsonTells(sha, Encode(o.result.value), a, b)
  {
  }

  /** What Upload answers: its own id, name, digest and time, and size, content type and path of the
      upload that made the row, which is this one exactly if there was none. */
  lemma AnswerTellsItsUploads(sha: Bytes -> Hash, ops: seq<Op>, a: UploadArgs, faults: set<Point>) returns (k: nat)
    requires Upload(sha, Run(sha, EMPTY, ops), a, faults).result.Success?
    ensures var all := ops + [UploadOp(a, faults)];
            var f := Upload(sha, Run(sha, EMPTY, ops), a, faults).result.value;
            && MadeBy(sha, all, k, sha(a.content))
            && (k == |ops| <==> sha(a.content) !in Run(sha, EMPTY, ops).db.rows)
            && Tells(sha, f, a, all[k].args) && JsonTells(sha, Encode(f), a, all[k].args)
  {
    var all := ops + [UploadOp(a, faults)];
    var s := Run(sha, EMPTY, ops);
    RunAppend(sha, EMPTY, ops, UploadOp(a, faults));
    SuccessShows(sha, s, a, faults);
    k := RowComesFromItsUpload(sha, all, sha(a.content));
    assert all[..|ops|] == ops;
    if k < |ops| {
      assert sha(a.content) in Run(sha, EMPTY, all[..|ops|]).db.rows;
    }
  }

  // ---------- the time of the last change ----------

  function TimeOf(op: Op): Time {
    match op
    case UploadOp(a, faults) => a.now
    case DeleteOp(id, now, faults) => now
  }

  /** The operation at `i` was the last that changed, or made, the row. */
  ghost predicate LastChangedBy(sha: Bytes -> Hash, ops: seq<Op>, i: nat, h: Hash) {
    && i < |ops| && h in Run(sha, EMPTY, ops).db.rows
    && !SameRowIn(Run(sha, EMPTY, ops[..i]).db, Run(sha, EMPTY, ops).db, h)
    && forall n :: i < n <= |ops| ==> SameRowIn(Run(sha, EMPTY, ops[..n]).db, Run(sha, EMPTY, ops).db, h)
  }

  predicate SameRowIn(db: Db, db': Db, h: Hash) {
    h in db.rows && h in db'.rows && db.rows[h] == db'.rows[h]
  }

  lemma ChangeIsStamped(sha: Bytes -> Hash, s: Store, op: Op, h: Hash)
    requires h in Apply(sha, s, op).db.rows && !SameRowIn(s.db, Apply(sha, s, op).db, h)
    ensures Apply(sha, s, op).db.rows[h].updatedAt == TimeOf(op)
  {
    match op {
      case UploadOp(a, faults) =>
        if a.accepted && PutContent !in faults {
          if FindRow !in faults && sha(a.content) in s.db.rows {
            RaiseIsStamped(sha, Put(s, a.path, a.content), a, faults, h);
          } else {
            NewRowIsStamped(sha, Put(s, a.path, a.content), a, faults, h);
          }
        }
      case DeleteOp(id, now, faults) => ReleaseIsStamped(s, id, now, faults, h);
    }
  }

  lemma RaiseIsStamped(sha: Bytes -> Hash, s: Store, a: UploadArgs, faults: set<Point>, h: Hash)
    requires sha(a.content) in s.db.rows
    requires var db' := UploadDuplicate(sha, s, a, faults).store.db; h in db'.rows && !SameRowIn(s.db, db', h)
    ensures UploadDuplicate(sha, s, a, faults).store.db.rows[h].updatedAt == a.now
  {
  }

  lemma NewRowIsStamped(sha: Bytes -> Hash, s: Store, a: UploadArgs, faults: set<Point>, h: Hash)
    requires var db' := UploadNew(sha, s, a, faults).store.db; h in db'.rows && !SameRowIn(s.db, db', h)
    ensures UploadNew(sha, s, a, faults).store.db.rows[h].updatedAt == a.now
  {
  }

  lemma ReleaseIsStamped(s: Store, id: string, now: Time, faults: set<Point>, h: Hash)
    requires h in Delete(s, id, now, faults).store.db.rows && !SameRowIn(s.db, Delete(s, id, now, faults).store.db, h)
    ensures Delete(s, id, now, faults).store.db.rows[h].updatedAt == now
  {
  }

  /** The time of the last change of a row is that of the last operation that changed it. */
  lemma {:induction false} RowShowsItsLastChange(sha: Bytes -> Hash, ops: seq<Op>, h: Hash) returns (i: nat)
    requires h in Run(sha, EMPTY, ops).db.rows
    ensures LastChangedBy(sha, ops, i, h) && Run(sha, EMPTY, ops).db.rows[h].updatedAt == TimeOf(ops[i])
    decreases |ops|
  {
    if ops == [] {
      assert false;
    } else {
      var before, op := ops[..|ops| - 1], ops[|ops| - 1];
      assert ops == before + [op] && ops[..|ops|] == ops;
      RunAppend(sha, EMPTY, before, op);
      var s := Run(sha, EMPTY, before);
      if SameRowIn(s.db, Run(sha, EMPTY, ops).db, h) {
        i := RowShowsItsLastChange(sha, before, h);
        assert forall n :: 0 <= n < |ops| ==> ops[..n] == before[..n];
      } else {
        i := |ops| - 1;
        ChangeIsStamped(sha, s, op, h);
      }
    }
  }

  // ---------- the order of lists ----------

  /** Of two listed files the one that was uploaded later, by the clock of the uploads, comes first. */
  lemma LaterUploadListedFirst(sha: Bytes -> Hash, ops: seq<Op>, order: seq<string>, m: nat, n: nat, i: nat, j: nat)
    requires IsOrder(Run(sha, EMPTY, ops).db, order) && m < |order| && n < |order|
    requires DrawnBy(sha, ops, i, order[m]) && DrawnBy(sha, ops, j, order[n])
    requires ops[i].args.now > ops[j].args.now
    ensures m < n
  {
    var i' := FileComesFromItsUpload(sha, ops, order[m]);
    DrawnOnce(sha, ops, i, i', order[m]);
    var j' := FileComesFromItsUpload(sha, ops, order[n]);
    DrawnOnce(sha, ops, j, j', order[n]);
  }

  /** The upload that drew the id of a file that is there is unique. */
  lemma DrawnOnce(sha: Bytes -> Hash, ops: seq<Op>, i: nat, j: nat, id: string)
    requires DrawnBy(sha, ops, i, id) && DrawnBy(sha, ops, j, id)
    ensures i == j
  {
  }

  /** While the clock advances from upload to upload, lists show the latest upload first. */
  lemma ListFollowsUploads(sha: Bytes -> Hash, ops: seq<Op>, order: seq<string>, m: nat, n: nat, i: nat, j: nat)
    requires IsOrder(Run(sha, EMPTY, ops).db, order) && m < |order| && n < |order|
    requires DrawnBy(sha, ops, i, order[m]) && DrawnBy(sha, ops, j, order[n])
    requires forall x, y :: 0 <= x < y < |ops| && ops[x].UploadOp? && ops[y].UploadOp? ==>
               ops[x].args.now < ops[y].args.now
    ensures i > j <==> m < n
  {
    if i > j {
      LaterUploadListedFirst(sha, ops, order, m, n, i, j);
    } else if i < j {
      LaterUploadListedFirst(sha, ops, order, n, m, j, i);
    }
  }
}
