/** Runs that lose a file: why each of the three points of PlainMap.AvoidsStranding is excluded. */
module Losses {
  import opened Model
  import opened Schema
  import opened Protocol

  /** Two accepted uploads of the same bytes under different ids and paths. */
  predicate Twins(a: UploadArgs, b: UploadArgs) {
    && a.accepted && b.accepted && a.content == b.content
    && a.id != b.id && a.path != b.path
  }

  /** A file that the database lists and whose bytes are nowhere. */
  ghost predicate Lost(s: Store, id: string) {
    && id in s.db.files && s.db.files[id].hash in s.db.rows
    && s.db.rows[s.db.files[id].hash].path !in s.blobs
  }

  /** The first-file insert fails, the rollback drops the blob and keeps the row with count one,
      and a later upload of the same bytes succeeds by attaching to that row. */
  lemma LossAfterFirstFileFault(sha: Bytes -> Hash, a: UploadArgs, b: UploadArgs)
    requires Twins(a, b)
    ensures var ops := [UploadOp(a, {AddFirstFile}), UploadOp(b, {})];
            && FreshRun(sha, EMPTY, ops)
            && Lost(Run(sha, EMPTY, ops), b.id)
            && CountOf(Run(sha, EMPTY, ops).db, sha(a.content)) == 2
  {
    var ops := [UploadOp(a, {AddFirstFile}), UploadOp(b, {})];
    var s1 := Apply(sha, EMPTY, ops[0]);
    assert s1 == Store(Db(map[sha(a.content) := NewRow(a)], map[]), map[]);
    assert FreshRun(sha, s1, ops[1..]) && Run(sha, s1, ops[1..]) == Apply(sha, s1, ops[1]);
  }

  lemma TwoTwins(sha: Bytes -> Hash, a: UploadArgs, b: UploadArgs, rest: seq<Op>)
    requires Twins(a, b)
    ensures var s2 := Store(Db(map[sha(a.content) := NewRow(a).(count := 2, updatedAt := b.now)],
                               map[a.id := NewFile(sha, a), b.id := NewFile(sha, b)]),
                            map[a.path := a.content]);
            var ops := [UploadOp(a, {}), UploadOp(b, {})] + rest;
            && Run(sha, EMPTY, ops) == Run(sha, s2, rest)
            && (FreshRun(sha, EMPTY, ops) <==> FreshRun(sha, s2, rest))
  {
    var ops := [UploadOp(a, {}), UploadOp(b, {})] + rest;
    var s1 := Apply(sha, EMPTY, ops[0]);
    assert s1 == Store(Db(map[sha(a.content) := NewRow(a)], map[a.id := NewFile(sha, a)]), map[a.path := a.content]);
    var s2 := Apply(sha, s1, ops[1]);
    assert s2.blobs == map[a.path := a.content];
    assert s2.db.rows == map[sha(a.content) := NewRow(a).(count := 2, updatedAt := b.now)];
    assert s2.db.files == map[a.id := NewFile(sha, a), b.id := NewFile(sha, b)];
    assert ops[1..] == [UploadOp(b, {})] + rest && ops[1..][1..] == rest;
  }

  /** A failed decrement reads as zero: deleting one of two twins drops the bytes of the other. */
  lemma LossAfterReleaseFault(sha: Bytes -> Hash, a: UploadArgs, b: UploadArgs, now: Time)
    requires Twins(a, b)
    ensures var ops := [UploadOp(a, {}), UploadOp(b, {}), DeleteOp(a.id, now, {ReleaseCount})];
            FreshRun(sha, EMPTY, ops) && Lost(Run(sha, EMPTY, ops), b.id)
  {
    var rest := [DeleteOp(a.id, now, {ReleaseCount})];
    TwoTwins(sha, a, b, rest);
    var s2 := Store(Db(map[sha(a.content) := NewRow(a).(count := 2, updatedAt := b.now)],
                       map[a.id := NewFile(sha, a), b.id := NewFile(sha, b)]),
                    map[a.path := a.content]);
    assert [UploadOp(a, {}), UploadOp(b, {}), DeleteOp(a.id, now, {ReleaseCount})]
        == [UploadOp(a, {}), UploadOp(b, {})] + rest;
    var s3 := Apply(sha, s2, rest[0]);
    assert Run(sha, s2, rest) == s3;
    assert b.id in s3.db.files && sha(a.content) in s3.db.rows;
  }

  /** The final DELETE fails after the blob is gone: the row stays with count zero and the next
      upload of the same bytes attaches to it. */
  lemma LossAfterRemoveRowFault(sha: Bytes -> Hash, a: UploadArgs, b: UploadArgs, now: Time)
    requires Twins(a, b)
    ensures var ops := [UploadOp(a, {}), DeleteOp(a.id, now, {RemoveRow}), UploadOp(b, {})];
            && FreshRun(sha, EMPTY, ops)
            && Lost(Run(sha, EMPTY, ops), b.id)
            && CountOf(Run(sha, EMPTY, ops).db, sha(a.content)) == 1
  {
    var ops := [UploadOp(a, {}), DeleteOp(a.id, now, {RemoveRow}), UploadOp(b, {})];
    var s1 := Apply(sha, EMPTY, ops[0]);
    assert s1 == Store(Db(map[sha(a.content) := NewRow(a)], map[a.id := NewFile(sha, a)]), map[a.path := a.content]);
    var s2 := Apply(sha, s1, ops[1]);
    assert s2.blobs == map[] && s2.db.files == map[];
    assert s2.db.rows == map[sha(a.content) := NewRow(a).(count := 0, updatedAt := now)];
    var s3 := Apply(sha, s2, ops[2]);
    assert ops[1..][1..] == [ops[2]];
    assert Run(sha, s2, [ops[2]]) == s3 && FreshRun(sha, s2, [ops[2]]);
  }
}
