/** Two interleavings that lose a file for good, without any fault, and in which all calls return: of
    a batch that is not safe, and of one that deletes a file twice. */
module Races {
  import opened Wrappers
  import opened Model
  import opened Schema
  import opened Protocol
  import opened Machine
  import opened Losses

  function Pair(s: Store, p: Proc, q: Proc): System {
    System(s, map[0 := p, 1 := q])
  }

  /** The first process of a pair moves. */
  lemma First(sha: Bytes -> Hash, from: System, s: Store, p: Proc, q: Proc, s': Store, p': Proc)
    requires Reaches(sha, from, Pair(s, p, q)) && WellFormed(sha, p) && Step(sha, s, p) == (s', p')
    ensures Reaches(sha, from, Pair(s', p', q))
  {
    ReachesTurn(sha, from, Pair(s, p, q), 0);
    assert Turn(sha, Pair(s, p, q), 0) == Pair(s', p', q);
  }

  /** The second process of a pair moves. */
  lemma Second(sha: Bytes -> Hash, from: System, s: Store, p: Proc, q: Proc, s': Store, q': Proc)
    requires Reaches(sha, from, Pair(s, p, q)) && WellFormed(sha, q) && Step(sha, s, q) == (s', q')
    ensures Reaches(sha, from, Pair(s', p, q'))
  {
    ReachesTurn(sha, from, Pair(s, p, q), 1);
    assert Turn(sha, Pair(s, p, q), 1) == Pair(s', p, q');
  }

  lemma PairStarts(sha: Bytes -> Hash, s: Store, p: Proc, q: Proc)
    requires p == Begin(p.job, p.faults) && q == Begin(q.job, q.faults)
    ensures Reaches(sha, Pair(s, p, q), Pair(s, p, q))
  {
    StartIsWellFormed(sha, Pair(s, p, q));
    assert Interleave(sha, Pair(s, p, q), []) == Pair(s, p, q);
  }

  // ---------- the processes of the two races, step by step ----------

  /** The bytes of `a`, stored under `path` and counted `count` times. */
  function RowOf(a: UploadArgs, path: string, count: int): Row {
    Row(|a.content|, a.contentType, path, count, a.now, a.now)
  }

  function Shared(sha: Bytes -> Hash, a: UploadArgs, path: string, count: int, files: map<string, FileRow>): Store {
    Store(Db(map[sha(a.content) := RowOf(a, path, count)], files), map[path := a.content])
  }

  function Deleting(sha: Bytes -> Hash, a: UploadArgs, x: string, at: Point, seen: Option<int>, debt: Debt): Proc {
    Begin(DeleteJob(x, a.now), {}).(at := at, hash := Some(sha(a.content)), seen := seen, debt := debt)
  }

  lemma FindsFile(sha: Bytes -> Hash, s: Store, a: UploadArgs, x: string)
    requires x in s.db.files && s.db.files[x].hash == sha(a.content)
    ensures Step(sha, s, Begin(DeleteJob(x, a.now), {})) == (s, Deleting(sha, a, x, RemoveFile, None, Nothing))
  {
  }

  lemma RemovesFile(sha: Bytes -> Hash, s: Store, a: UploadArgs, x: string)
    ensures Step(sha, s, Deleting(sha, a, x, RemoveFile, None, Nothing))
         == (s.(db := DeleteFile(s.db, x)),
             Deleting(sha, a, x, ReleaseCount, None, if x in s.db.files then Claim else Nothing))
  {
  }

  /** The release that brings the count to zero. */
  lemma ReleasesLast(sha: Bytes -> Hash, a: UploadArgs, x: string, path: string, files: map<string, FileRow>,
                     debt: Debt)
    requires debt != Leak
    ensures Step(sha, Shared(sha, a, path, 1, files), Deleting(sha, a, x, ReleaseCount, None, debt))
         == (Shared(sha, a, path, 0, files), Deleting(sha, a, x, FindPath, Some(0), Nothing))
  {
    var h := sha(a.content);
    assert map[h := RowOf(a, path, 1)][h := RowOf(a, path, 0)] == map[h := RowOf(a, path, 0)];
  }

  /** The release that leaves one reference. */
  lemma ReleasesOneOfTwo(sha: Bytes -> Hash, a: UploadArgs, x: string, path: string, files: map<string, FileRow>)
    ensures Step(sha, Shared(sha, a, path, 2, files), Deleting(sha, a, x, ReleaseCount, None, Claim))
         == (Shared(sha, a, path, 1, files),
             Deleting(sha, a, x, ReleaseCount, Some(1), Nothing).Finish(Success(None)))
  {
    var h := sha(a.content);
    assert map[h := RowOf(a, path, 2)][h := RowOf(a, path, 1)] == map[h := RowOf(a, path, 1)];
  }

  /** The clean-up drops the blob and cannot remove a row that is counted or referenced again. */
  lemma CleanUpKeepsRow(sha: Bytes -> Hash, from: System, s: Store, a: UploadArgs, x: string, q: Proc)
    requires Reaches(sha, from, Pair(s, Deleting(sha, a, x, FindPath, Some(0), Nothing), q))
    requires sha(a.content) in s.db.rows
    requires s.db.rows[sha(a.content)].count != 0 || Referenced(s.db, sha(a.content))
    ensures exists p': Proc :: p'.at == Finished && p'.answer == Some(Success(None))
                         && Reaches(sha, from, Pair(Drop(s, s.db.rows[sha(a.content)].path), p', q))
  {
    var p := Deleting(sha, a, x, FindPath, Some(0), Nothing);
    var (s1, p1) := Step(sha, s, p);
    First(sha, from, s, p, q, s1, p1);
    var (s2, p2) := Step(sha, s1, p1);
    First(sha, from, s1, p1, q, s2, p2);
    var (s3, p3) := Step(sha, s2, p2);
    First(sha, from, s2, p2, q, s3, p3);
  }

  // ---------- an upload attaches to content that a delete is about to drop ----------

  function Found(sha: Bytes -> Hash, a: UploadArgs, path: string): Proc {
    Begin(UploadJob(a), {}).(at := RaiseCount, hash := Some(sha(a.content)), read := Some(RowOf(a, path, 1)))
  }

  lemma UploadLooksUp(sha: Bytes -> Hash, from: System, s: Store, a: UploadArgs, path: string, p: Proc)
    requires a.accepted && a.path != path && s == Shared(sha, a, path, 1, map[])
    requires Reaches(sha, from, Pair(s, p, Begin(UploadJob(a), {})))
    ensures Reaches(sha, from, Pair(s, p, Found(sha, a, path)))
  {
    var q := Begin(UploadJob(a), {});
    var (s1, q1) := Step(sha, s, q);
    Second(sha, from, s, p, q, s1, q1);
    var (s2, q2) := Step(sha, s1, q1);
    Second(sha, from, s1, p, q1, s2, q2);
    var (s3, q3) := Step(sha, s2, q2);
    Second(sha, from, s2, p, q2, s3, q3);
    assert Drop(Put(s, a.path, a.content), a.path).blobs == s.blobs;
  }

  lemma UploadAttaches(sha: Bytes -> Hash, from: System, a: UploadArgs, path: string, p: Proc)
    requires Reaches(sha, from, Pair(Shared(sha, a, path, 0, map[]), p, Found(sha, a, path)))
    ensures exists q': Proc :: q'.at == Finished && q'.answer.Some? && q'.answer.value.Success?
                         && Reaches(sha, from, Pair(Shared(sha, a, path, 1, map[a.id := NewFile(sha, a)]), p, q'))
  {
    var q := Found(sha, a, path);
    var s := Shared(sha, a, path, 0, map[]);
    var (s1, q1) := Step(sha, s, q);
    Second(sha, from, s, p, q, s1, q1);
    assert s1 == Shared(sha, a, path, 1, map[]);
    var (s2, q2) := Step(sha, s1, q1);
    Second(sha, from, s1, p, q1, s2, q2);
    assert s2 == Shared(sha, a, path, 1, map[a.id := NewFile(sha, a)]);
  }

  /** The upload looks up the row, the delete brings its count to zero, the upload raises it again
      and inserts its file, and the delete then drops the blob: both calls report success and the
      uploaded file has no bytes. */
  lemma UploadDeleteRace(sha: Bytes -> Hash, a: UploadArgs, x: string, path: string)
    requires a.accepted && a.id != x && a.path != path
    ensures var start := Pair(Shared(sha, a, path, 1, map[x := NewFile(sha, a)]),
                              Begin(DeleteJob(x, a.now), {}), Begin(UploadJob(a), {}));
            exists now: System :: Reaches(sha, start, now) && Quiescent(now) && Lost(now.store, a.id)
                          && 1 in now.procs && now.procs[1].answer.Some? && now.procs[1].answer.value.Success?
  {
    var s0 := Shared(sha, a, path, 1, map[x := NewFile(sha, a)]);
    var d, u := Begin(DeleteJob(x, a.now), {}), Begin(UploadJob(a), {});
    var start := Pair(s0, d, u);
    PairStarts(sha, s0, d, u);
    FindsFile(sha, s0, a, x);
    var d1 := Deleting(sha, a, x, RemoveFile, None, Nothing);
    First(sha, start, s0, d, u, s0, d1);
    RemovesFile(sha, s0, a, x);
    var d2 := Deleting(sha, a, x, ReleaseCount, None, Claim);
    var s1 := Shared(sha, a, path, 1, map[]);
    assert s0.(db := DeleteFile(s0.db, x)) == s1;
    First(sha, start, s0, d1, u, s1, d2);
    UploadLooksUp(sha, start, s1, a, path, d2);
    ReleasesLast(sha, a, x, path, map[], Claim);
    var d3 := Deleting(sha, a, x, FindPath, Some(0), Nothing);
    First(sha, start, s1, d2, Found(sha, a, path), Shared(sha, a, path, 0, map[]), d3);
    RaceEnds(sha, start, a, x, path);
  }

  lemma RaceEnds(sha: Bytes -> Hash, start: System, a: UploadArgs, x: string, path: string)
    requires Reaches(sha, start, Pair(Shared(sha, a, path, 0, map[]),
                                      Deleting(sha, a, x, FindPath, Some(0), Nothing), Found(sha, a, path)))
    ensures exists now: System :: Reaches(sha, start, now) && Quiescent(now) && Lost(now.store, a.id)
                          && 1 in now.procs && now.procs[1].answer.Some? && now.procs[1].answer.value.Success?
  {
    var d := Deleting(sha, a, x, FindPath, Some(0), Nothing);
    var s := Shared(sha, a, path, 1, map[a.id := NewFile(sha, a)]);
    UploadAttaches(sha, start, a, path, d);
    var u: Proc :| u.at == Finished && u.answer.Some? && u.answer.value.Success? && Reaches(sha, start, Pair(s, d, u));
    RaceCleansUp(sha, start, a, x, path, u);
  }

  lemma RaceCleansUp(sha: Bytes -> Hash, start: System, a: UploadArgs, x: string, path: string, u: Proc)
    requires u.at == Finished && u.answer.Some? && u.answer.value.Success?
    requires Reaches(sha, start, Pair(Shared(sha, a, path, 1, map[a.id := NewFile(sha, a)]),
                                      Deleting(sha, a, x, FindPath, Some(0), Nothing), u))
    ensures exists now: System :: Reaches(sha, start, now) && Quiescent(now) && Lost(now.store, a.id)
                          && 1 in now.procs && now.procs[1].answer.Some? && now.procs[1].answer.value.Success?
  {
    var s := Shared(sha, a, path, 1, map[a.id := NewFile(sha, a)]);
    CleanUpKeepsRow(sha, start, s, a, x, u);
    var d': Proc :| d'.at == Finished && d'.answer == Some(Success(None))
                    && Reaches(sha, start, Pair(Drop(s, path), d', u));
    var now := Pair(Drop(s, path), d', u);
    assert now.procs[1] == u && Quiescent(now) && Lost(now.store, a.id);
  }

  // ---------- two deletes of the same id ----------

  /** Files `x` and `y` share their bytes, and both deletes of `x` read its hash before either
      removes it. The second one removes nothing, succeeds, lowers the count a second time to zero
      and drops the bytes of `y`. Only the foreign key saves the row. */
  lemma DoubleDeleteRace(sha: Bytes -> Hash, a: UploadArgs, x: string, y: string, path: string)
    requires x != y
    ensures var start := Pair(Shared(sha, a, path, 2, map[x := NewFile(sha, a), y := NewFile(sha, a)]),
                              Begin(DeleteJob(x, a.now), {}), Begin(DeleteJob(x, a.now), {}));
            exists now: System :: Reaches(sha, start, now) && Quiescent(now) && Lost(now.store, y)
                          && CountOf(now.store.db, sha(a.content)) == 0
  {
    var s0 := Shared(sha, a, path, 2, map[x := NewFile(sha, a), y := NewFile(sha, a)]);
    var d := Begin(DeleteJob(x, a.now), {});
    var start := Pair(s0, d, d);
    PairStarts(sha, s0, d, d);
    FindsFile(sha, s0, a, x);
    var d1 := Deleting(sha, a, x, RemoveFile, None, Nothing);
    First(sha, start, s0, d, d, s0, d1);
    Second(sha, start, s0, d1, d, s0, d1);
    DoubleDeleteRemoves(sha, start, a, x, y, path);
    DoubleDeleteEnds(sha, start, a, x, y, path);
  }

  lemma DoubleDeleteRemoves(sha: Bytes -> Hash, start: System, a: UploadArgs, x: string, y: string, path: string)
    requires x != y
    requires Reaches(sha, start, Pair(Shared(sha, a, path, 2, map[x := NewFile(sha, a), y := NewFile(sha, a)]),
                                      Deleting(sha, a, x, RemoveFile, None, Nothing),
                                      Deleting(sha, a, x, RemoveFile, None, Nothing)))
    ensures Reaches(sha, start, Pair(Shared(sha, a, path, 2, map[y := NewFile(sha, a)]),
                                     Deleting(sha, a, x, ReleaseCount, None, Nothing),
                                     Deleting(sha, a, x, ReleaseCount, None, Claim)))
  {
    var s0 := Shared(sha, a, path, 2, map[x := NewFile(sha, a), y := NewFile(sha, a)]);
    var s1 := Shared(sha, a, path, 2, map[y := NewFile(sha, a)]);
    var d1 := Deleting(sha, a, x, RemoveFile, None, Nothing);
    RemovesFile(sha, s0, a, x);
    assert s0.(db := DeleteFile(s0.db, x)) == s1 && s1.(db := DeleteFile(s1.db, x)) == s1;
    Second(sha, start, s0, d1, d1, s1, Deleting(sha, a, x, ReleaseCount, None, Claim));
    RemovesFile(sha, s1, a, x);
    First(sha, start, s1, d1, Deleting(sha, a, x, ReleaseCount, None, Claim),
          s1, Deleting(sha, a, x, ReleaseCount, None, Nothing));
  }

  lemma DoubleDeleteEnds(sha: Bytes -> Hash, start: System, a: UploadArgs, x: string, y: string, path: string)
    requires x != y
    requires Reaches(sha, start, Pair(Shared(sha, a, path, 2, map[y := NewFile(sha, a)]),
                                      Deleting(sha, a, x, ReleaseCount, None, Nothing),
                                      Deleting(sha, a, x, ReleaseCount, None, Claim)))
    ensures exists now: System :: Reaches(sha, start, now) && Quiescent(now) && Lost(now.store, y)
                          && CountOf(now.store.db, sha(a.content)) == 0
  {
    var files := map[y := NewFile(sha, a)];
    var d := Deleting(sha, a, x, ReleaseCount, None, Nothing);
    var e := Deleting(sha, a, x, ReleaseCount, None, Claim);
    var s1 := Shared(sha, a, path, 1, files);
    var e1 := Deleting(sha, a, x, ReleaseCount, Some(1), Nothing).Finish(Success(None));
    ReleasesOneOfTwo(sha, a, x, path, files);
    Second(sha, start, Shared(sha, a, path, 2, files), d, e, s1, e1);
    ReleasesLast(sha, a, x, path, files, Nothing);
    First(sha, start, s1, d, e1, Shared(sha, a, path, 0, files), Deleting(sha, a, x, FindPath, Some(0), Nothing));
    DoubleDeleteCleansUp(sha, start, a, x, y, path, e1);
  }

  lemma DoubleDeleteCleansUp(sha: Bytes -> Hash, start: System, a: UploadArgs, x: string, y: string, path: string,
                             e: Proc)
    requires e.at == Finished
    requires Reaches(sha, start, Pair(Shared(sha, a, path, 0, map[y := NewFile(sha, a)]),
                                      Deleting(sha, a, x, FindPath, Some(0), Nothing), e))
    ensures exists now: System :: Reaches(sha, start, now) && Quiescent(now) && Lost(now.store, y)
                          && CountOf(now.store.db, sha(a.content)) == 0
  {
    var s := Shared(sha, a, path, 0, map[y := NewFile(sha, a)]);
    assert s.db.files[y].hash == sha(a.content);
    CleanUpKeepsRow(sha, start, s, a, x, e);
    var d: Proc :| d.at == Finished && d.answer == Some(Success(None))
                   && Reaches(sha, start, Pair(Drop(s, path), d, e));
    var now := Pair(Drop(s, path), d, e);
    assert Quiescent(now) && Lost(now.store, y);
  }
}
