/** The condition of module Safety is exact: every unsafe batch has a schedule, without any fault,
    that leaves a live file without its bytes. */
module SafetyExactly {
  import opened Wrappers
  import opened Model
  import opened Schema
  import opened Protocol
  import opened Machine
  import opened Finite
  import Clean
  import Losses
  import Refinement
  import opened Safety
  import opened SafetyRuns
  import Solo

  // ---------- the deletes that are used ----------

  ghost predicate Different(ds: seq<nat>) {
    forall x, y :: 0 <= x < y < |ds| ==> ds[x] != ds[y]
  }

  lemma {:induction false} Pick(ids: set<nat>, n: nat) returns (ds: seq<nat>)
    requires n <= |ids|
    ensures |ds| == n && (forall x :: 0 <= x < n ==> ds[x] in ids)
    ensures n == |ids| ==> forall i :: i in ids ==> i in ds
    ensures Different(ds)
    decreases n
  {
    if n == 0 {
      ds := [];
    } else {
      var i :| i in ids;
      var rest := Pick(ids - {i}, n - 1);
      ds := [i] + rest;
    }
  }

  /** The processes `ds[i..j]` are about to make the call at `point`. */
  ghost predicate Stand(now: System, ds: seq<nat>, i: nat, j: nat, point: Point, h: Hash, v: string)
    requires j <= |ds|
  {
    forall x :: i <= x < j ==>
      && ds[x] in now.procs
      && now.procs[ds[x]].job.DeleteJob? && now.procs[ds[x]].job.id != v
      && now.procs[ds[x]].faults == {} && now.procs[ds[x]].at == point && now.procs[ds[x]].seen == None
      && (point != FindHash ==> now.procs[ds[x]].hash == Some(h))
  }

  /** Nobody else has moved. */
  ghost predicate Others(sys: System, now: System, ds: seq<nat>) {
    forall i :: i in sys.procs && i !in ds ==> i in now.procs && now.procs[i] == sys.procs[i]
  }

  lemma OthersWait(sys: System, now: System, next: System, ds: seq<nat>, d: nat)
    requires Others(sys, now, ds) && d in ds && d in next.procs && next.procs == now.procs[d := next.procs[d]]
    ensures Others(sys, next, ds)
  {
  }

  /** Deletes of files of `h` other than `v`, all about to start. */
  ghost predicate Chosen(now: System, h: Hash, v: string, ds: seq<nat>) {
    && Different(ds)
    && forall x :: 0 <= x < |ds| ==>
         && ds[x] in now.procs && now.procs[ds[x]] == Begin(now.procs[ds[x]].job, {})
         && AimsAtOld(now.store, now.procs[ds[x]].job, h) && now.procs[ds[x]].job.id != v
  }

  /** The row of `h` as in `s0`, counting `count`; no blob has changed; no file has come, and `v`
      has not gone. */
  ghost predicate Scene(s0: Store, s: Store, h: Hash, v: string, count: int)
    requires h in s0.db.rows
  {
    && h in s.db.rows && s.db.rows[h].path == s0.db.rows[h].path && s.db.rows[h].count == count
    && s.blobs == s0.blobs
    && s.db.files.Keys <= s0.db.files.Keys
    && (v in s0.db.files ==> v in s.db.files && s.db.files[v] == s0.db.files[v])
  }

  // ---------- one call ----------

  /** One process makes its next call. */
  lemma Moves(sha: Bytes -> Hash, start: System, now: System, d: nat) returns (next: System)
    requires Reaches(sha, start, now) && d in now.procs
    ensures WellFormed(sha, now.procs[d]) && Reaches(sha, start, next)
    ensures next == System(Step(sha, now.store, now.procs[d]).0, now.procs[d := Step(sha, now.store, now.procs[d]).1])
  {
    ReachesTurn(sha, start, now, d);
    next := Turn(sha, now, d);
  }

  /** One process runs to its end. */
  lemma {:induction false} Finishes(sha: Bytes -> Hash, start: System, now: System, u: nat) returns (next: System)
    requires Reaches(sha, start, now) && u in now.procs
    ensures WellFormed(sha, now.procs[u]) && Reaches(sha, start, next)
    ensures next == System(Alone(sha, now.store, now.procs[u]).0, now.procs[u := Alone(sha, now.store, now.procs[u]).1])
    decreases Ahead(now.procs[u].at)
  {
    if now.procs[u].at == Finished {
      ReachesTurn(sha, start, now, u);
      next := now;
      assert now.procs[u := now.procs[u]] == now.procs;
    } else {
      var moved := Moves(sha, start, now, u);
      StepAdvances(sha, now.store, now.procs[u]);
      AloneStep(sha, now.store, now.procs[u]);
      next := Finishes(sha, start, moved, u);
      assert now.procs[u := moved.procs[u]][u := next.procs[u]] == now.procs[u := next.procs[u]];
    }
  }

  // ---------- the uploads that come first ----------

  /** Accepted uploads of `h` other than that of `v`. */
  ghost predicate ComeFirst(sha: Bytes -> Hash, procs: map<nat, Proc>, h: Hash, v: string, us: seq<nat>) {
    && Different(us)
    && forall x :: 0 <= x < |us| ==> us[x] in Carriers(sha, procs, h) && procs[us[x]].job.args.id != v
  }

  predicate HasId(done: seq<UploadArgs>, id: string) {
    exists x :: 0 <= x < |done| && done[x].id == id
  }

  predicate HasPath(done: seq<UploadArgs>, path: string) {
    exists x :: 0 <= x < |done| && done[x].path == path
  }

  /** These uploads of `h` are through: their files are there, and the row counts them. */
  ghost predicate Staged(s0: Store, s: Store, h: Hash, done: seq<UploadArgs>) {
    var k := |FilesOf(s0.db, h)| + |done|;
    && (if k > 0 then h in s.db.rows && s.db.rows[h].count == k else h !in s.db.rows)
    && (forall id :: id in s0.db.files ==> id in s.db.files && s.db.files[id] == s0.db.files[id])
    && (forall x :: 0 <= x < |done| ==> done[x].id in s.db.files && s.db.files[done[x].id].hash == h)
    && (forall id :: id in s.db.files ==> id in s0.db.files || HasId(done, id))
    && (forall path :: path in s.blobs || PathTaken(s.db, path) ==> path in s0.blobs || HasPath(done, path))
  }

  /** An upload that uses names of its own. */
  ghost predicate IsNew(s0: Store, done: seq<UploadArgs>, a: UploadArgs) {
    a.id !in s0.db.files && a.path !in s0.blobs && !HasId(done, a.id) && !HasPath(done, a.path)
  }

  lemma DoneGrows(done: seq<UploadArgs>, a: UploadArgs, name: string)
    ensures HasId(done + [a], name) <==> HasId(done, name) || a.id == name
    ensures HasPath(done + [a], name) <==> HasPath(done, name) || a.path == name
  {
    var more := done + [a];
    assert more[|done|] == a && forall x :: 0 <= x < |done| ==> more[x] == done[x];
  }

  lemma UploadTakesOnly(sha: Bytes -> Hash, s: Store, a: UploadArgs, path: string)
    requires path != a.path
    ensures var s' := Clean.AfterUpload(sha, s, a);
            (path in s'.blobs ==> path in s.blobs) && (PathTaken(s'.db, path) ==> PathTaken(s.db, path))
  {
    var s' := Clean.AfterUpload(sha, s, a);
    if PathTaken(s'.db, path) {
      var g :| g in s'.db.rows && s'.db.rows[g].path == path;
      assert g in s.db.rows && s.db.rows[g].path == path;
    }
  }

  lemma StagedNext(sha: Bytes -> Hash, s0: Store, s: Store, h: Hash, done: seq<UploadArgs>, a: UploadArgs)
    requires Staged(s0, s, h, done) && IsNew(s0, done, a) && sha(a.content) == h
    ensures Staged(s0, Clean.AfterUpload(sha, s, a), h, done + [a])
  {
    var s' := Clean.AfterUpload(sha, s, a);
    forall path | path in s'.blobs || PathTaken(s'.db, path)
      ensures path in s0.blobs || HasPath(done + [a], path)
    {
      DoneGrows(done, a, path);
      if path != a.path {
        UploadTakesOnly(sha, s, a, path);
      }
    }
    forall id | id in s'.db.files
      ensures id in s0.db.files || HasId(done + [a], id)
    {
      DoneGrows(done, a, id);
    }
  }

  lemma StartIsStaged(sha: Bytes -> Hash, s0: Store, h: Hash)
    requires Clean.IsClean(sha, s0)
    ensures Staged(s0, s0, h, [])
  {
    NoFilesIffUnreferenced(s0.db, h);
    forall path | PathTaken(s0.db, path)
      ensures path in s0.blobs
    {
      var g :| g in s0.db.rows && s0.db.rows[g].path == path;
      assert Refinement.RowBacked(sha, s0, g);
    }
  }

  /** The arguments of the first `n` of these uploads. */
  ghost predicate AreArgs(sys: System, us: seq<nat>, n: nat, done: seq<UploadArgs>)
    requires n <= |us|
  {
    |done| == n && forall x :: 0 <= x < n ==> us[x] in sys.procs && sys.procs[us[x]].job == UploadJob(done[x])
  }

  lemma NextIsNew(sha: Bytes -> Hash, sys: System, us: seq<nat>, n: nat, done: seq<UploadArgs>, u: nat)
    requires Calls(sha, sys.store, sys.procs) && n <= |us| && AreArgs(sys, us, n, done)
    requires u in sys.procs && sys.procs[u].job.UploadJob? && forall x :: 0 <= x < n ==> us[x] != u
    ensures IsNew(sys.store, done, sys.procs[u].job.args)
  {
  }

  /** Different accepted uploads of `h` with names of their own, all about to start. */
  ghost predicate ReadyUploads(sha: Bytes -> Hash, sys: System, h: Hash, us: seq<nat>, args: seq<UploadArgs>) {
    && |args| == |us| && Different(us)
    && forall x :: 0 <= x < |us| ==>
         && us[x] in sys.procs && sys.procs[us[x]] == Begin(UploadJob(args[x]), {})
         && args[x].accepted && sha(args[x].content) == h && IsNew(sys.store, args[..x], args[x])
  }

  lemma UploadAt(sha: Bytes -> Hash, sys: System, before: System, h: Hash, us: seq<nat>, args: seq<UploadArgs>,
                 n: nat)
    returns (now: System)
    requires ReadyUploads(sha, sys, h, us, args) && n < |us| && Reaches(sha, sys, before)
    requires Staged(sys.store, before.store, h, args[..n])
    requires us[n] in before.procs && before.procs[us[n]] == sys.procs[us[n]]
    ensures Reaches(sha, sys, now) && Staged(sys.store, now.store, h, args[..n + 1])
    ensures us[n] in now.procs && now.procs == before.procs[us[n] := now.procs[us[n]]]
    ensures now.procs[us[n]].at == Finished
  {
    now := NextUploads(sha, sys, before, h, args[..n], us[n], args[n]);
    assert args[..n] + [args[n]] == args[..n + 1];
  }

  /** The uploads `us[n..]` are about to start. */
  ghost predicate Waiting(sys: System, now: System, us: seq<nat>, n: nat) {
    forall x :: n <= x < |us| ==> us[x] in sys.procs && us[x] in now.procs && now.procs[us[x]] == sys.procs[us[x]]
  }

  /** The first `n` of these processes have ended, or are about to clean up. */
  ghost predicate Through(now: System, ds: seq<nat>, n: nat)
    requires n <= |ds|
  {
    forall x :: 0 <= x < n ==> ds[x] in now.procs && now.procs[ds[x]].at in {Finished, FindPath}
  }

  lemma OneMoreThrough(now: System, next: System, ds: seq<nat>, n: nat)
    requires n < |ds| && Different(ds) && Through(now, ds, n)
    requires ds[n] in next.procs && next.procs == now.procs[ds[n] := next.procs[ds[n]]]
    requires next.procs[ds[n]].at in {Finished, FindPath}
    ensures Through(next, ds, n + 1)
  {
  }

  lemma OthersStillWait(sys: System, now: System, next: System, us: seq<nat>, n: nat)
    requires n < |us| && Different(us) && Waiting(sys, now, us, n)
    requires us[n] in next.procs && next.procs == now.procs[us[n] := next.procs[us[n]]]
    ensures Waiting(sys, next, us, n + 1)
  {
  }

  lemma {:induction false} AllUpload(sha: Bytes -> Hash, sys: System, h: Hash, us: seq<nat>, args: seq<UploadArgs>,
                                     n: nat)
    returns (now: System)
    requires Staged(sys.store, sys.store, h, []) && Reaches(sha, sys, sys)
    requires ReadyUploads(sha, sys, h, us, args) && n <= |us|
    ensures Reaches(sha, sys, now) && Others(sys, now, us) && Staged(sys.store, now.store, h, args[..n])
    ensures Waiting(sys, now, us, n) && Through(now, us, n)
    ensures forall x :: 0 <= x < n ==> now.procs[us[x]].at == Finished
    decreases n
  {
    if n == 0 {
      assert args[..0] == [];
      now := sys;
    } else {
      var before := AllUpload(sha, sys, h, us, args, n - 1);
      now := UploadAt(sha, sys, before, h, us, args, n - 1);
      OthersStillWait(sys, before, now, us, n - 1);
      OneMoreThrough(before, now, us, n - 1);
      OthersWait(sys, before, now, us, us[n - 1]);
    }
  }

  lemma ArgsAreReady(sha: Bytes -> Hash, sys: System, h: Hash, v: string, us: seq<nat>) returns (args: seq<UploadArgs>)
    requires Calls(sha, sys.store, sys.procs) && AtStart(sys) && ComeFirst(sha, sys.procs, h, v, us)
    ensures ReadyUploads(sha, sys, h, us, args) && AreArgs(sys, us, |us|, args)
  {
    args := seq(|us|, x requires 0 <= x < |us| && us[x] in sys.procs && sys.procs[us[x]].job.UploadJob? =>
                        sys.procs[us[x]].job.args);
    forall x | 0 <= x < |us|
      ensures IsNew(sys.store, args[..x], args[x])
    {
      NextIsNew(sha, sys, us, x, args[..x], us[x]);
    }
  }

  lemma NextUploads(sha: Bytes -> Hash, sys: System, before: System, h: Hash, done: seq<UploadArgs>, u: nat,
                    a: UploadArgs)
    returns (now: System)
    requires Reaches(sha, sys, before) && Staged(sys.store, before.store, h, done) && IsNew(sys.store, done, a)
    requires u in before.procs && before.procs[u] == Begin(UploadJob(a), {}) && a.accepted && sha(a.content) == h
    ensures Reaches(sha, sys, now) && Staged(sys.store, now.store, h, done + [a])
    ensures u in now.procs && now.procs == before.procs[u := now.procs[u]] && now.procs[u].at == Finished
  {
    now := Finishes(sha, sys, before, u);
    AloneFinishes(sha, before.store, before.procs[u]);
    StagedNext(sha, sys.store, before.store, h, done, a);
    Solo.UploadAlone(sha, before.store, a, {});
    Clean.UploadClosedForm(sha, before.store, a);
  }

  lemma StartReaches(sha: Bytes -> Hash, sys: System)
    requires AtStart(sys)
    ensures Reaches(sha, sys, sys)
  {
    StartIsWellFormed(sha, sys);
    assert Interleave(sha, sys, []) == sys;
  }

  // ---------- the deletes ----------

  lemma OthersStand(now: System, next: System, ds: seq<nat>, n: nat, i: nat, j: nat, point: Point, h: Hash, v: string)
    requires n < |ds| && j <= |ds| && (j <= n || n < i) && Stand(now, ds, i, j, point, h, v)
    requires Different(ds)
    requires ds[n] in next.procs && next.procs == now.procs[ds[n] := next.procs[ds[n]]]
    ensures Stand(next, ds, i, j, point, h, v)
  {
  }

  lemma OneFurther(now: System, next: System, ds: seq<nat>, n: nat, from: Point, to: Point, h: Hash, v: string)
    requires n < |ds| && Different(ds)
    requires Stand(now, ds, 0, n, to, h, v) && Stand(now, ds, n, |ds|, from, h, v)
    requires ds[n] in next.procs && next.procs == now.procs[ds[n] := next.procs[ds[n]]]
    requires Stand(next, ds, n, n + 1, to, h, v)
    ensures Stand(next, ds, 0, n + 1, to, h, v) && Stand(next, ds, n + 1, |ds|, from, h, v)
  {
    OthersStand(now, next, ds, n, 0, n, to, h, v);
    OthersStand(now, next, ds, n, n + 1, |ds|, from, h, v);
  }

  lemma Finds(sha: Bytes -> Hash, s: Store, p: Proc, h: Hash)
    requires p == Begin(p.job, {}) && AimsAtOld(s, p.job, h)
    ensures WellFormed(sha, p) && Step(sha, s, p) == (s, p.(at := RemoveFile, hash := Some(h)))
  {
  }

  lemma ThoseStand(now: System, next: System, ds: seq<nat>, u: nat, i: nat, j: nat, point: Point, h: Hash, v: string)
    requires j <= |ds| && Stand(now, ds, i, j, point, h, v)
    requires u !in ds && u in next.procs && next.procs == now.procs[u := next.procs[u]]
    ensures Stand(next, ds, i, j, point, h, v)
  {
  }

  /** First all of them look up their file. */
  lemma {:induction false} AllFind(sha: Bytes -> Hash, start: System, b: System, h: Hash, v: string,
                                   ds: seq<nat>, n: nat)
    returns (now: System)
    requires Reaches(sha, start, b) && Chosen(b, h, v, ds) && n <= |ds|
    ensures Reaches(sha, start, now) && now.store == b.store && Others(b, now, ds)
    ensures Stand(now, ds, 0, n, RemoveFile, h, v)
    ensures forall x :: n <= x < |ds| ==> ds[x] in now.procs && now.procs[ds[x]] == b.procs[ds[x]]
    decreases n
  {
    if n == 0 {
      now := b;
    } else {
      var before := AllFind(sha, start, b, h, v, ds, n - 1);
      var p := before.procs[ds[n - 1]];
      now := Moves(sha, start, before, ds[n - 1]);
      Finds(sha, before.store, p, h);
      OthersStand(before, now, ds, n - 1, 0, n - 1, RemoveFile, h, v);
      OthersWait(b, before, now, ds, ds[n - 1]);
    }
  }

  lemma Removes(sha: Bytes -> Hash, s0: Store, s: Store, p: Proc, h: Hash, v: string, count: int)
    requires WellFormed(sha, p) && p.job.DeleteJob? && p.job.id != v && p.at == RemoveFile && p.faults == {}
    requires h in s0.db.rows && Scene(s0, s, h, v, count)
    ensures var (s', p') := Step(sha, s, p);
            && Scene(s0, s', h, v, count) && p'.job == p.job && p'.faults == {}
            && p'.at == ReleaseCount && p'.hash == p.hash && p'.seen == p.seen
  {
  }

  lemma NextRemoves(sha: Bytes -> Hash, start: System, b: Store, before: System, h: Hash, v: string,
                    ds: seq<nat>, n: nat)
    returns (now: System)
    requires n < |ds| && h in b.db.rows && Reaches(sha, start, before)
    requires Stand(before, ds, n, |ds|, RemoveFile, h, v)
    requires Scene(b, before.store, h, v, b.db.rows[h].count)
    ensures Reaches(sha, start, now) && Scene(b, now.store, h, v, b.db.rows[h].count)
    ensures ds[n] in now.procs && now.procs == before.procs[ds[n] := now.procs[ds[n]]]
    ensures Stand(now, ds, n, n + 1, ReleaseCount, h, v)
  {
    var p := before.procs[ds[n]];
    now := Moves(sha, start, before, ds[n]);
    Removes(sha, b, before.store, p, h, v, b.db.rows[h].count);
  }

  /** Then all of them remove it, those that share a file included. */
  lemma {:induction false} AllRemove(sha: Bytes -> Hash, start: System, b: Store, from: System, h: Hash, v: string,
                                     ds: seq<nat>, n: nat)
    returns (now: System)
    requires Different(ds) && n <= |ds| && h in b.db.rows
    requires Reaches(sha, start, from) && Stand(from, ds, 0, |ds|, RemoveFile, h, v)
    requires Scene(b, from.store, h, v, b.db.rows[h].count)
    ensures Reaches(sha, start, now) && Others(from, now, ds)
    ensures Scene(b, now.store, h, v, b.db.rows[h].count)
    ensures Stand(now, ds, 0, n, ReleaseCount, h, v) && Stand(now, ds, n, |ds|, RemoveFile, h, v)
    decreases n
  {
    if n == 0 {
      now := from;
    } else {
      var before := AllRemove(sha, start, b, from, h, v, ds, n - 1);
      now := NextRemoves(sha, start, b, before, h, v, ds, n - 1);
      OneFurther(before, now, ds, n - 1, RemoveFile, ReleaseCount, h, v);
      OthersWait(from, before, now, ds, ds[n - 1]);
    }
  }

  lemma Releases(sha: Bytes -> Hash, s0: Store, s: Store, p: Proc, h: Hash, v: string, count: int)
    requires WellFormed(sha, p) && p.job.DeleteJob? && p.at == ReleaseCount && p.hash == Some(h) && p.faults == {}
    requires h in s0.db.rows && Scene(s0, s, h, v, count)
    ensures var (s', p') := Step(sha, s, p);
            && Scene(s0, s', h, v, count - 1) && p'.hash == Some(h) && p'.job == p.job && p'.faults == {}
            && p'.at in {Finished, FindPath} && (count == 1 ==> p'.at == FindPath)
  {
  }

  /** A delete that has seen zero. */
  predicate AboutToClean(p: Proc, h: Hash) {
    p.job.DeleteJob? && p.at == FindPath && p.hash == Some(h) && p.faults == {}
  }

  lemma NextReleases(sha: Bytes -> Hash, start: System, b: Store, before: System, h: Hash, v: string,
                     ds: seq<nat>, n: nat)
    returns (now: System)
    requires n < |ds| && h in b.db.rows && Reaches(sha, start, before)
    requires Stand(before, ds, n, |ds|, ReleaseCount, h, v) && Scene(b, before.store, h, v, |ds| - n)
    ensures Reaches(sha, start, now) && Scene(b, now.store, h, v, |ds| - n - 1)
    ensures ds[n] in now.procs && now.procs == before.procs[ds[n] := now.procs[ds[n]]]
    ensures now.procs[ds[n]].at in {Finished, FindPath}
    ensures n + 1 == |ds| ==> AboutToClean(now.procs[ds[n]], h)
  {
    assert ds[n] in before.procs;
    var p := before.procs[ds[n]];
    now := Moves(sha, start, before, ds[n]);
    Releases(sha, b, before.store, p, h, v, |ds| - n);
  }

  /** Then they release the hash, one after the other; the last one reads zero. */
  lemma {:induction false} AllRelease(sha: Bytes -> Hash, start: System, b: Store, from: System, h: Hash, v: string,
                                      ds: seq<nat>, n: nat)
    returns (now: System)
    requires Different(ds) && n <= |ds| && h in b.db.rows
    requires Reaches(sha, start, from) && Stand(from, ds, 0, |ds|, ReleaseCount, h, v)
    requires Scene(b, from.store, h, v, |ds|)
    ensures Reaches(sha, start, now) && Others(from, now, ds) && Scene(b, now.store, h, v, |ds| - n)
    ensures Stand(now, ds, n, |ds|, ReleaseCount, h, v) && Through(now, ds, n)
    ensures n == |ds| > 0 ==> ds[n - 1] in now.procs && AboutToClean(now.procs[ds[n - 1]], h)
    decreases n
  {
    if n == 0 {
      now := from;
    } else {
      var before := AllRelease(sha, start, b, from, h, v, ds, n - 1);
      now := NextReleases(sha, start, b, before, h, v, ds, n - 1);
      OthersStand(before, now, ds, n - 1, n, |ds|, ReleaseCount, h, v);
      OneMoreThrough(before, now, ds, n - 1);
      OthersWait(from, before, now, ds, ds[n - 1]);
    }
  }

  // ---------- the upload that attaches ----------

  predicate AboutToRaise(p: Proc, a: UploadArgs, h: Hash) {
    p.job == UploadJob(a) && p.at == RaiseCount && p.hash == Some(h) && p.faults == {}
  }

  /** The upload finds the row and drops its copy: the blobs are as before. */
  lemma UploadLooksUp(sha: Bytes -> Hash, start: System, b: Store, before: System, u: nat, h: Hash, v: string,
                      count: int)
    returns (now: System)
    requires Reaches(sha, start, before) && u in before.procs && h in b.db.rows
    requires before.procs[u] == Begin(before.procs[u].job, {}) && Carries(sha, before.procs[u].job, h)
    requires before.procs[u].job.args.path !in b.blobs
    requires Scene(b, before.store, h, v, count)
    ensures Reaches(sha, start, now) && Scene(b, now.store, h, v, count)
    ensures u in now.procs && AboutToRaise(now.procs[u], before.procs[u].job.args, h)
    ensures now.procs == before.procs[u := now.procs[u]]
  {
    var a := before.procs[u].job.args;
    var put := Moves(sha, start, before, u);
    assert put.store == Put(before.store, a.path, a.content);
    var found := Moves(sha, start, put, u);
    assert found.store == put.store && found.procs[u].at == DropCopy;
    now := Moves(sha, start, found, u);
    assert now.store == Drop(put.store, a.path);
    assert now.store.blobs == before.store.blobs;
  }

  // ---------- the clean-up that drops the bytes ----------

  /** Whoever saw zero drops the blob of the row that is there. */
  lemma CleansUp(sha: Bytes -> Hash, start: System, before: System, d: nat, h: Hash, v: string)
    returns (now: System)
    requires Reaches(sha, start, before) && d in before.procs && AboutToClean(before.procs[d], h)
    requires h in before.store.db.rows && v in before.store.db.files && before.store.db.files[v].hash == h
    ensures Reaches(sha, start, now) && Losses.Lost(now.store, v) && now.store.db == before.store.db
    ensures now.store.blobs == before.store.blobs - {before.store.db.rows[h].path}
    ensures d in now.procs && now.procs == before.procs[d := now.procs[d]] && now.procs[d].job == before.procs[d].job
  {
    var found := Moves(sha, start, before, d);
    assert found.store == before.store && found.procs[d].at == DropContent;
    now := Moves(sha, start, found, d);
  }

  // ---------- the brink ----------

  /** Untouched, at its end, or waiting before a clean-up or a raise. */
  predicate Parked(p0: Proc, p: Proc) {
    p.job == p0.job && (p == p0 || p.at in {Finished, FindPath, RaiseCount})
  }

  /** A path of the start, or of an upload that has ended. */
  ghost predicate PathUsed(sys: System, now: System, path: string) {
    || path in sys.store.blobs
    || exists i :: i in now.procs && now.procs[i].job.UploadJob? && now.procs[i].job.args.path == path
                   && now.procs[i].at == Finished
  }

  /** The upload of `v` has looked up the row of `h` and is about to raise its count. */
  ghost predicate OnItsWay(sha: Bytes -> Hash, now: System, h: Hash, v: string) {
    && v !in now.store.db.files
    && exists u :: u in now.procs && Carries(sha, now.procs[u].job, h) && now.procs[u].job.args.id == v
                   && AboutToRaise(now.procs[u], now.procs[u].job.args, h)
  }

  /** The count of `h` reads zero, `d` is about to clean up, and `v` is there or on its way. */
  ghost predicate Brink(sha: Bytes -> Hash, sys: System, now: System, h: Hash, v: string, d: nat) {
    && Reaches(sha, sys, now) && now.procs.Keys == sys.procs.Keys
    && h in now.store.db.rows && now.store.db.rows[h].count == 0
    && PathUsed(sys, now, now.store.db.rows[h].path)
    && d in now.procs && AboutToClean(now.procs[d], h)
    && (forall i :: i in sys.procs ==> Parked(sys.procs[i], now.procs[i]))
    && (forall i :: i in sys.procs && sys.procs[i].job.DeleteJob? && sys.procs[i].job.id == v ==>
          now.procs[i] == sys.procs[i])
    && (if v in FilesOf(sys.store.db, h) then v in FilesOf(now.store.db, h) else OnItsWay(sha, now, h, v))
  }

  /** The uploads `first` are through, and nobody else has moved. */
  ghost predicate Base(sha: Bytes -> Hash, sys: System, b: System, h: Hash, v: string, first: seq<nat>,
                       done: seq<UploadArgs>) {
    && ComeFirst(sha, sys.procs, h, v, first) && AreArgs(sys, first, |first|, done)
    && Staged(sys.store, b.store, h, done) && Others(sys, b, first) && Reaches(sha, sys, b)
    && forall x :: 0 <= x < |first| ==> first[x] in b.procs && b.procs[first[x]].at == Finished
  }

  lemma ToBase(sha: Bytes -> Hash, sys: System, h: Hash, v: string, first: seq<nat>)
    returns (b: System, done: seq<UploadArgs>)
    requires Calls(sha, sys.store, sys.procs) && AtStart(sys) && ComeFirst(sha, sys.procs, h, v, first)
    ensures Base(sha, sys, b, h, v, first, done)
  {
    done := ArgsAreReady(sha, sys, h, v, first);
    StartReaches(sha, sys);
    StartIsStaged(sha, sys.store, h);
    b := AllUpload(sha, sys, h, first, done, |first|);
    assert done[..|first|] == done;
  }

  /** Every victim that is not spared can be brought there. */
  lemma ToTheBrink(sha: Bytes -> Hash, sys: System, h: Hash, v: string, us: set<nat>) returns (now: System, d: nat)
    requires Calls(sha, sys.store, sys.procs) && AtStart(sys)
    requires Victim(sha, sys.store, sys.procs, h, v) && us <= Carriers(sha, sys.procs, h)
    requires !Spares(sys.store, sys.procs, h, v, us)
    ensures Brink(sha, sys, now, h, v, d)
  {
    var rest := set u | u in us && sys.procs[u].job.args.id != v;
    WithoutOwnUpload(sha, sys, h, v, us, rest);
    var first := Pick(rest, |rest|);
    var b, done := ToBase(sha, sys, h, v, first);
    var ds := Pick(Aimed(sys.store, sys.procs, h, v, rest), |FilesOf(sys.store.db, h)| + |rest|);
    StagedIsChosen(sha, sys, b, h, v, rest, first, done, ds);
    d := ds[|ds| - 1];
    now := BrinkFrom(sha, sys, b, h, v, first, done, ds);
  }

  lemma NobodyAims(sys: System, h: Hash, v: string)
    requires |FilesOf(sys.store.db, h)| == 0
    ensures Aimed(sys.store, sys.procs, h, v, {}) == {}
  {
    forall i | i in sys.procs
      ensures !AimsAtOld(sys.store, sys.procs[i].job, h)
    {
      assert FilesOf(sys.store.db, h) == {};
      assert AimsAtOld(sys.store, sys.procs[i].job, h) ==> Referenced(sys.store.db, h);
      NoFilesIffUnreferenced(sys.store.db, h);
    }
  }

  /** The upload of the victim itself does not have to come first. */
  lemma WithoutOwnUpload(sha: Bytes -> Hash, sys: System, h: Hash, v: string, us: set<nat>, rest: set<nat>)
    requires Calls(sha, sys.store, sys.procs) && us <= Carriers(sha, sys.procs, h)
    requires rest == set u | u in us && sys.procs[u].job.args.id != v
    requires !Spares(sys.store, sys.procs, h, v, us)
    ensures Aimed(sys.store, sys.procs, h, v, rest) == Aimed(sys.store, sys.procs, h, v, us)
    ensures |Aimed(sys.store, sys.procs, h, v, rest)| >= |FilesOf(sys.store.db, h)| + |rest| > 0
  {
    assert Aimed(sys.store, sys.procs, h, v, rest) == Aimed(sys.store, sys.procs, h, v, us) by {
      forall i | i in sys.procs && sys.procs[i].job.Id() != v && AimsAtNew(sys.procs, sys.procs[i].job, us)
        ensures AimsAtNew(sys.procs, sys.procs[i].job, rest)
      {
        var u :| u in us && u in sys.procs && sys.procs[u].job.UploadJob?
                 && sys.procs[u].job.args.id == sys.procs[i].job.id;
        assert u in rest;
      }
    }
    SubsetIsSmaller(rest, us);
    if |FilesOf(sys.store.db, h)| + |rest| == 0 {
      NobodyAims(sys, h, v);
    }
  }

  lemma StagedIsChosen(sha: Bytes -> Hash, sys: System, b: System, h: Hash, v: string, rest: set<nat>,
                       first: seq<nat>, done: seq<UploadArgs>, ds: seq<nat>)
    requires Calls(sha, sys.store, sys.procs) && AtStart(sys) && AreArgs(sys, first, |first|, done)
    requires Staged(sys.store, b.store, h, done) && Others(sys, b, first)
    requires forall u :: u in rest ==> u in first
    requires Different(ds) && forall x :: 0 <= x < |ds| ==> ds[x] in Aimed(sys.store, sys.procs, h, v, rest)
    ensures Chosen(b, h, v, ds)
  {
    forall x | 0 <= x < |ds|
      ensures ds[x] in b.procs && b.procs[ds[x]] == Begin(b.procs[ds[x]].job, {})
      ensures AimsAtOld(b.store, b.procs[ds[x]].job, h) && b.procs[ds[x]].job.id != v
    {
      AimedIsThere(sha, sys, b, h, v, rest, first, done, ds[x]);
    }
  }

  lemma AimedIsThere(sha: Bytes -> Hash, sys: System, b: System, h: Hash, v: string, rest: set<nat>,
                     first: seq<nat>, done: seq<UploadArgs>, d: nat)
    requires Calls(sha, sys.store, sys.procs) && AtStart(sys) && AreArgs(sys, first, |first|, done)
    requires Staged(sys.store, b.store, h, done) && Others(sys, b, first)
    requires (forall u :: u in rest ==> u in first) && d in Aimed(sys.store, sys.procs, h, v, rest)
    ensures d in b.procs && b.procs[d] == Begin(b.procs[d].job, {})
    ensures AimsAtOld(b.store, b.procs[d].job, h) && b.procs[d].job.id != v
  {
    var job := sys.procs[d].job;
    assert d !in first && b.procs[d] == sys.procs[d];
    if AimsAtNew(sys.procs, job, rest) {
      var u :| u in rest && u in sys.procs && sys.procs[u].job.UploadJob? && sys.procs[u].job.args.id == job.id;
      var x :| 0 <= x < |first| && first[x] == u;
      assert done[x].id == job.id;
    }
  }

  lemma OthersTwice(a: System, b: System, c: System, ds: seq<nat>)
    requires Others(a, b, ds) && Others(b, c, ds)
    ensures Others(a, c, ds)
  {
  }

  lemma ReachedJobs(sha: Bytes -> Hash, sys: System, now: System)
    requires Reaches(sha, sys, now)
    ensures now.procs.Keys == sys.procs.Keys
    ensures forall i :: i in sys.procs ==>
              now.procs[i].job == sys.procs[i].job && now.procs[i].faults == sys.procs[i].faults
  {
    var schedule :| Interleave(sha, sys, schedule) == now;
    InterleavingKeepsJobs(sha, sys, schedule);
  }

  /** Nobody but `ds` and perhaps one more has moved since `b`. */
  ghost predicate OnlyMoved(b: System, now: System, ds: seq<nat>, u: Option<nat>) {
    forall i :: i in b.procs && i !in ds && Some(i) != u ==> i in now.procs && now.procs[i] == b.procs[i]
  }

  lemma AllParked(sys: System, b: System, now: System, first: seq<nat>, ds: seq<nat>, u: Option<nat>, i: nat)
    requires Others(sys, b, first) && b.procs.Keys == sys.procs.Keys && OnlyMoved(b, now, ds, u)
    requires forall x :: 0 <= x < |first| ==> first[x] in b.procs && b.procs[first[x]].at == Finished
    requires Through(now, ds, |ds|) && (u.Some? ==> u.value in now.procs && now.procs[u.value].at == RaiseCount)
    requires i in sys.procs && i in now.procs && now.procs[i].job == sys.procs[i].job
    ensures Parked(sys.procs[i], now.procs[i])
  {
    if i in ds {
      var x :| 0 <= x < |ds| && ds[x] == i;
    } else if Some(i) != u && i in first {
      var x :| 0 <= x < |first| && first[x] == i;
    }
  }

  lemma StagedPath(sys: System, b: System, now: System, h: Hash, first: seq<nat>, done: seq<UploadArgs>,
                   ds: seq<nat>, u: Option<nat>)
    requires AreArgs(sys, first, |first|, done) && Staged(sys.store, b.store, h, done) && h in b.store.db.rows
    requires forall x :: 0 <= x < |first| ==> first[x] in b.procs && b.procs[first[x]].at == Finished
    requires forall x :: 0 <= x < |first| ==> first[x] !in ds && Some(first[x]) != u
    requires OnlyMoved(b, now, ds, u) && now.procs.Keys == sys.procs.Keys
    requires forall i :: i in sys.procs ==> now.procs[i].job == sys.procs[i].job
    ensures PathUsed(sys, now, b.store.db.rows[h].path)
  {
    var path := b.store.db.rows[h].path;
    assert PathTaken(b.store.db, path);
    if path !in sys.store.blobs {
      var x :| 0 <= x < |done| && done[x].path == path;
      assert first[x] in now.procs && now.procs[first[x]] == b.procs[first[x]];
    }
  }

  /** The deletes of the victim and the uploads that came first are none of the deletes that moved. */
  lemma ChosenAreOthers(sys: System, b: System, h: Hash, v: string, first: seq<nat>, ds: seq<nat>, i: nat)
    requires Chosen(b, h, v, ds) && i in sys.procs && i in b.procs && b.procs[i].job == sys.procs[i].job
    requires sys.procs[i].job.UploadJob? || sys.procs[i].job.id == v
    ensures i !in ds
  {
  }

  lemma BrinkIsReached(sha: Bytes -> Hash, sys: System, b: System, now: System, h: Hash, v: string, first: seq<nat>,
                       done: seq<UploadArgs>, ds: seq<nat>, u: Option<nat>)
    requires Base(sha, sys, b, h, v, first, done) && Reaches(sha, sys, now)
    requires Chosen(b, h, v, ds) && ds != [] && h in b.store.db.rows && Scene(b.store, now.store, h, v, 0)
    requires OnlyMoved(b, now, ds, u) && Through(now, ds, |ds|)
    requires ds[|ds| - 1] in now.procs && AboutToClean(now.procs[ds[|ds| - 1]], h)
    requires u.Some? ==> u.value in now.procs && now.procs[u.value].at == RaiseCount && u.value !in first
                         && now.procs[u.value].job.UploadJob?
    requires if v in FilesOf(sys.store.db, h) then v in FilesOf(now.store.db, h) else OnItsWay(sha, now, h, v)
    ensures Brink(sha, sys, now, h, v, ds[|ds| - 1])
  {
    ReachedJobs(sha, sys, b);
    ReachedJobs(sha, sys, now);
    forall x | 0 <= x < |first|
      ensures first[x] !in ds && Some(first[x]) != u
    {
      ChosenAreOthers(sys, b, h, v, first, ds, first[x]);
    }
    StagedPath(sys, b, now, h, first, done, ds, u);
    forall i | i in sys.procs
      ensures Parked(sys.procs[i], now.procs[i])
    {
      AllParked(sys, b, now, first, ds, u, i);
    }
    forall i | i in sys.procs && sys.procs[i].job.DeleteJob? && sys.procs[i].job.id == v
      ensures now.procs[i] == sys.procs[i]
    {
      ChosenAreOthers(sys, b, h, v, first, ds, i);
    }
  }

  lemma BrinkFrom(sha: Bytes -> Hash, sys: System, b: System, h: Hash, v: string, first: seq<nat>,
                  done: seq<UploadArgs>, ds: seq<nat>)
    returns (now: System)
    requires Calls(sha, sys.store, sys.procs) && AtStart(sys) && Victim(sha, sys.store, sys.procs, h, v)
    requires Base(sha, sys, b, h, v, first, done)
    requires Chosen(b, h, v, ds) && |ds| == |FilesOf(sys.store.db, h)| + |first| > 0
    ensures Brink(sha, sys, now, h, v, ds[|ds| - 1])
  {
    var found := AllFind(sha, sys, b, h, v, ds, |ds|);
    var removed := AllRemove(sha, sys, b.store, found, h, v, ds, |ds|);
    OthersTwice(b, found, removed, ds);
    if v in FilesOf(sys.store.db, h) {
      now := AllRelease(sha, sys, b.store, removed, h, v, ds, |ds|);
      OthersTwice(b, removed, now, ds);
      BrinkIsReached(sha, sys, b, now, h, v, first, done, ds, None);
    } else {
      var u :| u in Carriers(sha, sys.procs, h) && sys.procs[u].job.args.id == v;
      BaseIsFresh(sha, sys, b, h, v, first, done, u);
      ChosenAreOthers(sys, b, h, v, first, ds, u);
      now := UploadBrink(sha, sys, b, removed, h, v, first, done, ds, u);
    }
  }

  /** The upload looks up the row, and then all deletes release. */
  lemma LookUpAndRelease(sha: Bytes -> Hash, sys: System, b: Store, removed: System, h: Hash, v: string,
                         ds: seq<nat>, u: nat)
    returns (now: System)
    requires ds != [] && Different(ds) && u !in ds && h in b.db.rows && v !in b.db.files
    requires Reaches(sha, sys, removed) && Stand(removed, ds, 0, |ds|, ReleaseCount, h, v)
    requires Scene(b, removed.store, h, v, |ds|)
    requires u in removed.procs && removed.procs[u] == Begin(removed.procs[u].job, {})
    requires Carries(sha, removed.procs[u].job, h) && removed.procs[u].job.args.id == v
    requires removed.procs[u].job.args.path !in b.blobs
    ensures Reaches(sha, sys, now) && Scene(b, now.store, h, v, 0) && Through(now, ds, |ds|)
    ensures ds[|ds| - 1] in now.procs && AboutToClean(now.procs[ds[|ds| - 1]], h)
    ensures forall i :: i in removed.procs && i !in ds && i != u ==> i in now.procs && now.procs[i] == removed.procs[i]
    ensures u in now.procs && AboutToRaise(now.procs[u], removed.procs[u].job.args, h)
  {
    var ready := UploadLooksUp(sha, sys, b, removed, u, h, v, |ds|);
    ThoseStand(removed, ready, ds, u, 0, |ds|, ReleaseCount, h, v);
    now := AllRelease(sha, sys, b, ready, h, v, ds, |ds|);
    assert now.procs[u] == ready.procs[u];
  }

  lemma BaseIsFresh(sha: Bytes -> Hash, sys: System, b: System, h: Hash, v: string, first: seq<nat>,
                    done: seq<UploadArgs>, u: nat)
    requires Calls(sha, sys.store, sys.procs) && AtStart(sys) && Base(sha, sys, b, h, v, first, done)
    requires u in Carriers(sha, sys.procs, h) && sys.procs[u].job.args.id == v
    ensures u in b.procs && u !in first && b.procs[u] == Begin(sys.procs[u].job, {})
    ensures v !in b.store.db.files && sys.procs[u].job.args.path !in b.store.blobs
  {
    NextIsNew(sha, sys, first, |first|, done, u);
  }

  lemma UploadBrink(sha: Bytes -> Hash, sys: System, b: System, removed: System, h: Hash, v: string, first: seq<nat>,
                    done: seq<UploadArgs>, ds: seq<nat>, u: nat)
    returns (now: System)
    requires Base(sha, sys, b, h, v, first, done) && v !in FilesOf(sys.store.db, h)
    requires Chosen(b, h, v, ds) && ds != [] && h in b.store.db.rows && Others(b, removed, ds)
    requires Reaches(sha, sys, removed) && Stand(removed, ds, 0, |ds|, ReleaseCount, h, v)
    requires Scene(b.store, removed.store, h, v, |ds|)
    requires u in b.procs && u !in first && u !in ds && b.procs[u] == Begin(b.procs[u].job, {})
    requires Carries(sha, b.procs[u].job, h) && b.procs[u].job.args.id == v
    requires v !in b.store.db.files && b.procs[u].job.args.path !in b.store.blobs
    ensures Brink(sha, sys, now, h, v, ds[|ds| - 1])
  {
    now := LookUpAndRelease(sha, sys, b.store, removed, h, v, ds, u);
    assert OnItsWay(sha, now, h, v);
    BrinkIsReached(sha, sys, b, now, h, v, first, done, ds, Some(u));
  }

  // ---------- every unsafe batch loses a file ----------

  lemma VictimLost(sha: Bytes -> Hash, sys: System, h: Hash, v: string, us: set<nat>) returns (now: System)
    requires Calls(sha, sys.store, sys.procs) && AtStart(sys)
    requires Victim(sha, sys.store, sys.procs, h, v) && us <= Carriers(sha, sys.procs, h)
    requires !Spares(sys.store, sys.procs, h, v, us)
    ensures Reaches(sha, sys, now) && Losses.Lost(now.store, v)
  {
    var brink, d := ToTheBrink(sha, sys, h, v, us);
    if v in FilesOf(sys.store.db, h) {
      now := CleansUp(sha, sys, brink, d, h, v);
    } else {
      var attached := Attaches(sha, sys, brink, h, v, d);
      now := CleansUp(sha, sys, attached, d, h, v);
    }
  }

  /** On the brink the upload raises the count again, and inserts its file. */
  lemma Attaches(sha: Bytes -> Hash, sys: System, brink: System, h: Hash, v: string, d: nat) returns (now: System)
    requires Reaches(sha, sys, brink) && OnItsWay(sha, brink, h, v)
    requires h in brink.store.db.rows && d in brink.procs && AboutToClean(brink.procs[d], h)
    ensures Reaches(sha, sys, now) && now.procs.Keys == brink.procs.Keys && now.procs[d] == brink.procs[d]
    ensures now.store.blobs == brink.store.blobs
    ensures h in now.store.db.rows && now.store.db.rows[h].path == brink.store.db.rows[h].path
    ensures v in now.store.db.files && now.store.db.files[v].hash == h
    ensures forall i :: i in brink.procs ==>
              now.procs[i] == brink.procs[i]
              || (now.procs[i].at == Finished && now.procs[i].job == brink.procs[i].job)
  {
    var u :| u in brink.procs && Carries(sha, brink.procs[u].job, h) && brink.procs[u].job.args.id == v
             && AboutToRaise(brink.procs[u], brink.procs[u].job.args, h);
    var raised := Moves(sha, sys, brink, u);
    now := Moves(sha, sys, raised, u);
  }

  // ---------- exactly ----------

  /** In every reachable state every live file has its row and its bytes. */
  ghost predicate AlwaysServed(sha: Bytes -> Hash, sys: System)
    requires AllWellFormed(sha, sys)
  {
    forall schedule, id :: FileServed(sha, Interleave(sha, sys, schedule).store, id)
  }

  /** A batch of fault-free calls serves every live file at every moment of every interleaving, if
      and only if it is safe. */
  lemma ServedExactly(sha: Bytes -> Hash, sys: System)
    requires Calls(sha, sys.store, sys.procs) && AtStart(sys)
    ensures AllWellFormed(sha, sys)
    ensures AlwaysServed(sha, sys) <==> Safe(sha, sys.store, sys.procs)
  {
    StartIsWellFormed(sha, sys);
    if Safe(sha, sys.store, sys.procs) {
      forall schedule, id
        ensures FileServed(sha, Interleave(sha, sys, schedule).store, id)
      {
        LiveFilesAlwaysServed(sha, sys, schedule, id);
      }
    } else {
      var h: Hash, v: string, us: set<nat> :|
        Victim(sha, sys.store, sys.procs, h, v) && us <= Carriers(sha, sys.procs, h)
        && !Spares(sys.store, sys.procs, h, v, us);
      var now := VictimLost(sha, sys, h, v, us);
      var schedule :| Interleave(sha, sys, schedule) == now;
      assert !FileServed(sha, Interleave(sha, sys, schedule).store, v);
    }
  }

  // ---------- when all ids are different ----------

  /** Nobody deletes a file twice, or a file of the same batch. */
  ghost predicate DifferentIds(procs: map<nat, Proc>) {
    forall i, j :: i in procs && j in procs && i != j ==> procs[i].job.Id() != procs[j].job.Id()
  }

  predicate DeletesId(job: Job, id: string) {
    job.DeleteJob? && job.id == id
  }

  ghost predicate Untouched(procs: map<nat, Proc>, id: string) {
    forall i :: i in procs ==> !DeletesId(procs[i].job, id)
  }

  /** Some file of the hash is deleted by nobody. */
  ghost predicate Spared(s0: Store, procs: map<nat, Proc>, h: Hash) {
    exists y :: y in FilesOf(s0.db, h) && Untouched(procs, y)
  }

  lemma NewAreNotAimedAt(procs: map<nat, Proc>, i: nat, us: set<nat>)
    requires DifferentIds(procs) && i in procs
    ensures !AimsAtNew(procs, procs[i].job, us)
  {
    forall u | u in us && u in procs && procs[u].job.UploadJob? && procs[i].job.DeleteJob?
      ensures procs[u].job.args.id != procs[i].job.id
    {
      assert procs[u].job.Id() != procs[i].job.Id();
    }
  }

  lemma DifferentTargets(s0: Store, procs: map<nat, Proc>, h: Hash, v: string, us: set<nat>, rest: set<string>)
    requires DifferentIds(procs) && rest <= FilesOf(s0.db, h)
    requires forall i :: i in Aimed(s0, procs, h, v, us) ==> procs[i].job.Id() in rest
    ensures |Aimed(s0, procs, h, v, us)| <= |rest|
  {
    var target := map i | i in procs :: procs[i].job.Id();
    InjectionFits(Aimed(s0, procs, h, v, us), rest, target);
  }

  ghost function Deleter(s0: Store, procs: map<nat, Proc>, h: Hash, y: string): (i: nat)
    requires y in FilesOf(s0.db, h) && !Spared(s0, procs, h)
    ensures i in procs && DeletesId(procs[i].job, y)
  {
    assert !Untouched(procs, y);
    var i :| i in procs && DeletesId(procs[i].job, y);
    i
  }

  /** If every file of the hash is deleted by somebody, there are as many deletes as files. */
  lemma AllTargeted(s0: Store, procs: map<nat, Proc>, h: Hash, v: string)
    requires v !in FilesOf(s0.db, h) && !Spared(s0, procs, h)
    ensures |Aimed(s0, procs, h, v, {})| >= |FilesOf(s0.db, h)|
  {
    var deleter := map y | y in FilesOf(s0.db, h) :: Deleter(s0, procs, h, y);
    forall y | y in FilesOf(s0.db, h)
      ensures y in deleter && deleter[y] in Aimed(s0, procs, h, v, {})
    {
      assert AimsAtOld(s0, procs[deleter[y]].job, h);
    }
    InjectionFits(FilesOf(s0.db, h), Aimed(s0, procs, h, v, {}), deleter);
  }

  /** When all ids are different, a batch is safe if and only if every stored hash that an accepted
      upload carries keeps a file that nobody deletes. */
  lemma SafeForDifferentIds(sha: Bytes -> Hash, s0: Store, procs: map<nat, Proc>)
    requires Calls(sha, s0, procs) && DifferentIds(procs)
    ensures Safe(sha, s0, procs) <==>
      forall h :: h in s0.db.rows && Carriers(sha, procs, h) != {} ==> Spared(s0, procs, h)
  {
    if Safe(sha, s0, procs) {
      forall h | h in s0.db.rows && Carriers(sha, procs, h) != {}
        ensures Spared(s0, procs, h)
      {
        SafeSpares(sha, s0, procs, h);
      }
    } else if forall h :: h in s0.db.rows && Carriers(sha, procs, h) != {} ==> Spared(s0, procs, h) {
      var h: Hash, v: string, us: set<nat> :|
        Victim(sha, s0, procs, h, v) && us <= Carriers(sha, procs, h) && !Spares(s0, procs, h, v, us);
      SparedIsSafe(sha, s0, procs, h, v, us);
      assert false;
    }
  }

  lemma SafeSpares(sha: Bytes -> Hash, s0: Store, procs: map<nat, Proc>, h: Hash)
    requires Calls(sha, s0, procs) && Safe(sha, s0, procs) && h in s0.db.rows && Carriers(sha, procs, h) != {}
    ensures Spared(s0, procs, h)
  {
    var i :| i in Carriers(sha, procs, h);
    var v := procs[i].job.args.id;
    assert Uploads(sha, procs, h, v) && Victim(sha, s0, procs, h, v);
    assert Spares(s0, procs, h, v, {});
    NoFilesIffUnreferenced(s0.db, h);
    if !Spared(s0, procs, h) {
      AllTargeted(s0, procs, h, v);
    }
  }

  lemma SparedIsSafe(sha: Bytes -> Hash, s0: Store, procs: map<nat, Proc>, h: Hash, v: string, us: set<nat>)
    requires DifferentIds(procs) && Victim(sha, s0, procs, h, v) && us <= Carriers(sha, procs, h)
    requires h in s0.db.rows && Carriers(sha, procs, h) != {} ==> Spared(s0, procs, h)
    requires ForeignKey(s0.db)
    ensures Spares(s0, procs, h, v, us)
  {
    var y := v;
    if v !in FilesOf(s0.db, h) && FilesOf(s0.db, h) != {} {
      y :| y in FilesOf(s0.db, h) && Untouched(procs, y);
    }
    forall i | i in Aimed(s0, procs, h, v, us)
      ensures procs[i].job.Id() in FilesOf(s0.db, h) - {y}
    {
      NewAreNotAimedAt(procs, i, us);
      assert AimsAtOld(s0, procs[i].job, h) && (y == v || !DeletesId(procs[i].job, y));
    }
    DifferentTargets(s0, procs, h, v, us, FilesOf(s0.db, h) - {y});
    if y in FilesOf(s0.db, h) {
      assert |FilesOf(s0.db, h) - {y}| == |FilesOf(s0.db, h)| - 1;
    } else {
      assert FilesOf(s0.db, h) == {};
    }
  }
}
