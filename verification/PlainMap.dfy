/** Sequential runs of the deduplicated store, seen as runs of a plain map id -> (name, bytes). */
module PlainMap {
  import opened Model
  import opened Schema
  import opened Protocol
  import opened Refinement

  datatype Entry = Entry(name: string, content: Bytes)

  type Plain = map<string, Entry>

  /** The bytes served for a file: those under the path of its row. */
  ghost function ContentOf(s: Store, id: string): Bytes
    requires id in s.db.files && s.db.files[id].hash in s.db.rows
    requires s.db.rows[s.db.files[id].hash].path in s.blobs
  {
    s.blobs[s.db.rows[s.db.files[id].hash].path]
  }

  ghost predicate Served(s: Store) {
    forall id :: id in s.db.files ==>
      s.db.files[id].hash in s.db.rows && s.db.rows[s.db.files[id].hash].path in s.blobs
  }

  lemma SoundServes(sha: Bytes -> Hash, s: Store)
    requires Sound(sha, s)
    ensures Served(s)
  {
    forall id | id in s.db.files
      ensures s.db.rows[s.db.files[id].hash].path in s.blobs
    {
      assert RowBacked(sha, s, s.db.files[id].hash);
    }
  }

  ghost function Abs(s: Store): Plain
    requires Served(s)
  {
    map id | id in s.db.files :: Entry(s.db.files[id].name, ContentOf(s, id))
  }

  /** The plain map after an operation: a failed one changes nothing. */
  function PlainStep(m: Plain, op: Op, succeeded: bool): Plain {
    if !succeeded then m
    else match op
      case UploadOp(a, faults) => m[a.id := Entry(a.name, a.content)]
      case DeleteOp(id, now, faults) => m - {id}
  }

  // ---------- one operation ----------

  /** Contents whose digest is already stored are the stored contents. */
  ghost predicate NoCollision(sha: Bytes -> Hash, s: Store, content: Bytes) {
    forall h :: h in s.db.rows && h == sha(content) && s.db.rows[h].path in s.blobs ==>
      s.blobs[s.db.rows[h].path] == content
  }

  /** What an upload leaves alone, and what it adds when it succeeds. */
  ghost predicate UploadEffect(sha: Bytes -> Hash, s: Store, s': Store, a: UploadArgs, ok: bool) {
    && s'.db.files == (if ok then s.db.files[a.id := NewFile(sha, a)] else s.db.files)
    && (forall h :: h in s.db.rows ==> h in s'.db.rows && s'.db.rows[h].path == s.db.rows[h].path)
    && (forall p :: p in s.blobs ==> p in s'.blobs && s'.blobs[p] == s.blobs[p])
    && (forall h :: h in s'.db.rows && h !in s.db.rows ==> h == sha(a.content) && s'.db.rows[h].path == a.path)
    && (ok ==> sha(a.content) in s'.db.rows)
    && (ok && sha(a.content) !in s.db.rows ==> a.path in s'.blobs)
    && (a.path in s'.blobs && sha(a.content) in s'.db.rows && sha(a.content) !in s.db.rows ==>
          s'.blobs[a.path] == a.content)
  }

  lemma UploadHasEffect(sha: Bytes -> Hash, s: Store, a: UploadArgs, faults: set<Point>)
    requires Fresh(s, UploadOp(a, faults))
    ensures UploadEffect(sha, s, Upload(sha, s, a, faults).store, a, Upload(sha, s, a, faults).result.Success?)
  {
    if a.accepted && PutContent !in faults {
      var s1 := Put(s, a.path, a.content);
      if FindRow !in faults && sha(a.content) in s.db.rows {
        DuplicateFilesAndPaths(sha, s1, a, faults);
      } else {
        NewFilesAndPaths(sha, s1, a, faults);
      }
    }
  }

  lemma AbsAfterUpload(sha: Bytes -> Hash, s: Store, s': Store, a: UploadArgs, ok: bool)
    requires Served(s) && Served(s') && UploadEffect(sha, s, s', a, ok)
    requires a.id !in s.db.files && NoCollision(sha, s, a.content)
    requires sha(a.content) in s.db.rows ==> s.db.rows[sha(a.content)].path in s.blobs
    ensures Abs(s') == if ok then Abs(s)[a.id := Entry(a.name, a.content)] else Abs(s)
  {
  }

  lemma UploadRefines(sha: Bytes -> Hash, s: Store, a: UploadArgs, faults: set<Point>, s': Store, ok: bool)
    requires Sound(sha, s) && Sound(sha, s') && UploadEffect(sha, s, s', a, ok)
    requires a.id !in s.db.files && NoCollision(sha, s, a.content)
    ensures Served(s) && Served(s') && Abs(s') == PlainStep(Abs(s), UploadOp(a, faults), ok)
  {
    SoundServes(sha, s);
    SoundServes(sha, s');
    if sha(a.content) in s.db.rows {
      assert RowBacked(sha, s, sha(a.content));
    }
    AbsAfterUpload(sha, s, s', a, ok);
  }

  lemma DuplicateFilesAndPaths(sha: Bytes -> Hash, s: Store, a: UploadArgs, faults: set<Point>)
    requires sha(a.content) in s.db.rows
    ensures var s' := UploadDuplicate(sha, s, a, faults).store;
            var ok := UploadDuplicate(sha, s, a, faults).result.Success?;
            && s'.db.files == (if ok then s.db.files[a.id := NewFile(sha, a)] else s.db.files)
            && (forall h :: h in s.db.rows ==> h in s'.db.rows && s'.db.rows[h].path == s.db.rows[h].path)
            && (s'.blobs == s.blobs || s'.blobs == s.blobs - {a.path})
            && s'.db.rows.Keys == s.db.rows.Keys
  {
  }

  lemma NewFilesAndPaths(sha: Bytes -> Hash, s: Store, a: UploadArgs, faults: set<Point>)
    ensures var s' := UploadNew(sha, s, a, faults).store;
            var ok := UploadNew(sha, s, a, faults).result.Success?;
            && s'.db.files == (if ok then s.db.files[a.id := NewFile(sha, a)] else s.db.files)
            && (forall h :: h in s.db.rows ==> h in s'.db.rows && s'.db.rows[h].path == s.db.rows[h].path)
            && (s'.blobs == s.blobs || (!ok && s'.blobs == s.blobs - {a.path}))
            && (ok ==> sha(a.content) !in s.db.rows && sha(a.content) in s'.db.rows)
            && (forall h :: h in s'.db.rows && h !in s.db.rows ==> h == sha(a.content) && s'.db.rows[h].path == a.path)
  {
  }

  /** Delete changes no path and no blob's bytes, and removes the one file if it succeeds. */
  ghost predicate DeleteEffect(s: Store, s': Store, id: string, ok: bool) {
    && s'.db.files == (if ok then s.db.files - {id} else s.db.files)
    && (forall h :: h in s'.db.rows ==> h in s.db.rows && s'.db.rows[h].path == s.db.rows[h].path)
    && (forall p :: p in s'.blobs ==> p in s.blobs && s'.blobs[p] == s.blobs[p])
  }

  lemma CleanUpOnlyRemoves(s: Store, h: Hash, faults: set<Point>)
    ensures var s' := CleanUp(s, h, faults);
            && s'.db.files == s.db.files
            && (forall g :: g in s'.db.rows ==> g in s.db.rows && s'.db.rows[g] == s.db.rows[g])
            && (forall p :: p in s'.blobs ==> p in s.blobs && s'.blobs[p] == s.blobs[p])
  {
  }

  lemma DeleteHasEffect(s: Store, id: string, now: Time, faults: set<Point>)
    ensures DeleteEffect(s, Delete(s, id, now, faults).store, id, Delete(s, id, now, faults).result.Success?)
  {
    if FindHash !in faults && id in s.db.files && RemoveFile !in faults {
      var h := s.db.files[id].hash;
      var removed := DeleteFile(s.db, id);
      var released := if ReleaseCount in faults then removed else AddToCount(removed, h, -1, now);
      CleanUpOnlyRemoves(s.(db := released), h, faults);
    }
  }

  lemma DeleteRefines(sha: Bytes -> Hash, s: Store, id: string, now: Time, faults: set<Point>, s': Store, ok: bool)
    requires Sound(sha, s) && Sound(sha, s') && DeleteEffect(s, s', id, ok)
    ensures Served(s) && Served(s') && Abs(s') == PlainStep(Abs(s), DeleteOp(id, now, faults), ok)
  {
    SoundServes(sha, s);
    SoundServes(sha, s');
  }

  // ---------- runs ----------

  function ContentsOf(ops: seq<Op>): set<Bytes> {
    set i | 0 <= i < |ops| && ops[i].UploadOp? :: ops[i].args.content
  }

  ghost predicate InjectiveOn(sha: Bytes -> Hash, contents: set<Bytes>) {
    forall b, c :: b in contents && c in contents && sha(b) == sha(c) ==> b == c
  }

  /** Every blob that a row points to is one of the contents seen. */
  ghost predicate BlobsAmong(s: Store, seen: set<Bytes>) {
    forall h :: h in s.db.rows && s.db.rows[h].path in s.blobs ==> s.blobs[s.db.rows[h].path] in seen
  }

  lemma BlobsAmongKept(sha: Bytes -> Hash, s: Store, s': Store, a: UploadArgs, ok: bool, seen: set<Bytes>)
    requires Backed(sha, s) && UploadEffect(sha, s, s', a, ok)
    requires BlobsAmong(s, seen) && a.content in seen
    ensures BlobsAmong(s', seen)
  {
    forall h | h in s'.db.rows && s'.db.rows[h].path in s'.blobs
      ensures s'.blobs[s'.db.rows[h].path] in seen
    {
      if h in s.db.rows {
        assert RowBacked(sha, s, h);
      }
    }
  }

  /** One operation that strands no row: it happens completely, or fails and changes nothing. */
  lemma StepRefines(sha: Bytes -> Hash, s: Store, op: Op, seen: set<Bytes>)
    requires Sound(sha, s) && Fresh(s, op) && !Strands(sha, s, op)
    requires BlobsAmong(s, seen) && InjectiveOn(sha, seen) && (op.UploadOp? ==> op.args.content in seen)
    ensures var s' := Apply(sha, s, op);
            && Sound(sha, s') && BlobsAmong(s', seen) && Served(s) && Served(s')
            && Abs(s') == PlainStep(Abs(s), op, Succeeds(sha, s, op))
  {
    SoundExactly(sha, s, op);
    match op {
      case UploadOp(a, faults) =>
        UploadHasEffect(sha, s, a, faults);
        StepRefinesUpload(sha, s, Apply(sha, s, op), a, faults, Succeeds(sha, s, op), seen);
      case DeleteOp(id, now, faults) =>
        DeleteHasEffect(s, id, now, faults);
        DeleteRefines(sha, s, id, now, faults, Apply(sha, s, op), Succeeds(sha, s, op));
    }
  }

  lemma StepRefinesUpload(sha: Bytes -> Hash, s: Store, s': Store, a: UploadArgs, faults: set<Point>, ok: bool,
                          seen: set<Bytes>)
    requires Sound(sha, s) && Sound(sha, s') && UploadEffect(sha, s, s', a, ok) && a.id !in s.db.files
    requires BlobsAmong(s, seen) && InjectiveOn(sha, seen) && a.content in seen
    ensures BlobsAmong(s', seen) && Served(s) && Served(s')
    ensures Abs(s') == PlainStep(Abs(s), UploadOp(a, faults), ok)
  {
    BlobsAmongKept(sha, s, s', a, ok, seen);
    forall h | h in s.db.rows && h == sha(a.content) && s.db.rows[h].path in s.blobs
      ensures s.blobs[s.db.rows[h].path] == a.content
    {
      assert RowBacked(sha, s, h);
    }
    UploadRefines(sha, s, a, faults, s', ok);
  }

  ghost function PlainRun(sha: Bytes -> Hash, s: Store, ops: seq<Op>, m: Plain): Plain
    decreases |ops|
  {
    if ops == [] then m
    else PlainRun(sha, Apply(sha, s, ops[0]), ops[1..], PlainStep(m, ops[0], Succeeds(sha, s, ops[0])))
  }

  ghost predicate StrandsNothing(sha: Bytes -> Hash, s: Store, ops: seq<Op>)
    decreases |ops|
  {
    ops == [] || (!Strands(sha, s, ops[0]) && StrandsNothing(sha, Apply(sha, s, ops[0]), ops[1..]))
  }

  /** Main refinement: a run of fresh uploads and deletes with arbitrary faults, none of which
      strands a row, on a store whose digests are injective on the contents seen, is a run of
      the plain map in which failed operations are skipped. Every live id serves exactly the
      bytes uploaded under it, however many duplicates came and went. */
  lemma {:induction false} RunRefines(sha: Bytes -> Hash, s: Store, ops: seq<Op>, seen: set<Bytes>)
    requires Sound(sha, s) && FreshRun(sha, s, ops) && StrandsNothing(sha, s, ops)
    requires BlobsAmong(s, seen) && InjectiveOn(sha, seen) && ContentsOf(ops) <= seen
    ensures Sound(sha, Run(sha, s, ops)) && Served(s) && Served(Run(sha, s, ops))
    ensures Abs(Run(sha, s, ops)) == PlainRun(sha, s, ops, Abs(s))
    decreases |ops|
  {
    SoundServes(sha, s);
    if ops == [] {
    } else {
      assert ops[0].UploadOp? ==> ops[0].args.content in ContentsOf(ops);
      forall c | c in ContentsOf(ops[1..])
        ensures c in ContentsOf(ops)
      {
        var i :| 0 <= i < |ops[1..]| && ops[1..][i].UploadOp? && ops[1..][i].args.content == c;
        assert ops[i + 1].UploadOp? && ops[i + 1].args.content == c;
      }
      StepRefines(sha, s, ops[0], seen);
      RunRefines(sha, Apply(sha, s, ops[0]), ops[1..], seen);
    }
  }

  // ---------- faults away from three points ----------

  /** The faults avoid the first-file insert, the decrement of Delete and its final DELETE. */
  predicate AvoidsStranding(ops: seq<Op>) {
    forall i :: 0 <= i < |ops| ==> ops[i].faults !! {AddFirstFile, ReleaseCount, RemoveRow}
  }

  lemma AvoidingStrandsNothing(sha: Bytes -> Hash, s: Store, op: Op)
    requires op.faults !! {AddFirstFile, ReleaseCount, RemoveRow}
    ensures !Strands(sha, s, op)
  {
  }

  lemma {:induction false} AvoidingRunStrandsNothing(sha: Bytes -> Hash, s: Store, ops: seq<Op>)
    requires AvoidsStranding(ops)
    ensures StrandsNothing(sha, s, ops)
    decreases |ops|
  {
    if ops == [] {
    } else {
      AvoidingStrandsNothing(sha, s, ops[0]);
      AvoidingRunStrandsNothing(sha, Apply(sha, s, ops[0]), ops[1..]);
    }
  }

  lemma EmptyStoreIsSound(sha: Bytes -> Hash)
    ensures Sound(sha, EMPTY) && BlobsAmong(EMPTY, {}) && Served(EMPTY) && Abs(EMPTY) == map[]
  {
  }

  /** Fault tolerance from the empty store: the three points are the only ones that matter. */
  lemma FaultTolerance(sha: Bytes -> Hash, ops: seq<Op>)
    requires FreshRun(sha, EMPTY, ops) && AvoidsStranding(ops) && InjectiveOn(sha, ContentsOf(ops))
    ensures Sound(sha, Run(sha, EMPTY, ops)) && Served(Run(sha, EMPTY, ops))
    ensures Abs(Run(sha, EMPTY, ops)) == PlainRun(sha, EMPTY, ops, map[])
  {
    EmptyStoreIsSound(sha);
    AvoidingRunStrandsNothing(sha, EMPTY, ops);
    RunRefines(sha, EMPTY, ops, ContentsOf(ops));
    assert Abs(EMPTY) == map[];
  }

  // ---------- fault-free runs need no answers from the store ----------

  /** What a fault-free operation does to the plain map, whatever the store looks like. */
  function PlainOp(m: Plain, op: Op): Plain {
    match op
    case UploadOp(a, faults) => if a.accepted then m[a.id := Entry(a.name, a.content)] else m
    case DeleteOp(id, now, faults) => m - {id}
  }

  function PlainOps(m: Plain, ops: seq<Op>): Plain
    decreases |ops|
  {
    if ops == [] then m else PlainOps(PlainOp(m, ops[0]), ops[1..])
  }

  /** Without faults an upload succeeds exactly when it is accepted, a delete exactly when its file exists. */
  lemma FaultFreeAnswers(sha: Bytes -> Hash, s: Store, op: Op)
    requires op.faults == {} && Fresh(s, op)
    ensures Succeeds(sha, s, op) <==>
      match op
      case UploadOp(a, faults) => a.accepted
      case DeleteOp(id, now, faults) => id in s.db.files
  {
  }

  lemma {:induction false} FaultFreeRunIsPlain(sha: Bytes -> Hash, s: Store, ops: seq<Op>, seen: set<Bytes>)
    requires Sound(sha, s) && FreshRun(sha, s, ops) && FaultFree(ops)
    requires BlobsAmong(s, seen) && InjectiveOn(sha, seen) && ContentsOf(ops) <= seen
    ensures Served(s) && Served(Run(sha, s, ops)) && Sound(sha, Run(sha, s, ops))
    ensures Abs(Run(sha, s, ops)) == PlainOps(Abs(s), ops)
    decreases |ops|
  {
    SoundServes(sha, s);
    if ops == [] {
    } else {
      AvoidingStrandsNothing(sha, s, ops[0]);
      assert ops[0].UploadOp? ==> ops[0].args.content in ContentsOf(ops);
      forall c | c in ContentsOf(ops[1..])
        ensures c in ContentsOf(ops)
      {
        var i :| 0 <= i < |ops[1..]| && ops[1..][i].UploadOp? && ops[1..][i].args.content == c;
        assert ops[i + 1].UploadOp? && ops[i + 1].args.content == c;
      }
      StepRefines(sha, s, ops[0], seen);
      FaultFreeAnswers(sha, s, ops[0]);
      assert PlainStep(Abs(s), ops[0], Succeeds(sha, s, ops[0])) == PlainOp(Abs(s), ops[0]);
      FaultFreeRunIsPlain(sha, Apply(sha, s, ops[0]), ops[1..], seen);
    }
  }

  /** From the empty store, a fault-free run is the plain map. */
  lemma DeduplicationIsInvisible(sha: Bytes -> Hash, ops: seq<Op>)
    requires FreshRun(sha, EMPTY, ops) && FaultFree(ops) && InjectiveOn(sha, ContentsOf(ops))
    ensures Served(Run(sha, EMPTY, ops)) && Abs(Run(sha, EMPTY, ops)) == PlainOps(map[], ops)
  {
    EmptyStoreIsSound(sha);
    FaultFreeRunIsPlain(sha, EMPTY, ops, ContentsOf(ops));
    assert Abs(EMPTY) == map[];
  }
}
