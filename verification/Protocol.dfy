/** StorageService.Upload and StorageService.Delete as functions of the store they run on.

    A call is described by its arguments and by the set of program points at which the
    collaborator it calls fails. A failing call has no effect, except that a failing Put may
    leave a prefix of the content behind. The class StorageService runs the same steps in
    place and is proved to end in the store and the answer given here. */
module Protocol {
  import opened Wrappers
  import opened Model
  import opened Schema

  datatype Store = Store(db: Db, blobs: map<string, Bytes>)

  const EMPTY := Store(Db(map[], map[]), map[])

  /** The program points of Upload, then those of Delete, named after the call made there. */
  datatype Point =
    | PutContent | FindRow
    | DropCopy | RaiseCount | AddReference | LowerCount      // duplicate content
    | AddRow | DropUnstored | AddFirstFile | UndoRow | DropUnfiled  // new content
    | FindHash | RemoveFile | ReleaseCount | FindPath | DropContent | RemoveRow
    | Finished

  /** `accepted` is the verdict of validator.ValidateFile, `path` and `id` are the two fresh UUIDs,
      `torn` is how much of the content a failing Put leaves in the blob store. */
  datatype UploadArgs = UploadArgs(
    accepted: bool,
    name: string,
    contentType: string,
    content: Bytes,
    path: string,
    id: string,
    now: Time,
    torn: Option<nat>)

  datatype Outcome = Outcome(store: Store, result: Result<File, Error>)

  datatype DeleteOutcome = DeleteOutcome(store: Store, result: Result<(), Error>)

  // ---------- the blob store ----------

  function Put(s: Store, path: string, content: Bytes): Store {
    s.(blobs := s.blobs[path := content])
  }

  function Drop(s: Store, path: string): Store {
    s.(blobs := s.blobs - {path})
  }

  function DropUnless(fails: bool, s: Store, path: string): Store {
    if fails then s else Drop(s, path)
  }

  function TornPut(s: Store, a: UploadArgs): Store {
    if a.torn.None? then s
    else if a.torn.value <= |a.content| then Put(s, a.path, a.content[..a.torn.value])
    else Put(s, a.path, a.content)
  }

  // ---------- Upload ----------

  function NewRow(a: UploadArgs): Row {
    Row(|a.content|, a.contentType, a.path, 1, a.now, a.now)
  }

  function NewFile(sha: Bytes -> Hash, a: UploadArgs): FileRow {
    FileRow(a.name, sha(a.content), a.now)
  }

  function Upload(sha: Bytes -> Hash, s: Store, a: UploadArgs, faults: set<Point>): Outcome {
    if !a.accepted then
      Outcome(s, Failure(Rejected))
    else if PutContent in faults then
      Outcome(TornPut(s, a), Failure(BlobStore))
    else
      var s1 := Put(s, a.path, a.content);
      if FindRow !in faults && sha(a.content) in s.db.rows then
        UploadDuplicate(sha, s1, a, faults)
      else
        UploadNew(sha, s1, a, faults)
  }

  /** The content is already stored: drop the copy, raise the count, add a reference. */
  function UploadDuplicate(sha: Bytes -> Hash, s: Store, a: UploadArgs, faults: set<Point>): Outcome
    requires sha(a.content) in s.db.rows
  {
    var h := sha(a.content);
    var existing := s.db.rows[h];
    var s1 := DropUnless(DropCopy in faults, s, a.path);
    if RaiseCount in faults then
      Outcome(s1, Failure(Database))
    else
      var s2 := s1.(db := AddToCount(s1.db, h, 1, a.now));
      if AddReference in faults || !CanInsertFile(s2.db, a.id, h) then
        var s3 := if LowerCount in faults then s2 else s2.(db := AddToCount(s2.db, h, -1, a.now));
        Outcome(s3, Failure(Database))
      else
        Outcome(s2.(db := InsertFile(s2.db, a.id, NewFile(sha, a))),
                Success(Joined(a.id, NewFile(sha, a), existing)))
  }

  /** The content counts as new: add a row with count one and the first file. */
  function UploadNew(sha: Bytes -> Hash, s: Store, a: UploadArgs, faults: set<Point>): Outcome {
    var h := sha(a.content);
    if AddRow in faults || !CanInsertStorage(s.db, h, a.path) then
      Outcome(DropUnless(DropUnstored in faults, s, a.path), Failure(Database))
    else
      var s1 := s.(db := InsertStorage(s.db, h, NewRow(a)));
      if AddFirstFile in faults || !CanInsertFile(s1.db, a.id, h) then
        var s2 := if UndoRow in faults then s1 else s1.(db := DeleteStorage(s1.db, h));
        Outcome(DropUnless(DropUnfiled in faults, s2, a.path), Failure(Database))
      else
        Outcome(s1.(db := InsertFile(s1.db, a.id, NewFile(sha, a))),
                Success(Joined(a.id, NewFile(sha, a), NewRow(a))))
  }

  // ---------- Delete ----------

  /** DecrementStorageRef answers 0 next to its error, and Delete goes on with that 0. */
  function ReleasedCount(db: Db, h: Hash, faults: set<Point>): int {
    if ReleaseCount in faults || h !in db.rows then 0 else db.rows[h].count - 1
  }

  function Delete(s: Store, id: string, now: Time, faults: set<Point>): DeleteOutcome {
    if FindHash in faults || id !in s.db.files then
      DeleteOutcome(s, Failure(NotFound))
    else if RemoveFile in faults then
      DeleteOutcome(s, Failure(Database))
    else
      var h := s.db.files[id].hash;
      var s1 := s.(db := DeleteFile(s.db, id));
      var count := ReleasedCount(s1.db, h, faults);
      var s2 := if ReleaseCount in faults then s1 else s1.(db := AddToCount(s1.db, h, -1, now));
      DeleteOutcome(if count == 0 then CleanUp(s2, h, faults) else s2, Success(()))
  }

  /** The last reference is gone, or so it seems: drop the blob and the row. */
  function CleanUp(s: Store, h: Hash, faults: set<Point>): Store {
    if FindPath in faults || h !in s.db.rows then
      s
    else
      var s1 := DropUnless(DropContent in faults, s, s.db.rows[h].path);
      if RemoveRow in faults then s1 else s1.(db := DeleteStorage(s1.db, h))
  }

  // ---------- sequential runs ----------

  datatype Op =
    | UploadOp(args: UploadArgs, faults: set<Point>)
    | DeleteOp(id: string, now: Time, faults: set<Point>)

  function Apply(sha: Bytes -> Hash, s: Store, op: Op): Store {
    match op
    case UploadOp(a, faults) => Upload(sha, s, a, faults).store
    case DeleteOp(id, now, faults) => Delete(s, id, now, faults).store
  }

  function Succeeds(sha: Bytes -> Hash, s: Store, op: Op): bool {
    match op
    case UploadOp(a, faults) => Upload(sha, s, a, faults).result.Success?
    case DeleteOp(id, now, faults) => Delete(s, id, now, faults).result.Success?
  }

  function Run(sha: Bytes -> Hash, s: Store, ops: seq<Op>): Store
    decreases |ops|
  {
    if ops == [] then s else Run(sha, Apply(sha, s, ops[0]), ops[1..])
  }

  /** An upload draws its path and its id from a UUID generator: neither is in use. */
  ghost predicate Fresh(s: Store, op: Op) {
    op.UploadOp? ==>
      op.args.path !in s.blobs && !PathTaken(s.db, op.args.path) && op.args.id !in s.db.files
  }

  ghost predicate FreshRun(sha: Bytes -> Hash, s: Store, ops: seq<Op>)
    decreases |ops|
  {
    ops == [] || (Fresh(s, ops[0]) && FreshRun(sha, Apply(sha, s, ops[0]), ops[1..]))
  }

  predicate FaultFree(ops: seq<Op>) {
    forall i :: 0 <= i < |ops| ==> ops[i].faults == {}
  }

  lemma SchemaKept(sha: Bytes -> Hash, s: Store, op: Op)
    requires SchemaHolds(s.db)
    ensures SchemaHolds(Apply(sha, s, op).db)
  {
  }

  lemma {:induction false} SchemaKeptRun(sha: Bytes -> Hash, s: Store, ops: seq<Op>)
    requires SchemaHolds(s.db)
    ensures SchemaHolds(Run(sha, s, ops).db)
    decreases |ops|
  {
    if ops == [] {
    } else {
      SchemaKept(sha, s, ops[0]);
      SchemaKeptRun(sha, Apply(sha, s, ops[0]), ops[1..]);
    }
  }
}
