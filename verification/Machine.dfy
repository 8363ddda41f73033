/** Any number of Upload and Delete calls, interleaved at every statement and every blob call.

    The service takes no lock and opens no transaction, so a call is a process with a program
    counter, and each SQL statement or blob operation is one atomic step. */
module Machine {
  import opened Wrappers
  import opened Model
  import opened Schema
  import opened Listing
  import opened Protocol

  datatype Job =
    | UploadJob(args: UploadArgs)
    | DeleteJob(id: string, now: Time)
  {
    function Id(): string {
      if UploadJob? then args.id else id
    }
  }

  /** What a process owes the count of its hash. A claim is a count raised without its file row
      yet, or a file row removed without its count lowered yet; a leak is a claim it gave up. */
  datatype Debt = Nothing | Claim | Leak

  /** `at` is the next call; `hash`, `read` and `seen` are the locals checksum or storageHash,
      existingStorage or storage, and newRefCount. `debt` is bookkeeping for the proofs. */
  datatype Proc = Proc(
    job: Job,
    faults: set<Point>,
    at: Point,
    hash: Option<Hash>,
    read: Option<Row>,
    seen: Option<int>,
    debt: Debt,
    answer: Option<Result<Option<File>, Error>>)
  {
    function Fails(): bool { at in faults }

    function Finish(result: Result<Option<File>, Error>): Proc {
      this.(at := Finished, answer := Some(result))
    }

    predicate Owes(h: Hash) {
      debt != Nothing && hash == Some(h)
    }
  }

  predicate UploadPoint(p: Point) {
    p in {PutContent, FindRow, DropCopy, RaiseCount, AddReference, LowerCount,
          AddRow, DropUnstored, AddFirstFile, UndoRow, DropUnfiled}
  }

  predicate DeletePoint(p: Point) {
    p in {FindHash, RemoveFile, ReleaseCount, FindPath, DropContent, RemoveRow}
  }

  /** The locals are set where the code reads them. */
  ghost predicate WellFormed(sha: Bytes -> Hash, p: Proc) {
    && (p.at.Finished? || (if p.job.UploadJob? then UploadPoint(p.at) else DeletePoint(p.at)))
    && (p.job.UploadJob? && p.at != PutContent && p.at != Finished ==> p.hash == Some(sha(p.job.args.content)))
    && (p.job.DeleteJob? && p.at != FindHash && p.at != Finished ==> p.hash.Some?)
    && (p.at in {DropCopy, RaiseCount, AddReference, DropContent} ==> p.read.Some?)
    && (p.debt == Claim ==> p.at in {AddReference, LowerCount, AddFirstFile, ReleaseCount})
    && (p.at in {AddReference, LowerCount, AddFirstFile} ==> p.debt == Claim)
    && (p.debt == Leak ==> p.at in {UndoRow, DropUnfiled, FindPath, DropContent, RemoveRow, Finished})
    && (p.debt != Nothing ==> p.hash.Some?)
    && (p.at == Finished <==> p.answer.Some?)
  }

  function Begin(job: Job, faults: set<Point>): Proc {
    Proc(job, faults, if job.UploadJob? then PutContent else FindHash, None, None, None, Nothing, None)
  }

  function GiveUp(db: Db, h: Hash): Debt {
    if h in db.rows then Leak else Nothing
  }

  function StepUpload(sha: Bytes -> Hash, s: Store, p: Proc): (Store, Proc)
    requires WellFormed(sha, p) && p.job.UploadJob? && p.at != Finished
  {
    var a := p.job.args;
    var h := sha(a.content);
    match p.at
    case PutContent =>
      if !a.accepted then (s, p.Finish(Failure(Rejected)))
      else if p.Fails() then (TornPut(s, a), p.Finish(Failure(BlobStore)))
      else (Put(s, a.path, a.content), p.(at := FindRow, hash := Some(h)))
    case FindRow =>
      if !p.Fails() && h in s.db.rows then (s, p.(at := DropCopy, read := Some(s.db.rows[h])))
      else (s, p.(at := AddRow))
    case DropCopy =>
      (DropUnless(p.Fails(), s, a.path), p.(at := RaiseCount))
    case RaiseCount =>
      if p.Fails() then (s, p.Finish(Failure(Database)))
      else (s.(db := AddToCount(s.db, h, 1, a.now)), p.(at := AddReference, debt := Claim))
    case AddReference =>
      if p.Fails() || !CanInsertFile(s.db, a.id, h) then (s, p.(at := LowerCount))
      else (s.(db := InsertFile(s.db, a.id, NewFile(sha, a))),
            p.(debt := Nothing).Finish(Success(Some(Joined(a.id, NewFile(sha, a), p.read.value)))))
    case LowerCount =>
      if p.Fails() then (s, p.(debt := GiveUp(s.db, h)).Finish(Failure(Database)))
      else (s.(db := AddToCount(s.db, h, -1, a.now)), p.(debt := Nothing).Finish(Failure(Database)))
    case AddRow =>
      if p.Fails() || !CanInsertStorage(s.db, h, a.path) then (s, p.(at := DropUnstored))
      else (s.(db := InsertStorage(s.db, h, NewRow(a))), p.(at := AddFirstFile, debt := Claim))
    case DropUnstored =>
      (DropUnless(p.Fails(), s, a.path), p.Finish(Failure(Database)))
    case AddFirstFile =>
      if p.Fails() || !CanInsertFile(s.db, a.id, h) then (s, p.(at := UndoRow, debt := GiveUp(s.db, h)))
      else (s.(db := InsertFile(s.db, a.id, NewFile(sha, a))),
            p.(debt := Nothing).Finish(Success(Some(Joined(a.id, NewFile(sha, a), NewRow(a))))))
    case UndoRow =>
      (if p.Fails() then s else s.(db := DeleteStorage(s.db, h)), p.(at := DropUnfiled))
    case DropUnfiled =>
      (DropUnless(p.Fails(), s, a.path), p.Finish(Failure(Database)))
  }

  function StepDelete(sha: Bytes -> Hash, s: Store, p: Proc): (Store, Proc)
    requires WellFormed(sha, p) && p.job.DeleteJob? && p.at != Finished
  {
    var DeleteJob(id, now) := p.job;
    if p.at == FindHash then
      if p.Fails() || id !in s.db.files then (s, p.Finish(Failure(NotFound)))
      else (s, p.(at := RemoveFile, hash := Some(s.db.files[id].hash)))
    else
      var h := p.hash.value;
      match p.at
      case RemoveFile =>
        if p.Fails() then (s, p.Finish(Failure(Database)))
        else (s.(db := DeleteFile(s.db, id)),
              p.(at := ReleaseCount, debt := if id in s.db.files then Claim else Nothing))
      case ReleaseCount =>
        var count := ReleasedCount(s.db, h, p.faults);
        var p' := p.(seen := Some(count),
                     debt := if p.Fails() && p.debt == Claim then GiveUp(s.db, h) else Nothing);
        (if p.Fails() then s else s.(db := AddToCount(s.db, h, -1, now)),
         if count == 0 then p'.(at := FindPath) else p'.Finish(Success(None)))
      case FindPath =>
        if p.Fails() || h !in s.db.rows then (s, p.Finish(Success(None)))
        else (s, p.(at := DropContent, read := Some(s.db.rows[h])))
      case DropContent =>
        (DropUnless(p.Fails(), s, p.read.value.path), p.(at := RemoveRow))
      case RemoveRow =>
        (if p.Fails() then s else s.(db := DeleteStorage(s.db, h)), p.Finish(Success(None)))
  }

  function Step(sha: Bytes -> Hash, s: Store, p: Proc): (Store, Proc)
    requires WellFormed(sha, p)
  {
    if p.at == Finished then (s, p)
    else if p.job.UploadJob? then StepUpload(sha, s, p)
    else StepDelete(sha, s, p)
  }

  /** Steps a process can still take. */
  function Ahead(p: Point): nat {
    match p
    case PutContent => 7
    case FindRow => 6
    case DropCopy => 5
    case RaiseCount => 4
    case AddReference => 3
    case LowerCount => 2
    case AddRow => 5
    case DropUnstored => 1
    case AddFirstFile => 4
    case UndoRow => 2
    case DropUnfiled => 1
    case FindHash => 7
    case RemoveFile => 6
    case ReleaseCount => 5
    case FindPath => 4
    case DropContent => 3
    case RemoveRow => 2
    case Finished => 0
  }

  lemma StepAdvances(sha: Bytes -> Hash, s: Store, p: Proc)
    requires WellFormed(sha, p)
    ensures var p' := Step(sha, s, p).1;
            && WellFormed(sha, p') && p'.job == p.job && p'.faults == p.faults
            && (p.at != Finished ==> Ahead(p'.at) < Ahead(p.at))
  {
    if p.job.UploadJob? && p.at != Finished {
      UploadStepAdvances(sha, s, p);
    } else if p.at != Finished {
      DeleteStepAdvances(sha, s, p);
    }
  }

  lemma UploadStepAdvances(sha: Bytes -> Hash, s: Store, p: Proc)
    requires WellFormed(sha, p) && p.job.UploadJob? && p.at != Finished
    ensures var p' := StepUpload(sha, s, p).1;
            && WellFormed(sha, p') && p'.job == p.job && p'.faults == p.faults
            && Ahead(p'.at) < Ahead(p.at)
  {
  }

  lemma DeleteStepAdvances(sha: Bytes -> Hash, s: Store, p: Proc)
    requires WellFormed(sha, p) && p.job.DeleteJob? && p.at != Finished
    ensures var p' := StepDelete(sha, s, p).1;
            && WellFormed(sha, p') && p'.job == p.job && p'.faults == p.faults
            && Ahead(p'.at) < Ahead(p.at)
  {
  }

  lemma StepKeepsSchema(sha: Bytes -> Hash, s: Store, p: Proc)
    requires WellFormed(sha, p) && SchemaHolds(s.db)
    ensures SchemaHolds(Step(sha, s, p).0.db)
  {
  }

  // ---------- many processes ----------

  datatype System = System(store: Store, procs: map<nat, Proc>)

  ghost predicate AllWellFormed(sha: Bytes -> Hash, sys: System) {
    forall i :: i in sys.procs ==> WellFormed(sha, sys.procs[i])
  }

  /** One step of process `i`; an absent or finished process does nothing. */
  ghost function Turn(sha: Bytes -> Hash, sys: System, i: nat): System
    requires AllWellFormed(sha, sys)
  {
    if i in sys.procs then
      var (store, p) := Step(sha, sys.store, sys.procs[i]);
      System(store, sys.procs[i := p])
    else
      sys
  }

  lemma TurnKeepsForm(sha: Bytes -> Hash, sys: System, i: nat)
    requires AllWellFormed(sha, sys)
    ensures AllWellFormed(sha, Turn(sha, sys, i))
  {
    if i in sys.procs {
      StepAdvances(sha, sys.store, sys.procs[i]);
    }
  }

  /** The system after a schedule: any interleaving is some sequence of process numbers. */
  ghost function Interleave(sha: Bytes -> Hash, sys: System, schedule: seq<nat>): System
    requires AllWellFormed(sha, sys)
    decreases |schedule|
  {
    if schedule == [] then sys
    else
      TurnKeepsForm(sha, sys, schedule[0]);
      Interleave(sha, Turn(sha, sys, schedule[0]), schedule[1..])
  }

  /** Whatever interleaves and whatever fails, the constraints hold in every reachable state. */
  lemma {:induction false} SchemaAlwaysHolds(sha: Bytes -> Hash, sys: System, schedule: seq<nat>)
    requires AllWellFormed(sha, sys) && SchemaHolds(sys.store.db)
    ensures SchemaHolds(Interleave(sha, sys, schedule).store.db)
    decreases |schedule|
  {
    if schedule == [] {
    } else {
      TurnKeepsForm(sha, sys, schedule[0]);
      if schedule[0] in sys.procs {
        StepKeepsSchema(sha, sys.store, sys.procs[schedule[0]]);
      }
      SchemaAlwaysHolds(sha, Turn(sha, sys, schedule[0]), schedule[1..]);
    }
  }

  /** In every reachable state the inner join drops no file: List shows each file once, with its
      own row, newest first. */
  lemma ListAlwaysComplete(sha: Bytes -> Hash, sys: System, schedule: seq<nat>, order: seq<string>, id: string)
    requires AllWellFormed(sha, sys) && SchemaHolds(sys.store.db)
    requires IsOrder(Interleave(sha, sys, schedule).store.db, order)
    ensures var db := Interleave(sha, sys, schedule).store.db;
            && (id in db.files ==> ListedOnce(JoinAll(db, order), id))
            && (forall f :: f in JoinAll(db, order) ==> HasOwnRow(db, f))
  {
    SchemaAlwaysHolds(sha, sys, schedule);
    ListIsComplete(Interleave(sha, sys, schedule).store.db, order);
  }

  /** Some schedule leads from one system to the other. */
  ghost predicate Reaches(sha: Bytes -> Hash, from: System, to: System) {
    AllWellFormed(sha, from) && exists schedule :: Interleave(sha, from, schedule) == to
  }

  lemma {:induction false} TurnAtTheEnd(sha: Bytes -> Hash, sys: System, schedule: seq<nat>, i: nat)
    requires AllWellFormed(sha, sys)
    ensures AllWellFormed(sha, Interleave(sha, sys, schedule))
    ensures Interleave(sha, sys, schedule + [i]) == Turn(sha, Interleave(sha, sys, schedule), i)
    decreases |schedule|
  {
    if schedule == [] {
      TurnKeepsForm(sha, sys, i);
      assert [i][1..] == [];
    } else {
      TurnKeepsForm(sha, sys, schedule[0]);
      TurnAtTheEnd(sha, Turn(sha, sys, schedule[0]), schedule[1..], i);
      assert (schedule + [i])[1..] == schedule[1..] + [i];
    }
  }

  lemma ReachesTurn(sha: Bytes -> Hash, from: System, to: System, i: nat)
    requires Reaches(sha, from, to)
    ensures AllWellFormed(sha, to) && Reaches(sha, from, Turn(sha, to, i))
  {
    var schedule :| Interleave(sha, from, schedule) == to;
    TurnAtTheEnd(sha, from, schedule, i);
  }

  /** All processes are about to start. */
  predicate AtStart(sys: System) {
    forall i :: i in sys.procs ==> sys.procs[i] == Begin(sys.procs[i].job, sys.procs[i].faults)
  }

  predicate Quiescent(sys: System) {
    forall i :: i in sys.procs ==> sys.procs[i].at == Finished
  }

  lemma StartIsWellFormed(sha: Bytes -> Hash, sys: System)
    requires AtStart(sys)
    ensures AllWellFormed(sha, sys)
  {
  }

  // ---------- a process on its own is the sequential operation ----------

  function Alone(sha: Bytes -> Hash, s: Store, p: Proc): (Store, Proc)
    requires WellFormed(sha, p)
    decreases Ahead(p.at)
  {
    if p.at == Finished then (s, p)
    else
      StepAdvances(sha, s, p);
      var (s', p') := Step(sha, s, p);
      Alone(sha, s', p')
  }

  lemma {:induction false} AloneFinishes(sha: Bytes -> Hash, s: Store, p: Proc)
    requires WellFormed(sha, p)
    ensures Alone(sha, s, p).1.at == Finished && Alone(sha, s, p).1.job == p.job
    decreases Ahead(p.at)
  {
    if p.at == Finished {
    } else {
      StepAdvances(sha, s, p);
      AloneFinishes(sha, Step(sha, s, p).0, Step(sha, s, p).1);
    }
  }

  lemma AloneStep(sha: Bytes -> Hash, s: Store, p: Proc)
    requires WellFormed(sha, p) && p.at != Finished
    ensures WellFormed(sha, Step(sha, s, p).1)
    ensures Alone(sha, s, p) == Alone(sha, Step(sha, s, p).0, Step(sha, s, p).1)
  {
    StepAdvances(sha, s, p);
  }
}
