/** A process that is never interrupted does what the sequential operation does: the step system
    and the sequential specification are the same protocol. */
module Solo {
  import opened Wrappers
  import opened Model
  import opened Schema
  import opened Protocol
  import opened Machine

  function AnswerOf(r: Result<File, Error>): Result<Option<File>, Error> {
    match r
    case Success(f) => Success(Some(f))
    case Failure(e) => Failure(e)
  }

  /** From the raised count on. */
  lemma ReferenceAlone(sha: Bytes -> Hash, s: Store, p: Proc)
    requires WellFormed(sha, p) && p.job.UploadJob? && p.at == AddReference
    ensures var (s', p') := Alone(sha, s, p);
            var a, h := p.job.args, sha(p.job.args.content);
            if AddReference in p.faults || !CanInsertFile(s.db, a.id, h) then
              && s' == (if LowerCount in p.faults then s else s.(db := AddToCount(s.db, h, -1, a.now)))
              && p'.answer == Some(Failure(Database))
            else
              && s' == s.(db := InsertFile(s.db, a.id, NewFile(sha, a)))
              && p'.answer == Some(Success(Some(Joined(a.id, NewFile(sha, a), p.read.value))))
  {
    AloneStep(sha, s, p);
    var (s1, p1) := Step(sha, s, p);
    if p1.at != Finished {
      AloneStep(sha, s1, p1);
    }
  }

  lemma DuplicateAlone(sha: Bytes -> Hash, s: Store, p: Proc)
    requires WellFormed(sha, p) && p.job.UploadJob? && p.at == DropCopy
    requires sha(p.job.args.content) in s.db.rows && p.read == Some(s.db.rows[sha(p.job.args.content)])
    ensures var (s', p') := Alone(sha, s, p);
            var o := UploadDuplicate(sha, s, p.job.args, p.faults);
            s' == o.store && p'.answer == Some(AnswerOf(o.result))
  {
    AloneStep(sha, s, p);
    var (s1, p1) := Step(sha, s, p);
    AloneStep(sha, s1, p1);
    var (s2, p2) := Step(sha, s1, p1);
    if p2.at != Finished {
      ReferenceAlone(sha, s2, p2);
    }
  }

  lemma NewAlone(sha: Bytes -> Hash, s: Store, p: Proc)
    requires WellFormed(sha, p) && p.job.UploadJob? && p.at == AddRow
    ensures var (s', p') := Alone(sha, s, p);
            var o := UploadNew(sha, s, p.job.args, p.faults);
            s' == o.store && p'.answer == Some(AnswerOf(o.result))
  {
    AloneStep(sha, s, p);
    var (s1, p1) := Step(sha, s, p);
    if p1.at == AddFirstFile {
      FirstFileAlone(sha, s1, p1);
    } else {
      AloneStep(sha, s1, p1);
    }
  }

  /** What follows the insert of a new row. */
  lemma FirstFileAlone(sha: Bytes -> Hash, s: Store, p: Proc)
    requires WellFormed(sha, p) && p.job.UploadJob? && p.at == AddFirstFile
    ensures var (s', p') := Alone(sha, s, p);
            var a, h := p.job.args, sha(p.job.args.content);
            if AddFirstFile in p.faults || !CanInsertFile(s.db, a.id, h) then
              && s' == DropUnless(DropUnfiled in p.faults,
                                  if UndoRow in p.faults then s else s.(db := DeleteStorage(s.db, h)), a.path)
              && p'.answer == Some(Failure(Database))
            else
              && s' == s.(db := InsertFile(s.db, a.id, NewFile(sha, a)))
              && p'.answer == Some(Success(Some(Joined(a.id, NewFile(sha, a), NewRow(a)))))
  {
    AloneStep(sha, s, p);
    var (s1, p1) := Step(sha, s, p);
    if p1.at != Finished {
      AloneStep(sha, s1, p1);
      var (s2, p2) := Step(sha, s1, p1);
      AloneStep(sha, s2, p2);
    }
  }

  /** An upload alone is Protocol.Upload, with any faults, in store and in answer. */
  lemma UploadAlone(sha: Bytes -> Hash, s: Store, a: UploadArgs, faults: set<Point>)
    ensures var (s', p') := Alone(sha, s, Begin(UploadJob(a), faults));
            var o := Upload(sha, s, a, faults);
            s' == o.store && p'.answer == Some(AnswerOf(o.result))
  {
    var p := Begin(UploadJob(a), faults);
    AloneStep(sha, s, p);
    var (s1, p1) := Step(sha, s, p);
    if p1.at != Finished {
      AloneStep(sha, s1, p1);
      var (s2, p2) := Step(sha, s1, p1);
      if p2.at == DropCopy {
        DuplicateAlone(sha, s2, p2);
      } else {
        NewAlone(sha, s2, p2);
      }
    }
  }

  lemma CleanUpAlone(sha: Bytes -> Hash, s: Store, p: Proc)
    requires WellFormed(sha, p) && p.job.DeleteJob? && p.at == FindPath
    ensures var (s', p') := Alone(sha, s, p);
            s' == CleanUp(s, p.hash.value, p.faults) && p'.answer == Some(Success(None))
  {
    AloneStep(sha, s, p);
    var (s1, p1) := Step(sha, s, p);
    if p1.at != Finished {
      AloneStep(sha, s1, p1);
      var (s2, p2) := Step(sha, s1, p1);
      AloneStep(sha, s2, p2);
    }
  }

  /** A delete alone is Protocol.Delete. */
  lemma DeleteAlone(sha: Bytes -> Hash, s: Store, id: string, now: Time, faults: set<Point>)
    ensures var (s', p') := Alone(sha, s, Begin(DeleteJob(id, now), faults));
            var o := Delete(s, id, now, faults);
            && s' == o.store
            && p'.answer == Some(if o.result.Success? then Success(None) else Failure(o.result.error))
  {
    var p := Begin(DeleteJob(id, now), faults);
    AloneStep(sha, s, p);
    var (s1, p1) := Step(sha, s, p);
    if p1.at != Finished {
      AloneStep(sha, s1, p1);
      var (s2, p2) := Step(sha, s1, p1);
      if p2.at != Finished {
        AloneStep(sha, s2, p2);
        var (s3, p3) := Step(sha, s2, p2);
        if p3.at != Finished {
          CleanUpAlone(sha, s3, p3);
        }
      }
    }
  }
}
