/** What the answers of calls say about the tables, in every reachable state of every batch of calls,
    safe or not and with any faults. */
module Answers {
  import opened Wrappers
  import opened Model
  import opened Protocol
  import opened Machine
  import opened Bound
  import opened Listing

  // ---------- the record that an upload answers ----------

  /** The record shows the upload's own id, name, digest and time, and its legacy fields repeat the
      row that it carries. */
  predicate Reports(sha: Bytes -> Hash, a: UploadArgs, f: File) {
    && f.id == a.id && f.name == a.name && f.createdAt == a.now && f.storageHash == sha(a.content)
    && f.storage.Some? && f.storage.value.hash == sha(a.content) && Whole(f)
  }

  predicate AnsweredRight(sha: Bytes -> Hash, p: Proc) {
    p.job.UploadJob? && p.answer.Some? && p.answer.value.Success? ==>
      p.job.args.accepted && p.answer.value.value.Some? && Reports(sha, p.job.args, p.answer.value.value.value)
  }

  /** An upload that was not accepted is at its beginning, or has been rejected. */
  predicate OnlyAccepted(p: Proc) {
    p.job.UploadJob? && p.at != PutContent && !(p.at == Finished && p.answer == Some(Failure(Rejected))) ==>
      p.job.args.accepted
  }

  lemma StepAnswersRight(sha: Bytes -> Hash, s: Store, p: Proc)
    requires WellFormed(sha, p) && AnsweredRight(sha, p) && OnlyAccepted(p)
    ensures AnsweredRight(sha, Step(sha, s, p).1) && OnlyAccepted(Step(sha, s, p).1)
  {
  }

  ghost predicate AllAnsweredRight(sha: Bytes -> Hash, procs: map<nat, Proc>) {
    forall i :: i in procs ==> AnsweredRight(sha, procs[i]) && OnlyAccepted(procs[i])
  }

  lemma {:induction false} StaysAnsweredRight(sha: Bytes -> Hash, sys: System, schedule: seq<nat>)
    requires AllWellFormed(sha, sys) && AllAnsweredRight(sha, sys.procs)
    ensures AllAnsweredRight(sha, Interleave(sha, sys, schedule).procs)
    decreases |schedule|
  {
    if schedule == [] {
    } else {
      var i := schedule[0];
      TurnKeepsForm(sha, sys, i);
      if i in sys.procs {
        StepAnswersRight(sha, sys.store, sys.procs[i]);
      }
      StaysAnsweredRight(sha, Turn(sha, sys, i), schedule[1..]);
    }
  }

  /** Whatever interleaves and whatever fails: an upload reports success only if it was accepted, and
      then with a record of its own. */
  lemma UploadsAnswerRight(sha: Bytes -> Hash, sys: System, schedule: seq<nat>, i: nat)
    requires AtStart(sys)
    ensures AllWellFormed(sha, sys)
    ensures var now := Interleave(sha, sys, schedule);
            i in now.procs && now.procs[i].job.UploadJob?
            && now.procs[i].answer.Some? && now.procs[i].answer.value.Success? ==>
              && now.procs[i].job.args.accepted && now.procs[i].answer.value.value.Some?
              && Reports(sha, now.procs[i].job.args, now.procs[i].answer.value.value.value)
  {
    StartIsWellFormed(sha, sys);
    StaysAnsweredRight(sha, sys, schedule);
  }

  // ---------- the files, by the answers ----------

  predicate HasStored(p: Proc, id: string) {
    p.job.UploadJob? && p.job.args.id == id && p.answer.Some? && p.answer.value.Success?
  }

  /** The delete is past its DELETE statement, or has reported success. */
  predicate HasDeleted(p: Proc, id: string) {
    && p.job.DeleteJob? && p.job.id == id
    && (p.at in {ReleaseCount, FindPath, DropContent, RemoveRow} || p.answer == Some(Success(None)))
  }

  ghost predicate SomeStored(procs: map<nat, Proc>, id: string) {
    exists i :: i in procs && HasStored(procs[i], id)
  }

  ghost predicate SomeDeleted(procs: map<nat, Proc>, id: string) {
    exists i :: i in procs && HasDeleted(procs[i], id)
  }

  /** A delete that has found or removed its file leaves no upload of it pending. */
  predicate Settled(p: Proc, q: Proc) {
    p.job.DeleteJob? && (p.at == RemoveFile || HasDeleted(p, p.job.id)) ==>
      q.job.UploadJob? && q.job.args.id == p.job.id ==> q.at == Finished
  }

  ghost predicate FilesByAnswers(s0: Store, sys: System) {
    && (forall id :: id in sys.store.db.files <==>
          (id in s0.db.files || SomeStored(sys.procs, id)) && !SomeDeleted(sys.procs, id))
    && (forall i, j :: i in sys.procs && j in sys.procs ==> Settled(sys.procs[i], sys.procs[j]))
    && (forall i :: i in sys.procs && sys.procs[i].job.UploadJob? && sys.procs[i].at != Finished ==>
          sys.procs[i].job.args.id !in s0.db.files)
  }

  lemma StoredAfter(procs: map<nat, Proc>, i: nat, p': Proc, id: string)
    requires i in procs && p'.job == procs[i].job && (HasStored(procs[i], id) ==> HasStored(p', id))
    ensures SomeStored(procs[i := p'], id) <==> SomeStored(procs, id) || HasStored(p', id)
  {
    var procs' := procs[i := p'];
    if SomeStored(procs, id) {
      var j :| j in procs && HasStored(procs[j], id);
      assert HasStored(procs'[j], id);
    }
    if HasStored(p', id) {
      assert HasStored(procs'[i], id);
    }
  }

  lemma DeletedAfter(procs: map<nat, Proc>, i: nat, p': Proc, id: string)
    requires i in procs && p'.job == procs[i].job && (HasDeleted(procs[i], id) ==> HasDeleted(p', id))
    ensures SomeDeleted(procs[i := p'], id) <==> SomeDeleted(procs, id) || HasDeleted(p', id)
  {
    var procs' := procs[i := p'];
    if SomeDeleted(procs, id) {
      var j :| j in procs && HasDeleted(procs[j], id);
      assert HasDeleted(procs'[j], id);
    }
    if HasDeleted(p', id) {
      assert HasDeleted(procs'[i], id);
    }
  }

  /** A step adds a file exactly when it ends an upload in success, and takes one away exactly when
      it brings a delete past its statement. */
  lemma StepFiles(sha: Bytes -> Hash, s: Store, p: Proc, id: string)
    requires WellFormed(sha, p) && p.at != Finished
    ensures var (s', p') := Step(sha, s, p);
            && (HasStored(p', id) ==> p.job.UploadJob? && p.job.args.id == id && p'.at == Finished)
            && (HasDeleted(p, id) ==> HasDeleted(p', id))
            && (HasDeleted(p', id) && !HasDeleted(p, id) ==> p.at == RemoveFile)
            && (id in s'.db.files <==> (id in s.db.files || HasStored(p', id))
                                       && !(HasDeleted(p', id) && !HasDeleted(p, id)))
            && (p'.job.DeleteJob? && p'.at == RemoveFile ==> s' == s && p.job.id in s.db.files)
  {
  }

  lemma TurnKeepsFiles(sha: Bytes -> Hash, s0: Store, sys: System, i: nat)
    requires AllWellFormed(sha, sys) && DistinctUploads(sys.procs) && FilesByAnswers(s0, sys)
    requires i in sys.procs && sys.procs[i].at != Finished
    ensures FilesByAnswers(s0, Turn(sha, sys, i))
  {
    var p := sys.procs[i];
    var (s', p') := Step(sha, sys.store, p);
    StepAdvances(sha, sys.store, p);
    forall id
      ensures id in s'.db.files <==>
        (id in s0.db.files || SomeStored(sys.procs[i := p'], id)) && !SomeDeleted(sys.procs[i := p'], id)
    {
      FileAfterTurn(sha, s0, sys, i, id);
    }
    forall j | j in sys.procs
      ensures Settled(p', sys.procs[j]) && Settled(sys.procs[j], p') && Settled(p', p')
    {
      SettledAfter(sha, s0, sys, i, j);
    }
  }

  lemma FileAfterTurn(sha: Bytes -> Hash, s0: Store, sys: System, i: nat, id: string)
    requires AllWellFormed(sha, sys) && DistinctUploads(sys.procs) && FilesByAnswers(s0, sys)
    requires i in sys.procs && sys.procs[i].at != Finished
    ensures var (s', p') := Step(sha, sys.store, sys.procs[i]);
            id in s'.db.files <==>
              (id in s0.db.files || SomeStored(sys.procs[i := p'], id)) && !SomeDeleted(sys.procs[i := p'], id)
  {
    var p := sys.procs[i];
    var (s', p') := Step(sha, sys.store, p);
    StepAdvances(sha, sys.store, p);
    StepFiles(sha, sys.store, p, id);
    StoredAfter(sys.procs, i, p', id);
    DeletedAfter(sys.procs, i, p', id);
    forall j | j in sys.procs
      ensures !(HasStored(p', id) && HasDeleted(sys.procs[j], id))
    {
      assert Settled(sys.procs[j], p);
    }
  }

  lemma SettledAfter(sha: Bytes -> Hash, s0: Store, sys: System, i: nat, j: nat)
    requires AllWellFormed(sha, sys) && DistinctUploads(sys.procs) && FilesByAnswers(s0, sys)
    requires i in sys.procs && sys.procs[i].at != Finished && j in sys.procs
    ensures var p' := Step(sha, sys.store, sys.procs[i]).1;
            Settled(p', sys.procs[j]) && Settled(sys.procs[j], p') && Settled(p', p')
  {
    var p, q := sys.procs[i], sys.procs[j];
    var p' := Step(sha, sys.store, p).1;
    StepAdvances(sha, sys.store, p);
    if p.job.DeleteJob? {
      StepFiles(sha, sys.store, p, p.job.id);
      assert Settled(p, q);
      if p'.at == RemoveFile && q.job.UploadJob? && q.job.args.id == p.job.id && q.at != Finished {
        PendingIsNotThere(s0, sys, j);
      }
    } else {
      assert Settled(q, p);
    }
  }

  /** The id of a pending upload names no file. */
  lemma PendingIsNotThere(s0: Store, sys: System, j: nat)
    requires DistinctUploads(sys.procs) && FilesByAnswers(s0, sys)
    requires forall k :: k in sys.procs ==> (sys.procs[k].at == Finished <==> sys.procs[k].answer.Some?)
    requires j in sys.procs && sys.procs[j].job.UploadJob? && sys.procs[j].at != Finished
    ensures sys.procs[j].job.args.id !in sys.store.db.files
  {
    var id := sys.procs[j].job.args.id;
    forall k | k in sys.procs
      ensures !HasStored(sys.procs[k], id)
    {
      assert k == j ==> sys.procs[k].answer.None?;
    }
  }

  lemma {:induction false} StaysByAnswers(sha: Bytes -> Hash, s0: Store, sys: System, schedule: seq<nat>)
    requires AllWellFormed(sha, sys) && DistinctUploads(sys.procs) && FilesByAnswers(s0, sys)
    ensures FilesByAnswers(s0, Interleave(sha, sys, schedule))
    decreases |schedule|
  {
    if schedule == [] {
    } else {
      var i := schedule[0];
      TurnKeepsForm(sha, sys, i);
      if i in sys.procs && sys.procs[i].at != Finished {
        TurnKeepsFiles(sha, s0, sys, i);
        StepAdvances(sha, sys.store, sys.procs[i]);
      } else if i in sys.procs {
        assert Turn(sha, sys, i) == sys;
      }
      StaysByAnswers(sha, s0, Turn(sha, sys, i), schedule[1..]);
    }
  }

  /** In every reachable state of every batch, with any faults, double deletes included: the files are
      those of the start and of the uploads that have reported success, less those that a delete has
      removed. */
  lemma FilesFollowAnswers(sha: Bytes -> Hash, sys: System, schedule: seq<nat>, id: string)
    requires AtStart(sys) && DistinctUploads(sys.procs)
    requires forall i :: i in sys.procs && sys.procs[i].job.UploadJob? ==>
               sys.procs[i].job.args.id !in sys.store.db.files
    ensures AllWellFormed(sha, sys)
    ensures var now := Interleave(sha, sys, schedule);
            id in now.store.db.files <==>
              (id in sys.store.db.files || SomeStored(now.procs, id)) && !SomeDeleted(now.procs, id)
  {
    StartIsWellFormed(sha, sys);
    StaysByAnswers(sha, sys.store, sys, schedule);
  }
}
