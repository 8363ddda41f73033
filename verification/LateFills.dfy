/** Readers that write to the cache after other calls: when that is coherent, by what those calls did. */
module LateFills {
  import opened Model
  import opened Schema
  import opened Listing
  import opened Cache
  import opened Coherence

  // ---------- what the calls in between do ----------

  predicate UsesReader(call: Call, i: nat) {
    match call
    case QueryFile(reader, text, fails) => reader == i
    case FillFile(reader, up) => reader == i
    case QueryList(reader, order, delivered, fails) => reader == i
    case FillList(reader, up) => reader == i
    case _ => false
  }

  predicate Removes(canon: string -> string, call: Call, id: string) {
    call.DeleteByID? && !call.fails && canon(call.text) == id
  }

  /** No call of the sequence deletes the file. */
  predicate Spares(canon: string -> string, calls: seq<Call>, id: string) {
    forall k :: 0 <= k < |calls| ==> !Removes(canon, calls[k], id)
  }

  predicate Creates(r: Repo, call: Call, id: string) {
    call.CreateFileReference? && call.id == id && !call.fails && CanInsertFile(r.db, id, call.file.hash)
  }

  /** Some call creates the file, and no later one deletes it. */
  ghost predicate Survives(canon: string -> string, r: Repo, calls: seq<Call>, id: string)
    requires PossibleCalls(canon, r, calls)
    decreases |calls|
  {
    && calls != []
    && (|| (Creates(r, calls[0], id) && Spares(canon, calls[1..], id))
        || Survives(canon, Do(canon, r, calls[0]), calls[1..], id))
  }

  lemma SparesFirst(canon: string -> string, calls: seq<Call>, id: string)
    requires calls != []
    ensures Spares(canon, calls, id) <==> !Removes(canon, calls[0], id) && Spares(canon, calls[1..], id)
  {
    if Spares(canon, calls[1..], id) {
      forall k | 0 < k < |calls|
        ensures !Removes(canon, calls[k], id)
      {
        assert calls[1..][k - 1] == calls[k];
      }
    }
  }

  lemma FilesAfterOne(canon: string -> string, r: Repo, call: Call, id: string)
    requires Possible(canon, r, call)
    ensures id in Do(canon, r, call).db.files <==>
      (id in r.db.files && !Removes(canon, call, id)) || Creates(r, call, id)
  {
  }

  /** The files there are after a sequence of calls: those that were there and are spared, and those
      that were created and survive. */
  lemma {:induction false} FilesAfter(canon: string -> string, r: Repo, calls: seq<Call>, id: string)
    requires PossibleCalls(canon, r, calls)
    ensures id in DoAll(canon, r, calls).db.files <==>
      (id in r.db.files && Spares(canon, calls, id)) || Survives(canon, r, calls, id)
    decreases |calls|
  {
    if calls == [] {
    } else {
      FilesAfterOne(canon, r, calls[0], id);
      SparesFirst(canon, calls, id);
      FilesAfter(canon, Do(canon, r, calls[0]), calls[1..], id);
    }
  }

  // ---------- a reader waits ----------

  predicate Leaves(calls: seq<Call>, i: nat) {
    forall k :: 0 <= k < |calls| ==> !UsesReader(calls[k], i)
  }

  lemma LeavesRest(calls: seq<Call>, i: nat)
    requires calls != [] && Leaves(calls, i)
    ensures !UsesReader(calls[0], i) && Leaves(calls[1..], i)
  {
    forall k | 0 <= k < |calls[1..]|
      ensures !UsesReader(calls[1..][k], i)
    {
      assert calls[1..][k] == calls[k + 1];
    }
  }

  predicate HasRead(reading: Reading, canon: string -> string, id: string) {
    match reading
    case FileRead(text, json) => canon(text) == id
    case ListRead(jsons) => exists k :: 0 <= k < |jsons| && jsons[k].id == id
  }

  lemma ReadIsNotCreated(canon: string -> string, r: Repo, call: Call, i: nat, id: string)
    requires Possible(canon, r, call) && i in r.reading && HasRead(r.reading[i], canon, id)
    ensures !Creates(r, call, id)
  {
    if r.reading[i].ListRead? {
      ReadIsListed(canon, r.reading[i].jsons, id);
    }
  }

  lemma ReadIsListed(canon: string -> string, js: seq<FileJson>, id: string)
    requires HasRead(ListRead(js), canon, id)
    ensures id in IdsOf(js)
  {
    var k :| 0 <= k < |js| && js[k].id == id;
    assert IdsOf(js)[k] == id;
  }

  lemma ReadingWaits(canon: string -> string, r: Repo, call: Call, i: nat)
    requires Possible(canon, r, call) && i in r.reading && !UsesReader(call, i)
    ensures var r' := Do(canon, r, call); i in r'.reading && r'.reading[i] == r.reading[i]
  {
  }

  /** While a reader waits it keeps what it has read, and nothing that it has read is created anew. */
  lemma {:induction false} ReaderWaits(canon: string -> string, r: Repo, calls: seq<Call>, i: nat, id: string)
    requires PossibleCalls(canon, r, calls) && i in r.reading && Leaves(calls, i)
    ensures var r' := DoAll(canon, r, calls); i in r'.reading && r'.reading[i] == r.reading[i]
    ensures HasRead(r.reading[i], canon, id) ==> !Survives(canon, r, calls, id)
    decreases |calls|
  {
    if calls == [] {
    } else {
      LeavesRest(calls, i);
      ReadingWaits(canon, r, calls[0], i);
      if HasRead(r.reading[i], canon, id) {
        ReadIsNotCreated(canon, r, calls[0], i, id);
      }
      ReaderWaits(canon, Do(canon, r, calls[0]), calls[1..], i, id);
    }
  }

  lemma {:induction false} StaysSettled(canon: string -> string, r: Repo, calls: seq<Call>)
    requires EntriesSettled(canon, r) && PossibleCalls(canon, r, calls) && NoStaleEntry(canon, r, calls)
    ensures EntriesSettled(canon, DoAll(canon, r, calls))
    decreases |calls|
  {
    if calls == [] {
    } else {
      EntriesKept(canon, r, calls[0]);
      StaysSettled(canon, Do(canon, r, calls[0]), calls[1..]);
    }
  }

  // ---------- late fills ----------

  /** A reader queries a file, and other calls run before it writes the entry: the late fill keeps
      the entries settled if and only if none of those calls deleted that file, or the DEL of a
      delete under the same text is still to come. */
  lemma LateFillExactly(canon: string -> string, r: Repo, i: nat, text: string, calls: seq<Call>)
    requires EntriesSettled(canon, r) && Joins(r.db, canon(text)) && Leaves(calls, i)
    requires PossibleCalls(canon, Do(canon, r, QueryFile(i, text, false)), calls)
    requires NoStaleEntry(canon, Do(canon, r, QueryFile(i, text, false)), calls)
    ensures var later := DoAll(canon, Do(canon, r, QueryFile(i, text, false)), calls);
            EntriesSettled(canon, Do(canon, later, FillFile(i, true))) <==>
              Spares(canon, calls, canon(text)) || Awaited(later, text)
  {
    var read := Do(canon, r, QueryFile(i, text, false));
    EntriesKept(canon, r, QueryFile(i, text, false));
    ReaderWaits(canon, read, calls, i, canon(text));
    FilesAfter(canon, read, calls, canon(text));
    StaysSettled(canon, read, calls);
    EntriesKept(canon, DoAll(canon, read, calls), FillFile(i, true));
  }

  /** The files of a list that is read in full or in part. */
  predicate Arrived(order: seq<string>, delivered: nat, id: string)
    requires delivered <= |order|
  {
    exists k :: 0 <= k < delivered && order[k] == id
  }

  /** What makes a late list right, by the calls in between: no file that arrived was deleted, every
      other file was, and no file that was created is still there. */
  ghost predicate ListStillRight(canon: string -> string, read: Repo, order: seq<string>, delivered: nat,
                                 calls: seq<Call>)
    requires delivered <= |order| && PossibleCalls(canon, read, calls)
  {
    && (forall id :: Arrived(order, delivered, id) ==> Spares(canon, calls, id))
    && (forall id :: id in read.db.files && !Arrived(order, delivered, id) ==> !Spares(canon, calls, id))
    && (forall id :: !Survives(canon, read, calls, id))
  }

  lemma QueriedList(canon: string -> string, r: Repo, i: nat, order: seq<string>, delivered: nat)
    requires AllHolds(canon, r) && IsOrder(r.db, order) && delivered <= |order|
    ensures var read := Do(canon, r, QueryList(i, order, delivered, false));
            && AllHolds(canon, read) && read.db == r.db && read.writing == r.writing
            && i in read.reading && read.reading[i].ListRead?
            && forall id :: Arrived(order, delivered, id) <==> HasRead(read.reading[i], canon, id)
  {
    AllKept(canon, r, QueryList(i, order, delivered, false));
    forall id
      ensures Arrived(order, delivered, id) <==>
        HasRead(ListRead(EncodeAll(JoinAll(r.db, order[..delivered]))), canon, id)
    {
      ArrivedIsRead(canon, r.db, order, delivered, id);
    }
  }

  lemma ArrivedIsRead(canon: string -> string, db: Db, order: seq<string>, delivered: nat, id: string)
    requires IsOrder(db, order) && delivered <= |order|
    ensures Arrived(order, delivered, id) <==>
      HasRead(ListRead(EncodeAll(JoinAll(db, order[..delivered]))), canon, id)
  {
    var js := EncodeAll(JoinAll(db, order[..delivered]));
    assert |js| == delivered;
    forall k | 0 <= k < delivered
      ensures js[k].id == order[k]
    {
      QueriedRow(db, order, delivered, k);
    }
    if Arrived(order, delivered, id) {
      var k :| 0 <= k < delivered && order[k] == id;
      assert js[k].id == id;
    }
  }

  lemma NamedIsRead(canon: string -> string, js: seq<FileJson>, id: string)
    ensures id in Named(js) <==> HasRead(ListRead(js), canon, id)
  {
  }

  /** What a waiting reader holds names the files there are, by what the calls did. */
  lemma NamesMatch(canon: string -> string, read: Repo, i: nat, order: seq<string>, delivered: nat, calls: seq<Call>)
    requires IsOrder(read.db, order) && delivered <= |order| && PossibleCalls(canon, read, calls)
    requires i in read.reading && read.reading[i].ListRead? && Leaves(calls, i)
    requires forall id :: Arrived(order, delivered, id) <==> HasRead(read.reading[i], canon, id)
    ensures Named(read.reading[i].jsons) == DoAll(canon, read, calls).db.files.Keys
       <==> ListStillRight(canon, read, order, delivered, calls)
  {
    var later := DoAll(canon, read, calls);
    forall id
      ensures id in later.db.files <==>
        (id in read.db.files && Spares(canon, calls, id)) || Survives(canon, read, calls, id)
      ensures id in Named(read.reading[i].jsons) <==> Arrived(order, delivered, id)
      ensures Arrived(order, delivered, id) ==> id in read.db.files && !Survives(canon, read, calls, id)
    {
      FilesAfter(canon, read, calls, id);
      NamedIsRead(canon, read.reading[i].jsons, id);
      ReaderWaits(canon, read, calls, i, id);
    }
  }

  /** A reader queries the list, of which the first rows arrive, and other calls run before it
      writes them: the cached list then agrees if and only if none of those rows was deleted, every
      other file was, and no file was created that is still there. */
  lemma LateListExactly(canon: string -> string, r: Repo, i: nat, order: seq<string>, delivered: nat,
                        calls: seq<Call>)
    requires AllHolds(canon, r) && IsOrder(r.db, order) && delivered <= |order| && Leaves(calls, i)
    requires PossibleCalls(canon, Do(canon, r, QueryList(i, order, delivered, false)), calls)
    ensures var read := Do(canon, r, QueryList(i, order, delivered, false));
            var later := DoAll(canon, read, calls);
            ListAgrees(Do(canon, later, FillList(i, true))) <==> ListStillRight(canon, read, order, delivered, calls)
  {
    var read := Do(canon, r, QueryList(i, order, delivered, false));
    QueriedList(canon, r, i, order, delivered);
    NamesMatch(canon, read, i, order, delivered, calls);
    LateListFill(canon, read, i, calls);
  }

  lemma LateListFill(canon: string -> string, read: Repo, i: nat, calls: seq<Call>)
    requires AllHolds(canon, read) && PossibleCalls(canon, read, calls) && Leaves(calls, i)
    requires i in read.reading && read.reading[i].ListRead?
    ensures var later := DoAll(canon, read, calls);
            ListAgrees(Do(canon, later, FillList(i, true))) <==> Named(read.reading[i].jsons) == later.db.files.Keys
  {
    var later := DoAll(canon, read, calls);
    AlwaysHolds(canon, read, calls);
    ReaderWaits(canon, read, calls, i, "");
    AllKept(canon, later, FillList(i, true));
    ListAgreesExactly(canon, Do(canon, later, FillList(i, true)));
  }

  /** A list that breaks off is cached as it came: without interruption the cached list agrees if
      and only if every row arrived. */
  lemma DeliveredExactly(canon: string -> string, r: Repo, i: nat, order: seq<string>, delivered: nat)
    requires AllHolds(canon, r) && IsOrder(r.db, order) && delivered <= |order|
    ensures ListAgrees(Do(canon, Do(canon, r, QueryList(i, order, delivered, false)), FillList(i, true)))
       <==> delivered == |order|
  {
    LateListExactly(canon, r, i, order, delivered, []);
    if delivered == |order| {
      forall id | id in r.db.files
        ensures Arrived(order, delivered, id)
      {
        assert id in JoinedIds(r.db);
      }
    } else {
      var id := order[delivered];
      assert id in r.db.files && !Arrived(order, delivered, id) && Spares(canon, [], id);
    }
  }
}
