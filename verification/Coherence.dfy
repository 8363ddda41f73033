/** Exactly when the cache agrees with a fresh query. */
module Coherence {
  import opened Wrappers
  import opened Model
  import opened Schema
  import opened Listing
  import opened Cache

  // ---------- entries ----------

  /** The entry of a file that is gone. */
  predicate Stale(canon: string -> string, r: Repo, text: string) {
    text in r.cached.byId && canon(text) !in r.db.files
  }

  /** A writer has removed the file under this text, and has not deleted the entry yet. */
  predicate Awaited(r: Repo, text: string) {
    exists i :: i in r.writing && r.writing[i] == Forgets(text)
  }

  /** An entry for a file that is gone is there only between the two steps of its delete. */
  ghost predicate EntriesSettled(canon: string -> string, r: Repo) {
    forall text :: Stale(canon, r, text) ==> Awaited(r, text)
  }

  /** With no delete under way, all entries agree with a fresh join. */
  lemma SettledAgrees(canon: string -> string, r: Repo)
    requires AllHolds(canon, r) && EntriesSettled(canon, r)
    requires forall i :: i in r.writing ==> !r.writing[i].Forgets?
    ensures EntriesAgree(canon, r)
  {
    forall text | text in r.cached.byId
      ensures EntryAgrees(canon, r.db, text, r.cached.byId[text])
    {
      assert ReadingHolds(canon, r.db, FileRead(text, r.cached.byId[text]));
      assert !Awaited(r, text) && !Stale(canon, r, text);
    }
  }

  /** The calls that leave an entry for a file that is gone: the statement of a delete, while
      another spelling of its id is cached; its DEL, while Redis is out of reach; and a fill that
      comes after the file went. Each only if nobody else is about to delete that entry. */
  ghost predicate LeavesStaleEntry(canon: string -> string, r: Repo, call: Call) {
    match call
    case DeleteByID(i, text, fails) =>
      && !fails && canon(text) in r.db.files
      && exists other :: other in r.cached.byId && canon(other) == canon(text) && other != text && !Awaited(r, other)
    case ForgetFile(i, up) =>
      && !up && i in r.writing && r.writing[i].Forgets? && Stale(canon, r, r.writing[i].text)
      && forall k :: k in r.writing && k != i ==> r.writing[k] != r.writing[i]
    case FillFile(i, up) =>
      && up && i in r.reading && r.reading[i].FileRead?
      && canon(r.reading[i].text) !in r.db.files && !Awaited(r, r.reading[i].text)
    case _ => false
  }

  lemma AwaitedAfter(canon: string -> string, r: Repo, call: Call, text: string)
    requires Possible(canon, r, call)
    ensures Awaited(Do(canon, r, call), text) <==>
      if call.ForgetFile? && call.writer in r.writing && r.writing[call.writer] == Forgets(text) then
        exists k :: k in r.writing && k != call.writer && r.writing[k] == Forgets(text)
      else
        Awaited(r, text) || (call.DeleteByID? && call.text == text)
  {
    var r' := Do(canon, r, call);
    if Awaited(r, text) {
      var k :| k in r.writing && r.writing[k] == Forgets(text);
      if k in r'.writing && r'.writing[k] == Forgets(text) {
        assert Awaited(r', text);
      }
    }
    if call.DeleteByID? && call.text == text {
      assert r'.writing[call.writer] == Forgets(text);
    }
    forall k | k in r.writing && !(call.ForgetFile? && k == call.writer) && r.writing[k] == Forgets(text)
      ensures k in r'.writing && r'.writing[k] == Forgets(text)
    {
    }
  }

  lemma StaleAfter(canon: string -> string, r: Repo, call: Call, text: string)
    requires Possible(canon, r, call)
    ensures Stale(canon, Do(canon, r, call), text) <==>
      match call
      case DeleteByID(i, t, fails) =>
        text in r.cached.byId && (canon(text) !in r.db.files || (!fails && canon(text) == canon(t)))
      case ForgetFile(i, up) =>
        Stale(canon, r, text) && !(up && i in r.writing && r.writing[i] == Forgets(text))
      case FillFile(i, up) =>
        || Stale(canon, r, text)
        || (up && i in r.reading && r.reading[i].FileRead? && r.reading[i].text == text && canon(text) !in r.db.files)
      case ExpireFile(t) => Stale(canon, r, text) && t != text
      case _ => Stale(canon, r, text)
  {
  }

  /** What one text sees of a call. */
  lemma TextSettled(canon: string -> string, r: Repo, call: Call, text: string)
    requires EntriesSettled(canon, r) && Possible(canon, r, call) && !LeavesStaleEntry(canon, r, call)
    ensures Stale(canon, Do(canon, r, call), text) ==> Awaited(Do(canon, r, call), text)
  {
    StaleAfter(canon, r, call, text);
    AwaitedAfter(canon, r, call, text);
  }

  lemma StaleEntryShows(canon: string -> string, r: Repo, call: Call)
    requires Possible(canon, r, call) && LeavesStaleEntry(canon, r, call)
    ensures !EntriesSettled(canon, Do(canon, r, call))
  {
    var text;
    if call.DeleteByID? {
      text :| text in r.cached.byId && canon(text) == canon(call.text) && text != call.text && !Awaited(r, text);
    } else if call.ForgetFile? {
      text := r.writing[call.writer].text;
    } else {
      text := r.reading[call.reader].text;
    }
    StaleAfter(canon, r, call, text);
    AwaitedAfter(canon, r, call, text);
    assert Stale(canon, Do(canon, r, call), text) && !Awaited(Do(canon, r, call), text);
  }

  /** A call keeps the entries settled if and only if it leaves no stale entry. */
  lemma EntriesKept(canon: string -> string, r: Repo, call: Call)
    requires EntriesSettled(canon, r) && Possible(canon, r, call)
    ensures EntriesSettled(canon, Do(canon, r, call)) <==> !LeavesStaleEntry(canon, r, call)
  {
    if LeavesStaleEntry(canon, r, call) {
      StaleEntryShows(canon, r, call);
    } else {
      forall text | Stale(canon, Do(canon, r, call), text)
        ensures Awaited(Do(canon, r, call), text)
      {
        TextSettled(canon, r, call, text);
      }
    }
  }

  // ---------- the list ----------

  ghost function Named(js: seq<FileJson>): set<string> {
    set i | 0 <= i < |js| :: js[i].id
  }

  lemma OrderNamesAll(db: Db, js: seq<FileJson>)
    requires ForeignKey(db) && IsOrder(db, IdsOf(js))
    ensures Named(js) == db.files.Keys
  {
    forall id | id in db.files
      ensures id in Named(js)
    {
      assert id in JoinedIds(db);
      var i :| 0 <= i < |js| && IdsOf(js)[i] == id;
      assert js[i].id == id;
    }
    forall id | id in Named(js)
      ensures id in db.files
    {
      var i :| 0 <= i < |js| && js[i].id == id;
      assert IdsOf(js)[i] in db.files;
    }
  }

  /** What a reader holds is an answer of a fresh query exactly if it names the files that are there. */
  lemma ReadingIsAnswer(canon: string -> string, db: Db, js: seq<FileJson>)
    requires SchemaHolds(db) && ReadingHolds(canon, db, ListRead(js))
    ensures Named(js) == db.files.Keys <==> IsAnswer(db, js)
  {
    if Named(js) == db.files.Keys {
      NamedAllIsAnswer(canon, db, js);
    } else if IsOrder(db, IdsOf(js)) {
      OrderNamesAll(db, js);
      assert false;
    }
  }

  lemma NamedAllIsAnswer(canon: string -> string, db: Db, js: seq<FileJson>)
    requires SchemaHolds(db) && ReadingHolds(canon, db, ListRead(js)) && Named(js) == db.files.Keys
    ensures IsAnswer(db, js)
  {
    forall i | 0 <= i < |js|
      ensures ItemAgrees(db, js[i]) && js[i].created_at == db.files[js[i].id].createdAt
    {
      assert js[i].id in Named(js);
      assert Lasting(js[i]).created_at == js[i].created_at;
    }
    forall id | id in JoinedIds(db)
      ensures id in IdsOf(js)
    {
      assert id in Named(js);
      var i :| 0 <= i < |js| && js[i].id == id;
      assert IdsOf(js)[i] == id;
    }
  }

  /** The cached list does not name the files that are there. */
  ghost predicate ListWrong(r: Repo) {
    r.cached.list.Some? && Named(r.cached.list.value) != r.db.files.Keys
  }

  lemma ListAgreesExactly(canon: string -> string, r: Repo)
    requires AllHolds(canon, r)
    ensures ListAgrees(r) <==> !ListWrong(r)
  {
    if r.cached.list.Some? {
      ReadingIsAnswer(canon, r.db, r.cached.list.value);
    }
  }

  /** With no DEL under way, a list that is settled is an answer of a fresh query. */
  lemma SettledListAgrees(canon: string -> string, r: Repo)
    requires AllHolds(canon, r) && ListSettled(r) && r.writing == map[]
    ensures ListAgrees(r)
  {
    ListAgreesExactly(canon, r);
  }

  /** A list that names other files than there are is there only while a writer is about to delete it. */
  ghost predicate ListSettled(r: Repo) {
    ListWrong(r) ==> r.writing != map[]
  }

  /** The calls that leave such a list: the last DEL under way, while Redis is out of reach, and a
      fill of rows that are not those of the files there are, with no DEL under way. */
  ghost predicate LeavesStaleList(r: Repo, call: Call) {
    match call
    case ForgetList(i, up) =>
      !up && i in r.writing && r.writing[i].Invalidates? && r.writing.Keys == {i} && ListWrong(r)
    case FillList(i, up) =>
      && up && i in r.reading && r.reading[i].ListRead? && r.writing == map[]
      && Named(r.reading[i].jsons) != r.db.files.Keys
    case _ => false
  }

  /** Who changes the files is about to delete the list. */
  lemma WriterAwaitsList(canon: string -> string, r: Repo, call: Call)
    requires Possible(canon, r, call) && Do(canon, r, call).db.files.Keys != r.db.files.Keys
    ensures Do(canon, r, call).writing != map[]
  {
    var r' := Do(canon, r, call);
    if call.CreateFileReference? {
      assert call.writer in r'.writing;
    } else {
      assert call.DeleteByID? && call.writer in r'.writing;
    }
  }

  lemma WritersAfter(canon: string -> string, r: Repo, call: Call)
    requires Possible(canon, r, call) && r.writing != map[]
    requires !(call.ForgetList? && call.writer in r.writing && r.writing[call.writer].Invalidates?)
    ensures Do(canon, r, call).writing != map[]
  {
    var i :| i in r.writing;
    assert i in Do(canon, r, call).writing;
  }

  lemma ListDropped(canon: string -> string, r: Repo, i: nat, up: bool)
    requires ListSettled(r) && i in r.writing && r.writing[i].Invalidates?
    ensures ListSettled(Do(canon, r, ForgetList(i, up))) <==> !LeavesStaleList(r, ForgetList(i, up))
  {
    var r' := Do(canon, r, ForgetList(i, up));
    assert r'.writing == map[] <==> r.writing.Keys == {i} by {
      assert r'.writing.Keys == r.writing.Keys - {i};
      if r'.writing == map[] {
        assert r.writing.Keys - {i} == {};
      } else {
        var k :| k in r'.writing;
      }
    }
  }

  /** A call keeps the list settled if and only if it leaves no stale list. */
  lemma ListKept(canon: string -> string, r: Repo, call: Call)
    requires ListSettled(r) && Possible(canon, r, call)
    ensures ListSettled(Do(canon, r, call)) <==> !LeavesStaleList(r, call)
  {
    var r' := Do(canon, r, call);
    if call.ForgetList? && call.writer in r.writing && r.writing[call.writer].Invalidates? {
      ListDropped(canon, r, call.writer, call.up);
    } else if r'.db.files.Keys != r.db.files.Keys {
      WriterAwaitsList(canon, r, call);
    } else if r.writing != map[] {
      WritersAfter(canon, r, call);
    }
  }

  // ---------- sequences of calls ----------

  /** A sequence of calls and expiries, in which every list query gets rows that the database may
      give, and no id is drawn twice. */
  ghost predicate PossibleCalls(canon: string -> string, r: Repo, calls: seq<Call>)
    decreases |calls|
  {
    calls == [] || (Possible(canon, r, calls[0]) && PossibleCalls(canon, Do(canon, r, calls[0]), calls[1..]))
  }

  ghost function DoAll(canon: string -> string, r: Repo, calls: seq<Call>): Repo
    requires PossibleCalls(canon, r, calls)
    decreases |calls|
  {
    if calls == [] then r else DoAll(canon, Do(canon, r, calls[0]), calls[1..])
  }

  ghost predicate EntriesSettledThroughout(canon: string -> string, r: Repo, calls: seq<Call>)
    requires PossibleCalls(canon, r, calls)
    decreases |calls|
  {
    EntriesSettled(canon, r)
    && (calls == [] || EntriesSettledThroughout(canon, Do(canon, r, calls[0]), calls[1..]))
  }

  ghost predicate ListSettledThroughout(canon: string -> string, r: Repo, calls: seq<Call>)
    requires PossibleCalls(canon, r, calls)
    decreases |calls|
  {
    ListSettled(r) && (calls == [] || ListSettledThroughout(canon, Do(canon, r, calls[0]), calls[1..]))
  }

  ghost predicate NoStaleEntry(canon: string -> string, r: Repo, calls: seq<Call>)
    requires PossibleCalls(canon, r, calls)
    decreases |calls|
  {
    calls == []
    || (!LeavesStaleEntry(canon, r, calls[0]) && NoStaleEntry(canon, Do(canon, r, calls[0]), calls[1..]))
  }

  ghost predicate NoStaleList(canon: string -> string, r: Repo, calls: seq<Call>)
    requires PossibleCalls(canon, r, calls)
    decreases |calls|
  {
    calls == [] || (!LeavesStaleList(r, calls[0]) && NoStaleList(canon, Do(canon, r, calls[0]), calls[1..]))
  }

  /** Over every sequence of calls, whatever fails, expires or comes late: all that is cached stays
      right for the files that are there. */
  lemma {:induction false} AlwaysHolds(canon: string -> string, r: Repo, calls: seq<Call>)
    requires AllHolds(canon, r) && PossibleCalls(canon, r, calls)
    ensures AllHolds(canon, DoAll(canon, r, calls))
    decreases |calls|
  {
    if calls == [] {
    } else {
      AllKept(canon, r, calls[0]);
      AlwaysHolds(canon, Do(canon, r, calls[0]), calls[1..]);
    }
  }

  /** At every moment an entry for a file that is gone is there only between the statement of its
      delete and the DEL that follows, if and only if no call of the sequence leaves a stale entry. */
  lemma {:induction false} EntriesAlwaysSettled(canon: string -> string, r: Repo, calls: seq<Call>)
    requires EntriesSettled(canon, r) && PossibleCalls(canon, r, calls)
    ensures EntriesSettledThroughout(canon, r, calls) <==> NoStaleEntry(canon, r, calls)
    decreases |calls|
  {
    if calls == [] {
    } else {
      var r' := Do(canon, r, calls[0]);
      EntriesKept(canon, r, calls[0]);
      if EntriesSettled(canon, r') {
        EntriesAlwaysSettled(canon, r', calls[1..]);
      } else {
        assert !EntriesSettledThroughout(canon, r', calls[1..]);
      }
    }
  }

  /** The same for the cached list: it names other files than there are only while a DEL is under
      way, if and only if no call of the sequence leaves a stale list. */
  lemma {:induction false} ListAlwaysSettled(canon: string -> string, r: Repo, calls: seq<Call>)
    requires ListSettled(r) && PossibleCalls(canon, r, calls)
    ensures ListSettledThroughout(canon, r, calls) <==> NoStaleList(canon, r, calls)
    decreases |calls|
  {
    if calls == [] {
    } else {
      var r' := Do(canon, r, calls[0]);
      ListKept(canon, r, calls[0]);
      if ListSettled(r') {
        ListAlwaysSettled(canon, r', calls[1..]);
      } else {
        assert !ListSettledThroughout(canon, r', calls[1..]);
      }
    }
  }

  // ---------- witnesses ----------

  /** A file read under one spelling of its id and deleted under another leaves its entry behind. */
  lemma OtherSpellingStaysCached(canon: string -> string, r: Repo, i: nat, text: string, other: string)
    requires r.reading == map[] && r.writing == map[] && EntriesSettled(canon, r)
    requires text != other && canon(text) == canon(other) && Joins(r.db, canon(text))
    ensures var read := Do(canon, Do(canon, r, QueryFile(i, other, false)), FillFile(i, true));
            var gone := Do(canon, Do(canon, read, DeleteByID(i, text, false)), ForgetFile(i, true));
            && EntriesSettled(canon, read) && Stale(canon, gone, other) && !EntriesSettled(canon, gone)
  {
    var query := Do(canon, r, QueryFile(i, other, false));
    EntriesKept(canon, r, QueryFile(i, other, false));
    EntriesKept(canon, query, FillFile(i, true));
    var read := Do(canon, query, FillFile(i, true));
    var deleted := Do(canon, read, DeleteByID(i, text, false));
    var gone := Do(canon, deleted, ForgetFile(i, true));
    assert gone.writing == map[i := Invalidates];
    assert Stale(canon, gone, other) && !Awaited(gone, other);
  }

  /** Coherence rests on the foreign key, too. A row whose count reads zero while a cached file
      still references it survives its deletion; without the key it could be deleted and created
      again with another content type, and the entry of the file would be wrong. */
  lemma ForeignKeyIsNeeded(canon: string -> string, id: string, file: FileRow, row: Row, row': Row)
    requires row.count == 0 && row'.contentType != row.contentType && canon(id) == id
    ensures var h := file.hash;
            var db := Db(map[h := row], map[id := file]);
            var r := Repo(db, Cached(map[id := Encode(Join(db, id))], None), map[], map[]);
            var unchecked := db.(rows := db.rows - {h});
            && Do(canon, Do(canon, r, DeleteStorage(h, false)), CreateStorage(h, row', false)) == r
            && CanInsertStorage(unchecked, h, row'.path)
            && !EntryAgrees(canon, InsertStorage(unchecked, h, row'), id, r.cached.byId[id])
  {
  }
}
