/** The Redis cache of the repository: what each repository call does to it, and that whatever it
    holds, and whatever a reader is about to write to it, is right for the files that are there.

    `files.id` is a UUID column, so the database compares ids by value, while Redis compares the
    text of its keys. `canon` takes the text of a request to the id as the database prints it. */
module Cache {
  import opened Wrappers
  import opened Model
  import opened Schema
  import opened Listing

  /** The keys `file:<text>` and the key `file_list`. */
  datatype Cached = Cached(byId: map<string, FileJson>, list: Option<seq<FileJson>>)

  const NOTHING := Cached(map[], None)

  /** The rows that a reader has fetched and not yet written to the cache. */
  datatype Reading =
    | FileRead(text: string, json: FileJson)
    | ListRead(jsons: seq<FileJson>)

  /** The keys that a writer has still to delete after its statement: the entry and the list, or
      the list only. */
  datatype Writing =
    | Forgets(text: string)
    | Invalidates

  datatype Repo = Repo(db: Db, cached: Cached, reading: map<nat, Reading>, writing: map<nat, Writing>)

  /** A statement, a cache write, a cache DEL, or an entry reaching its TTL. GetByID and List that
      miss the cache are a query and a later fill by the same reader. CreateFileReference and
      DeleteByID are a statement and the later deletion of one key, or of two, by the same writer.
      `fails` makes the SQL statement fail; `up` says whether Redis can be reached, whose errors the
      repository ignores; `delivered` is how many rows of the list arrive before the connection
      breaks, which the repository does not check. */
  datatype Call =
    | CreateStorage(hash: Hash, row: Row, fails: bool)
    | IncrementStorageRef(hash: Hash, now: Time, fails: bool)
    | DecrementStorageRef(hash: Hash, now: Time, fails: bool)
    | DeleteStorage(hash: Hash, fails: bool)
    | CreateFileReference(writer: nat, id: string, file: FileRow, fails: bool)
    | DeleteByID(writer: nat, text: string, fails: bool)
    | ForgetFile(writer: nat, up: bool)
    | ForgetList(writer: nat, up: bool)
    | QueryFile(reader: nat, text: string, fails: bool)
    | FillFile(reader: nat, up: bool)
    | QueryList(reader: nat, order: seq<string>, delivered: nat, fails: bool)
    | FillList(reader: nat, up: bool)
    | ExpireFile(text: string)
    | ExpireList

  function Invalidated(up: bool, c: Cached): Cached {
    if up then c.(list := None) else c
  }

  /** After DeleteByID: both entries go, whether or not the statement succeeded. */
  function Forgotten(c: Cached, text: string, up: bool): Cached {
    if up then Cached(c.byId - {text}, None) else c
  }

  /** The rows that a list query hands over. If the join query fails, the legacy query answers only
      with no row at all: the legacy columns of a stored file are NULL and do not scan. */
  function ListRows(db: Db, order: seq<string>, delivered: nat, fails: bool): Option<seq<FileJson>>
    requires IsOrder(db, order) && delivered <= |order|
  {
    if !fails then Some(EncodeAll(JoinAll(db, order[..delivered])))
    else if delivered == 0 then Some([])
    else None
  }

  /** A drawn id is spelled as the database prints it, and nobody has seen it before. */
  ghost predicate Unseen(canon: string -> string, r: Repo, id: string) {
    && canon(id) == id
    && (forall text :: text in r.cached.byId ==> canon(text) != id)
    && (forall i :: i in r.reading && r.reading[i].FileRead? ==> canon(r.reading[i].text) != id)
    && (forall i :: i in r.reading && r.reading[i].ListRead? ==> id !in IdsOf(r.reading[i].jsons))
    && (r.cached.list.Some? ==> id !in IdsOf(r.cached.list.value))
  }

  /** A drawn id is new, and a writer does one thing at a time. */
  ghost predicate Possible(canon: string -> string, r: Repo, call: Call) {
    && (call.QueryList? ==> IsOrder(r.db, call.order) && call.delivered <= |call.order|)
    && (call.CreateFileReference? ==> Unseen(canon, r, call.id) && call.writer !in r.writing)
    && (call.DeleteByID? ==> call.writer !in r.writing)
  }

  function Do(canon: string -> string, r: Repo, call: Call): Repo
    requires call.QueryList? ==> IsOrder(r.db, call.order) && call.delivered <= |call.order|
  {
    match call
    case CreateStorage(h, row, fails) =>
      if !fails && CanInsertStorage(r.db, h, row.path) then r.(db := InsertStorage(r.db, h, row)) else r
    case IncrementStorageRef(h, now, fails) =>
      if fails then r else r.(db := AddToCount(r.db, h, 1, now))
    case DecrementStorageRef(h, now, fails) =>
      if fails then r else r.(db := AddToCount(r.db, h, -1, now))
    case DeleteStorage(h, fails) =>
      if fails then r else r.(db := Schema.DeleteStorage(r.db, h))
    case CreateFileReference(i, id, file, fails) =>
      if !fails && CanInsertFile(r.db, id, file.hash) then
        r.(db := InsertFile(r.db, id, file), writing := r.writing[i := Invalidates])
      else r
    case DeleteByID(i, text, fails) =>
      r.(db := if fails then r.db else DeleteFile(r.db, canon(text)), writing := r.writing[i := Forgets(text)])
    case ForgetFile(i, up) =>
      if i in r.writing && r.writing[i].Forgets? then
        r.(cached := if up then r.cached.(byId := r.cached.byId - {r.writing[i].text}) else r.cached,
           writing := r.writing[i := Invalidates])
      else r
    case ForgetList(i, up) =>
      if i in r.writing && r.writing[i].Invalidates? then
        r.(cached := Invalidated(up, r.cached), writing := r.writing - {i})
      else r
    case QueryFile(i, text, fails) =>
      if !fails && Joins(r.db, canon(text)) then
        r.(reading := r.reading[i := FileRead(text, Encode(Join(r.db, canon(text))))])
      else r.(reading := r.reading - {i})
    case FillFile(i, up) =>
      if i in r.reading && r.reading[i].FileRead? then
        r.(cached := if up then Filled(r.cached, r.reading[i]) else r.cached, reading := r.reading - {i})
      else r
    case QueryList(i, order, delivered, fails) =>
      var rows := ListRows(r.db, order, delivered, fails);
      r.(reading := if rows.Some? then r.reading[i := ListRead(rows.value)] else r.reading - {i})
    case FillList(i, up) =>
      if i in r.reading && r.reading[i].ListRead? then
        r.(cached := if up then r.cached.(list := Some(r.reading[i].jsons)) else r.cached,
           reading := r.reading - {i})
      else r
    case ExpireFile(text) =>
      r.(cached := r.cached.(byId := r.cached.byId - {text}))
    case ExpireList =>
      r.(cached := r.cached.(list := None))
  }

  function Filled(c: Cached, reading: Reading): Cached
    requires reading.FileRead?
  {
    c.(byId := c.byId[reading.text := reading.json])
  }

  // ---------- a call that is not interrupted ----------

  /** After GetByID: a hit changes nothing, a miss that finds the row fills the entry. */
  function Fetched(canon: string -> string, db: Db, c: Cached, text: string, fails: bool, up: bool): Cached {
    if up && text !in c.byId && !fails && Joins(db, canon(text)) then
      c.(byId := c.byId[text := Encode(Join(db, canon(text)))])
    else c
  }

  /** After List: a hit changes nothing, a miss caches whatever rows arrived. */
  function Listed(db: Db, c: Cached, order: seq<string>, delivered: nat, fails: bool, up: bool): Cached
    requires IsOrder(db, order) && delivered <= |order|
  {
    if !up || c.list.Some? then c
    else
      var rows := ListRows(db, order, delivered, fails);
      if rows.Some? then c.(list := rows) else c
  }

  /** A GetByID that misses and is not interrupted is its query and its fill. */
  lemma FileMissInSteps(canon: string -> string, r: Repo, i: nat, text: string, fails: bool, up: bool)
    requires i !in r.reading && text !in r.cached.byId
    ensures Do(canon, Do(canon, r, QueryFile(i, text, fails)), FillFile(i, up))
         == r.(cached := Fetched(canon, r.db, r.cached, text, fails, up))
  {
    assert r.reading - {i} == r.reading;
    assert Do(canon, r, QueryFile(i, text, fails)).reading - {i} == r.reading;
  }

  /** And so is a List. */
  lemma ListMissInSteps(canon: string -> string, r: Repo, i: nat, order: seq<string>, delivered: nat,
                        fails: bool, up: bool)
    requires i !in r.reading && r.cached.list.None? && IsOrder(r.db, order) && delivered <= |order|
    ensures Do(canon, Do(canon, r, QueryList(i, order, delivered, fails)), FillList(i, up))
         == r.(cached := Listed(r.db, r.cached, order, delivered, fails, up))
  {
    assert r.reading - {i} == r.reading;
    assert Do(canon, r, QueryList(i, order, delivered, fails)).reading - {i} == r.reading;
  }

  /** A DeleteByID that is not interrupted is its statement and its two DELs. */
  lemma DeleteInSteps(canon: string -> string, r: Repo, i: nat, text: string, fails: bool, up: bool)
    requires i !in r.writing
    ensures Do(canon, Do(canon, Do(canon, r, DeleteByID(i, text, fails)), ForgetFile(i, up)), ForgetList(i, up))
         == r.(db := if fails then r.db else DeleteFile(r.db, canon(text)), cached := Forgotten(r.cached, text, up))
  {
    assert r.writing[i := Forgets(text)][i := Invalidates] - {i} == r.writing;
  }

  /** A CreateFileReference that succeeds and is not interrupted is its statement and its DEL. */
  lemma CreateInSteps(canon: string -> string, r: Repo, i: nat, id: string, file: FileRow, up: bool)
    requires i !in r.writing && CanInsertFile(r.db, id, file.hash)
    ensures Do(canon, Do(canon, r, CreateFileReference(i, id, file, false)), ForgetList(i, up))
         == r.(db := InsertFile(r.db, id, file), cached := Invalidated(up, r.cached))
  {
    assert r.writing[i := Invalidates] - {i} == r.writing;
  }

  // ---------- agreement ----------

  /** An entry without the two columns that change while the row lives. */
  function Lasting(j: FileJson): FileJson {
    if j.storage.None? then j
    else j.(storage := Some(j.storage.value.(reference_count := 0, updated_at := 0)))
  }

  /** The entry belongs to an existing file and agrees with a fresh join on id, name, hash, size,
      content type and both creation times. */
  ghost predicate EntryAgrees(canon: string -> string, db: Db, text: string, j: FileJson) {
    Joins(db, canon(text)) && Lasting(j) == Lasting(Encode(Join(db, canon(text))))
  }

  ghost predicate EntriesAgree(canon: string -> string, r: Repo) {
    forall text :: text in r.cached.byId ==> EntryAgrees(canon, r.db, text, r.cached.byId[text])
  }

  function IdsOf(js: seq<FileJson>): (ids: seq<string>)
    ensures |ids| == |js| && forall i :: 0 <= i < |js| ==> ids[i] == js[i].id
  {
    seq(|js|, i requires 0 <= i < |js| => js[i].id)
  }

  ghost predicate ItemAgrees(db: Db, j: FileJson) {
    Joins(db, j.id) && Lasting(j) == Lasting(Encode(Join(db, j.id)))
  }

  /** The rows name the files of some answer of a fresh query, and agree with it on everything that
      lasts. */
  ghost predicate IsAnswer(db: Db, js: seq<FileJson>) {
    IsOrder(db, IdsOf(js)) && forall i :: 0 <= i < |js| ==> ItemAgrees(db, js[i])
  }

  ghost predicate ListAgrees(r: Repo) {
    r.cached.list.Some? ==> IsAnswer(r.db, r.cached.list.value)
  }

  /** What a reader holds was right when it was read: it agrees on every file that is still there. */
  ghost predicate ReadingHolds(canon: string -> string, db: Db, reading: Reading) {
    match reading
    case FileRead(text, j) => canon(text) in db.files ==> EntryAgrees(canon, db, text, j)
    case ListRead(js) =>
      && Distinct(IdsOf(js))
      && (forall i, k :: 0 <= i < k < |js| ==> js[i].created_at >= js[k].created_at)
      && (forall i :: 0 <= i < |js| && js[i].id in db.files ==> ItemAgrees(db, js[i]))
  }

  ghost predicate ReadingsHold(canon: string -> string, r: Repo) {
    forall i :: i in r.reading ==> ReadingHolds(canon, r.db, r.reading[i])
  }

  ghost predicate EntriesHold(canon: string -> string, r: Repo) {
    forall text :: text in r.cached.byId ==> ReadingHolds(canon, r.db, FileRead(text, r.cached.byId[text]))
  }

  ghost predicate ListHolds(canon: string -> string, r: Repo) {
    r.cached.list.Some? ==> ReadingHolds(canon, r.db, ListRead(r.cached.list.value))
  }

  /** The constraints hold, and all that is cached or about to be is right for the files there are. */
  ghost predicate AllHolds(canon: string -> string, r: Repo) {
    SchemaHolds(r.db) && ReadingsHold(canon, r) && EntriesHold(canon, r) && ListHolds(canon, r)
  }

  // ---------- the tables under a call ----------

  /** The columns of a row that an UPDATE never touches. */
  ghost predicate SameColumns(r: Row, r': Row) {
    r'.size == r.size && r'.contentType == r.contentType && r'.path == r.path && r'.createdAt == r.createdAt
  }

  /** Files that stay keep their row's lasting columns: the foreign key forbids that a referenced
      row is deleted and created anew. */
  ghost predicate FilesKeepRows(db: Db, db': Db) {
    forall id :: id in db.files && id in db'.files ==>
      && db'.files[id] == db.files[id]
      && Joins(db, id) && Joins(db', id)
      && SameColumns(db.rows[db.files[id].hash], db'.rows[db.files[id].hash])
  }

  /** Rows of the same hash before and after agree on the columns that no UPDATE touches. */
  ghost predicate RowsLast(db: Db, db': Db) {
    forall h :: h in db.rows && h in db'.rows ==> SameColumns(db.rows[h], db'.rows[h])
  }

  ghost predicate FilesLast(db: Db, db': Db) {
    forall id :: id in db.files && id in db'.files ==> db'.files[id] == db.files[id]
  }

  lemma LastingTables(db: Db, db': Db)
    requires RowsLast(db, db') && FilesLast(db, db') && ForeignKey(db) && ForeignKey(db')
    ensures FilesKeepRows(db, db')
  {
  }

  lemma CallKeepsTables(canon: string -> string, r: Repo, call: Call)
    requires Possible(canon, r, call)
    ensures RowsLast(r.db, Do(canon, r, call).db) && FilesLast(r.db, Do(canon, r, call).db)
  {
  }

  lemma CallKeepsSchema(canon: string -> string, r: Repo, call: Call)
    requires SchemaHolds(r.db) && Possible(canon, r, call)
    ensures SchemaHolds(Do(canon, r, call).db)
  {
  }

  lemma CallKeepsRows(canon: string -> string, r: Repo, call: Call)
    requires SchemaHolds(r.db) && Possible(canon, r, call)
    ensures SchemaHolds(Do(canon, r, call).db) && FilesKeepRows(r.db, Do(canon, r, call).db)
  {
    CallKeepsSchema(canon, r, call);
    CallKeepsTables(canon, r, call);
    LastingTables(r.db, Do(canon, r, call).db);
  }

  lemma EntryStillAgrees(canon: string -> string, db: Db, db': Db, text: string, j: FileJson)
    requires FilesKeepRows(db, db') && EntryAgrees(canon, db, text, j) && canon(text) in db'.files
    ensures EntryAgrees(canon, db', text, j)
  {
  }

  lemma ItemStillAgrees(db: Db, db': Db, j: FileJson)
    requires FilesKeepRows(db, db') && ItemAgrees(db, j) && j.id in db'.files
    ensures ItemAgrees(db', j)
  {
  }

  // ---------- readers ----------

  /** The files a call adds: at most the one it creates. */
  lemma CallAddsFiles(canon: string -> string, r: Repo, call: Call, id: string)
    requires Possible(canon, r, call) && id in Do(canon, r, call).db.files && id !in r.db.files
    ensures call.CreateFileReference? && call.id == id
  {
  }

  lemma QueriedNames(db: Db, order: seq<string>, delivered: nat)
    requires IsOrder(db, order) && delivered <= |order|
    ensures IdsOf(EncodeAll(JoinAll(db, order[..delivered]))) == order[..delivered]
  {
    var files := JoinAll(db, order[..delivered]);
    assert forall i :: 0 <= i < delivered ==> files[i] == Join(db, order[..delivered][i]);
  }

  lemma QueriedRow(db: Db, order: seq<string>, delivered: nat, i: nat)
    requires IsOrder(db, order) && i < delivered <= |order|
    ensures EncodeAll(JoinAll(db, order[..delivered]))[i] == Encode(Join(db, order[i]))
  {
    assert JoinAll(db, order[..delivered])[i] == Join(db, order[..delivered][i]);
  }

  lemma QueriedRows(canon: string -> string, db: Db, order: seq<string>, delivered: nat)
    requires IsOrder(db, order) && delivered <= |order|
    ensures ReadingHolds(canon, db, ListRead(EncodeAll(JoinAll(db, order[..delivered]))))
  {
    var js := EncodeAll(JoinAll(db, order[..delivered]));
    QueriedNames(db, order, delivered);
    forall i | 0 <= i < |js|
      ensures js[i].created_at == db.files[order[i]].createdAt && ItemAgrees(db, js[i])
    {
      QueriedRow(db, order, delivered, i);
    }
  }

  lemma ReadingStillHolds(canon: string -> string, db: Db, db': Db, reading: Reading)
    requires FilesKeepRows(db, db') && ReadingHolds(canon, db, reading)
    requires reading.FileRead? && canon(reading.text) in db'.files ==> canon(reading.text) in db.files
    requires reading.ListRead? ==> forall i :: 0 <= i < |reading.jsons| && reading.jsons[i].id in db'.files ==>
               reading.jsons[i].id in db.files
    ensures ReadingHolds(canon, db', reading)
  {
    if reading.FileRead? {
      if canon(reading.text) in db'.files {
        EntryStillAgrees(canon, db, db', reading.text, reading.json);
      }
    } else {
      forall i | 0 <= i < |reading.jsons| && reading.jsons[i].id in db'.files
        ensures ItemAgrees(db', reading.jsons[i])
      {
        ItemStillAgrees(db, db', reading.jsons[i]);
      }
    }
  }

  /** A drawn id is none that somebody has read. */
  lemma ReadIsNotDrawn(canon: string -> string, r: Repo, call: Call, reading: Reading)
    requires Possible(canon, r, call)
    requires call.CreateFileReference? ==>
               if reading.FileRead? then canon(reading.text) != call.id else call.id !in IdsOf(reading.jsons)
    ensures var db' := Do(canon, r, call).db;
            && (reading.FileRead? && canon(reading.text) in db'.files ==> canon(reading.text) in r.db.files)
            && (reading.ListRead? ==> forall i :: 0 <= i < |reading.jsons| && reading.jsons[i].id in db'.files ==>
                  reading.jsons[i].id in r.db.files)
  {
    if reading.FileRead? {
      if canon(reading.text) in Do(canon, r, call).db.files && canon(reading.text) !in r.db.files {
        CallAddsFiles(canon, r, call, canon(reading.text));
      }
    } else {
      forall i | 0 <= i < |reading.jsons| && reading.jsons[i].id in Do(canon, r, call).db.files
        ensures reading.jsons[i].id in r.db.files
      {
        if reading.jsons[i].id !in r.db.files {
          CallAddsFiles(canon, r, call, reading.jsons[i].id);
        }
      }
    }
  }

  lemma SnapshotKept(canon: string -> string, r: Repo, call: Call, reading: Reading)
    requires SchemaHolds(r.db) && Possible(canon, r, call) && ReadingHolds(canon, r.db, reading)
    requires call.CreateFileReference? ==>
               if reading.FileRead? then canon(reading.text) != call.id else call.id !in IdsOf(reading.jsons)
    ensures ReadingHolds(canon, Do(canon, r, call).db, reading)
  {
    CallKeepsRows(canon, r, call);
    ReadIsNotDrawn(canon, r, call, reading);
    ReadingStillHolds(canon, r.db, Do(canon, r, call).db, reading);
  }

  /** What a reader holds after a call it held before, or has just queried. */
  lemma ReadingOrigin(canon: string -> string, r: Repo, call: Call, i: nat)
    requires Possible(canon, r, call) && i in Do(canon, r, call).reading
    ensures var r' := Do(canon, r, call);
            || (i in r.reading && r'.reading[i] == r.reading[i])
            || (r'.db == r.db && call.QueryFile? && Joins(r.db, canon(call.text))
                && r'.reading[i] == FileRead(call.text, Encode(Join(r.db, canon(call.text)))))
            || (r'.db == r.db && call.QueryList? && ListRows(r.db, call.order, call.delivered, call.fails).Some?
                && r'.reading[i] == ListRead(ListRows(r.db, call.order, call.delivered, call.fails).value))
  {
  }

  lemma QueriedListHolds(canon: string -> string, db: Db, order: seq<string>, delivered: nat, fails: bool)
    requires IsOrder(db, order) && delivered <= |order| && ListRows(db, order, delivered, fails).Some?
    ensures ReadingHolds(canon, db, ListRead(ListRows(db, order, delivered, fails).value))
  {
    if fails {
      assert IdsOf([]) == [];
    } else {
      QueriedRows(canon, db, order, delivered);
    }
  }

  lemma ReadingsKept(canon: string -> string, r: Repo, call: Call)
    requires SchemaHolds(r.db) && ReadingsHold(canon, r) && Possible(canon, r, call)
    ensures ReadingsHold(canon, Do(canon, r, call))
  {
    var r' := Do(canon, r, call);
    forall i | i in r'.reading
      ensures ReadingHolds(canon, r'.db, r'.reading[i])
    {
      ReadingOrigin(canon, r, call, i);
      if i in r.reading && r'.reading[i] == r.reading[i] {
        SnapshotKept(canon, r, call, r.reading[i]);
      } else if call.QueryList? {
        QueriedListHolds(canon, r.db, call.order, call.delivered, call.fails);
      }
    }
  }

  /** An entry after a call was there before, or is what a reader held. */
  lemma EntryOrigin(canon: string -> string, r: Repo, call: Call, text: string)
    requires Possible(canon, r, call) && text in Do(canon, r, call).cached.byId
    ensures var r' := Do(canon, r, call);
            || (text in r.cached.byId && r'.cached.byId[text] == r.cached.byId[text])
            || (call.FillFile? && call.up && call.reader in r.reading
                && r.reading[call.reader] == FileRead(text, r'.cached.byId[text]))
  {
  }

  lemma EntriesKeptRight(canon: string -> string, r: Repo, call: Call)
    requires SchemaHolds(r.db) && ReadingsHold(canon, r) && EntriesHold(canon, r) && Possible(canon, r, call)
    ensures EntriesHold(canon, Do(canon, r, call))
  {
    var r' := Do(canon, r, call);
    forall text | text in r'.cached.byId
      ensures ReadingHolds(canon, r'.db, FileRead(text, r'.cached.byId[text]))
    {
      EntryOrigin(canon, r, call, text);
      SnapshotKept(canon, r, call, FileRead(text, r'.cached.byId[text]));
    }
  }

  /** So does the list. */
  lemma ListOrigin(canon: string -> string, r: Repo, call: Call)
    requires Possible(canon, r, call) && Do(canon, r, call).cached.list.Some?
    ensures var list := Do(canon, r, call).cached.list;
            || list == r.cached.list
            || (call.FillList? && call.up && call.reader in r.reading && r.reading[call.reader] == ListRead(list.value))
  {
  }

  lemma ListKeptRight(canon: string -> string, r: Repo, call: Call)
    requires SchemaHolds(r.db) && ReadingsHold(canon, r) && ListHolds(canon, r) && Possible(canon, r, call)
    ensures ListHolds(canon, Do(canon, r, call))
  {
    var r' := Do(canon, r, call);
    if r'.cached.list.Some? {
      ListOrigin(canon, r, call);
      SnapshotKept(canon, r, call, ListRead(r'.cached.list.value));
    }
  }

  /** Whatever happens, and whatever fails: what is cached, or about to be, stays right for the files
      that are there. */
  lemma AllKept(canon: string -> string, r: Repo, call: Call)
    requires AllHolds(canon, r) && Possible(canon, r, call)
    ensures AllHolds(canon, Do(canon, r, call))
  {
    CallKeepsSchema(canon, r, call);
    ReadingsKept(canon, r, call);
    EntriesKeptRight(canon, r, call);
    ListKeptRight(canon, r, call);
  }
}
