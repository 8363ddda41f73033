/** The service as its clients see it: uploads, deletes, downloads and lists through the cache. */
module Worlds {
  import opened Wrappers
  import opened Model
  import opened Schema
  import opened Listing
  import opened Protocol
  import opened PlainMap
  import opened Clean
  import opened Cache
  import opened Metadata

  datatype World = World(store: Store, cached: Cached)

  const NEW_WORLD := World(EMPTY, NOTHING)

  /** A delete and a download carry the text of their request. */
  datatype Act =
    | Serve(op: Op)
    | Download(text: string)
    | ListFiles(order: seq<string>)
    | FileExpires(text: string)
    | ListExpires

  /** The operation on the tables: a delete of the file that the text denotes. */
  function Keyed(canon: string -> string, op: Op): Op {
    match op
    case UploadOp(a, faults) => op
    case DeleteOp(text, now, faults) => DeleteOp(canon(text), now, faults)
  }

  /** A drawn id is spelled as the database prints it, and no cached text denotes it. */
  ghost predicate Drawn(canon: string -> string, c: Cached, op: Op) {
    op.UploadOp? ==>
      op.args.path != "" && canon(op.args.id) == op.args.id
      && forall text :: text in c.byId ==> canon(text) != op.args.id
  }

  ghost predicate CanHappen(canon: string -> string, w: World, act: Act) {
    match act
    case Serve(op) => op.faults == {} && Fresh(w.store, op) && Drawn(canon, w.cached, op)
    case ListFiles(order) => IsOrder(w.store.db, order)
    case _ => true
  }

  function CachedAfter(canon: string -> string, sha: Bytes -> Hash, s: Store, c: Cached, op: Op): Cached {
    match op
    case UploadOp(a, faults) => if Succeeds(sha, s, op) then Invalidated(true, c) else c
    case DeleteOp(text, now, faults) =>
      if FindHash in faults || canon(text) !in s.db.files then c else Forgotten(c, text, true)
  }

  function After(canon: string -> string, sha: Bytes -> Hash, w: World, act: Act): World
    requires act.ListFiles? ==> IsOrder(w.store.db, act.order)
  {
    match act
    case Serve(op) =>
      World(Apply(sha, w.store, Keyed(canon, op)), CachedAfter(canon, sha, w.store, w.cached, op))
    case Download(text) => w.(cached := Fetched(canon, w.store.db, w.cached, text, false, true))
    case ListFiles(order) => w.(cached := Listed(w.store.db, w.cached, order, |order|, false, true))
    case FileExpires(text) => w.(cached := w.cached.(byId := w.cached.byId - {text}))
    case ListExpires => w.(cached := w.cached.(list := None))
  }

  // ---------- answers ----------

  /** What a back end hands over: bytes, or an opened folder, from which reading fails. */
  datatype Content = Readable(bytes: Bytes) | Unreadable

  /** Get of a back end. The empty path names no blob; a back end may open its base folder for it. */
  function Opened(opensBase: bool, blobs: map<string, Bytes>, path: string): Result<Content, Error> {
    if path in blobs then Success(Readable(blobs[path]))
    else if path == "" && opensBase then Success(Unreadable)
    else Failure(NotFound)
  }

  /** GetByID: the decoded cache entry, or the join. `fails` makes the query fail, `up` says whether
      Redis can be reached. */
  function FileAnswer(canon: string -> string, w: World, text: string, fails: bool, up: bool): Result<File, Error> {
    if up && text in w.cached.byId then Success(Decode(w.cached.byId[text]))
    else if !fails && Joins(w.store.db, canon(text)) then Success(Join(w.store.db, canon(text)))
    else Failure(NotFound)
  }

  /** Download: the file, then the blob under the path that the file carries. */
  function DownloadUnder(canon: string -> string, opensBase: bool, w: World, text: string,
                         fails: bool, up: bool, getFails: bool): Result<(File, Content), Error>
  {
    match FileAnswer(canon, w, text, fails, up)
    case Failure(e) => Failure(e)
    case Success(f) =>
      if getFails then Failure(NotFound)
      else
        match Opened(opensBase, w.store.blobs, f.GetStoragePath())
        case Failure(e) => Failure(e)
        case Success(content) => Success((f, content))
  }

  /** The same without faults. */
  function DownloadAnswer(canon: string -> string, opensBase: bool, w: World, text: string):
    Result<(File, Content), Error>
  {
    DownloadUnder(canon, opensBase, w, text, false, true, false)
  }

  predicate Delivers(answer: Result<(File, Content), Error>) {
    answer.Success? && answer.value.1.Readable?
  }

  /** List: the cached rows, or those that arrive. */
  function ListUnder(w: World, order: seq<string>, delivered: nat, fails: bool, up: bool): Result<seq<File>, Error>
    requires IsOrder(w.store.db, order) && delivered <= |order|
  {
    if up && w.cached.list.Some? then Success(DecodeAll(w.cached.list.value))
    else if !fails then Success(JoinAll(w.store.db, order[..delivered]))
    else if delivered == 0 then Success([])
    else Failure(Database)
  }

  /** The same without faults. */
  function ListAnswer(w: World, order: seq<string>): seq<File>
    requires IsOrder(w.store.db, order)
  {
    ListUnder(w, order, |order|, false, true).value
  }

  // ---------- the invariant ----------

  /** The cached list is an answer that a fresh query may give, counts included. */
  ghost predicate ListExact(db: Db, c: Cached) {
    c.list.Some? ==> exists order :: IsOrder(db, order) && c.list.value == EncodeAll(JoinAll(db, order))
  }

  /** An entry whose file is still there agrees with the join. */
  ghost predicate LiveEntriesAgree(canon: string -> string, db: Db, c: Cached) {
    forall text :: text in c.byId && canon(text) in db.files ==> EntryAgrees(canon, db, text, c.byId[text])
  }

  ghost predicate Good(canon: string -> string, sha: Bytes -> Hash, w: World) {
    && IsClean(sha, w.store)
    && LiveEntriesAgree(canon, w.store.db, w.cached)
    && ListExact(w.store.db, w.cached)
    && "" !in w.store.blobs
  }

  lemma ServeKeepsEntries(canon: string -> string, sha: Bytes -> Hash, w: World, op: Op)
    requires Good(canon, sha, w) && CanHappen(canon, w, Serve(op))
    ensures var w' := After(canon, sha, w, Serve(op)); LiveEntriesAgree(canon, w'.store.db, w'.cached)
  {
    OpKeepsRows(sha, w.store, Keyed(canon, op));
    OpFiles(sha, w.store, Keyed(canon, op));
    var w' := After(canon, sha, w, Serve(op));
    forall text | text in w'.cached.byId && canon(text) in w'.store.db.files
      ensures EntryAgrees(canon, w'.store.db, text, w'.cached.byId[text])
    {
      assert EntryAgrees(canon, w.store.db, text, w.cached.byId[text]);
      EntryStillAgrees(canon, w.store.db, w'.store.db, text, w.cached.byId[text]);
    }
  }

  /** Which files and blobs an operation leaves. */
  lemma OpFiles(sha: Bytes -> Hash, s: Store, op: Op)
    requires Fresh(s, op)
    ensures var s' := Apply(sha, s, op);
            match op
            case UploadOp(a, faults) =>
              s'.db.files == (if Succeeds(sha, s, op) then s.db.files[a.id := NewFile(sha, a)] else s.db.files)
            case DeleteOp(id, now, faults) =>
              && s'.db.files == (if Succeeds(sha, s, op) then s.db.files - {id} else s.db.files)
              && s'.blobs.Keys <= s.blobs.Keys
  {
    match op {
      case UploadOp(a, faults) => UploadHasEffect(sha, s, a, faults);
      case DeleteOp(id, now, faults) => DeleteHasEffect(s, id, now, faults);
    }
  }

  lemma ServeKeepsList(canon: string -> string, sha: Bytes -> Hash, w: World, op: Op)
    requires Good(canon, sha, w) && CanHappen(canon, w, Serve(op))
    ensures var w' := After(canon, sha, w, Serve(op)); ListExact(w'.store.db, w'.cached)
  {
    FaultFreeAnswers(sha, w.store, Keyed(canon, op));
    if After(canon, sha, w, Serve(op)).cached.list.Some? {
      UnservedChangesNothing(sha, w.store, Keyed(canon, op));
    }
  }

  /** A fault-free operation that does not succeed changes nothing. */
  lemma UnservedChangesNothing(sha: Bytes -> Hash, s: Store, op: Op)
    requires op.faults == {} && Fresh(s, op) && !Succeeds(sha, s, op)
    ensures Apply(sha, s, op) == s
  {
  }

  lemma NoEmptyPath(sha: Bytes -> Hash, s: Store, op: Op)
    requires "" !in s.blobs && op.faults == {} && Fresh(s, op) && (op.UploadOp? ==> op.args.path != "")
    ensures "" !in Apply(sha, s, op).blobs
  {
  }

  lemma ActKeepsGood(canon: string -> string, sha: Bytes -> Hash, w: World, act: Act)
    requires Good(canon, sha, w) && CanHappen(canon, w, act)
    ensures Good(canon, sha, After(canon, sha, w, act))
  {
    match act {
      case Serve(op) =>
        CleanKept(sha, w.store, Keyed(canon, op));
        ServeKeepsEntries(canon, sha, w, op);
        ServeKeepsList(canon, sha, w, op);
        NoEmptyPath(sha, w.store, Keyed(canon, op));
      case ListFiles(order) =>
        assert order[..|order|] == order;
      case _ =>
    }
  }

  ghost predicate PossibleActs(canon: string -> string, sha: Bytes -> Hash, w: World, acts: seq<Act>)
    decreases |acts|
  {
    acts == []
    || (CanHappen(canon, w, acts[0]) && PossibleActs(canon, sha, After(canon, sha, w, acts[0]), acts[1..]))
  }

  ghost function AfterAll(canon: string -> string, sha: Bytes -> Hash, w: World, acts: seq<Act>): World
    requires PossibleActs(canon, sha, w, acts)
    decreases |acts|
  {
    if acts == [] then w else AfterAll(canon, sha, After(canon, sha, w, acts[0]), acts[1..])
  }

  /** Every fault-free history of the service, with entries expiring at any time. */
  lemma {:induction false} AlwaysGood(canon: string -> string, sha: Bytes -> Hash, w: World, acts: seq<Act>)
    requires Good(canon, sha, w) && PossibleActs(canon, sha, w, acts)
    ensures Good(canon, sha, AfterAll(canon, sha, w, acts))
    decreases |acts|
  {
    if acts == [] {
    } else {
      ActKeepsGood(canon, sha, w, acts[0]);
      AlwaysGood(canon, sha, After(canon, sha, w, acts[0]), acts[1..]);
    }
  }

  // ---------- lists ----------

  lemma DecodedList(db: Db, order: seq<string>)
    requires IsOrder(db, order)
    ensures var files := DecodeAll(EncodeAll(JoinAll(db, order)));
            |files| == |order| && forall i :: 0 <= i < |order| ==> files[i] == Join(db, order[i]).WithoutPaths()
  {
  }

  /** The files are those of an answer that a fresh query may give, up to the storage paths. */
  ghost predicate FreshUpToPaths(db: Db, files: seq<File>, answer: seq<string>) {
    && IsOrder(db, answer) && |files| == |answer|
    && forall i :: 0 <= i < |answer| ==> files[i].WithoutPaths() == Join(db, answer[i]).WithoutPaths()
  }

  ghost predicate IsFreshList(db: Db, files: seq<File>) {
    exists answer :: FreshUpToPaths(db, files, answer)
  }

  /** List, from the cache or not, answers what a fresh query may answer, reference counts
      included, up to the storage paths. */
  lemma ListIsFresh(canon: string -> string, sha: Bytes -> Hash, acts: seq<Act>, order: seq<string>)
    requires PossibleActs(canon, sha, NEW_WORLD, acts)
    requires IsOrder(AfterAll(canon, sha, NEW_WORLD, acts).store.db, order)
    ensures var w := AfterAll(canon, sha, NEW_WORLD, acts); IsFreshList(w.store.db, ListAnswer(w, order))
  {
    AlwaysGood(canon, sha, NEW_WORLD, acts);
    ListOfGood(AfterAll(canon, sha, NEW_WORLD, acts), order);
  }

  lemma ListOfGood(w: World, order: seq<string>)
    requires ListExact(w.store.db, w.cached) && IsOrder(w.store.db, order)
    ensures IsFreshList(w.store.db, ListAnswer(w, order))
  {
    if w.cached.list.Some? {
      var answer :| IsOrder(w.store.db, answer) && w.cached.list.value == EncodeAll(JoinAll(w.store.db, answer));
      DecodedList(w.store.db, answer);
      assert FreshUpToPaths(w.store.db, ListAnswer(w, order), answer);
    } else {
      assert FreshUpToPaths(w.store.db, ListAnswer(w, order), order);
    }
  }

  lemma ListOfMiss(w: World, order: seq<string>)
    requires w.cached.list.None? && IsOrder(w.store.db, order)
    ensures ListAnswer(w, order) == JoinAll(w.store.db, order)
  {
    assert order[..|order|] == order;
  }

  lemma ListIsCached(canon: string -> string, sha: Bytes -> Hash, w: World, order: seq<string>)
    requires w.cached.list.None? && IsOrder(w.store.db, order)
    ensures var w' := After(canon, sha, w, ListFiles(order));
            w'.store == w.store && w'.cached.list == Some(EncodeAll(JoinAll(w.store.db, order)))
  {
    assert order[..|order|] == order;
  }

  /** Until its key expires a list comes from the cache, as it was fetched, and after that from the
      tables, with its storage paths. */
  lemma ExpiredListIsFetched(canon: string -> string, sha: Bytes -> Hash, w: World, order: seq<string>,
                             later: seq<string>)
    requires w.cached.list.None? && IsOrder(w.store.db, order) && IsOrder(w.store.db, later)
    ensures var w' := After(canon, sha, w, ListFiles(order));
            && w'.store == w.store
            && ListAnswer(w', later) == DecodeAll(EncodeAll(JoinAll(w.store.db, order)))
            && ListAnswer(After(canon, sha, w', ListExpires), later) == JoinAll(w.store.db, later)
  {
    ListIsCached(canon, sha, w, order);
    ListOfMiss(After(canon, sha, After(canon, sha, w, ListFiles(order)), ListExpires), later);
  }

  /** List under faults. It answers unless the query fails and the legacy query finds a row; and it
      answers what a fresh query may answer exactly if the list comes from the cache, or all rows
      arrive, or there is no file. Redis out of reach makes no answer fail. */
  lemma ListUnderExactly(w: World, order: seq<string>, delivered: nat, fails: bool, up: bool)
    requires ForeignKey(w.store.db) && ListExact(w.store.db, w.cached)
    requires IsOrder(w.store.db, order) && delivered <= |order|
    ensures var answer, hit := ListUnder(w, order, delivered, fails, up), up && w.cached.list.Some?;
            && (answer.Success? <==> hit || !fails || delivered == 0)
            && (answer.Failure? ==> answer.error == Database)
            && (answer.Success? ==>
                  (IsFreshList(w.store.db, answer.value) <==>
                     hit || (!fails && delivered == |order|) || w.store.db.files == map[]))
            && (!hit && !fails ==>
                  |answer.value| == delivered
                  && forall i :: 0 <= i < delivered ==> answer.value[i] == Join(w.store.db, order[i]))
  {
    var answer := ListUnder(w, order, delivered, fails, up);
    if up && w.cached.list.Some? {
      ListOfGood(w, order);
    } else if !fails {
      PartIsFresh(w.store.db, order, delivered);
    } else if delivered == 0 {
      PartIsFresh(w.store.db, order, 0);
      assert order[..0] == [];
    }
  }

  /** What does not arrive is not among what arrives. */
  lemma RestIsMissing(order: seq<string>, delivered: nat)
    requires Distinct(order) && delivered <= |order|
    ensures delivered < |order| ==> order[delivered] !in order[..delivered]
  {
  }

  lemma FreshNamesAll(db: Db, order: seq<string>, delivered: nat, answer: seq<string>)
    requires IsOrder(db, order) && delivered <= |order|
    requires FreshUpToPaths(db, JoinAll(db, order[..delivered]), answer)
    ensures answer == order[..delivered]
    ensures delivered < |order| ==> order[delivered] in order[..delivered]
  {
    var files := JoinAll(db, order[..delivered]);
    forall n | 0 <= n < delivered
      ensures answer[n] == order[..delivered][n]
    {
      assert files[n] == Join(db, order[..delivered][n]) && files[n].WithoutPaths().id == answer[n];
    }
    assert answer == order[..delivered];
    forall n | 0 <= n < |order|
      ensures order[n] in answer
    {
      assert order[n] in JoinedIds(db);
    }
  }

  lemma PartIsFresh(db: Db, order: seq<string>, delivered: nat)
    requires ForeignKey(db) && IsOrder(db, order) && delivered <= |order|
    ensures IsFreshList(db, JoinAll(db, order[..delivered])) <==> delivered == |order|
    ensures |order| == 0 <==> db.files == map[]
  {
    var files := JoinAll(db, order[..delivered]);
    if delivered == |order| {
      assert order[..delivered] == order;
      assert FreshUpToPaths(db, files, order);
    } else if IsFreshList(db, files) {
      var answer :| FreshUpToPaths(db, files, answer);
      FreshNamesAll(db, order, delivered, answer);
      RestIsMissing(order, delivered);
      assert false;
    }
    EmptyOrder(db, order);
  }

  lemma EmptyOrder(db: Db, order: seq<string>)
    requires ForeignKey(db) && IsOrder(db, order)
    ensures |order| == 0 <==> db.files == map[]
  {
    if order != [] {
      assert order[0] in db.files;
    } else {
      assert forall id :: id in db.files ==> id in JoinedIds(db);
    }
  }

  // ---------- what reads leave in the cache ----------

  /** A download leaves the record that it got in the cache if Redis is reachable, and else changes
      nothing there. */
  lemma DownloadCachesItsRecord(canon: string -> string, w: World, text: string, fails: bool, up: bool)
    ensures var c := Fetched(canon, w.store.db, w.cached, text, fails, up);
            var answer := FileAnswer(canon, w, text, fails, up);
            && (up ==> (text in c.byId <==> answer.Success?))
            && (up && answer.Success? ==> Decode(c.byId[text]) == answer.value.WithoutPaths())
            && (!up ==> c == w.cached)
            && c.list == w.cached.list
            && (forall other :: other != text ==>
                  (other in c.byId <==> other in w.cached.byId)
                  && (other in c.byId ==> c.byId[other] == w.cached.byId[other]))
  {
  }

  /** So does a list, with the rows that it got, be they all or not. */
  lemma ListCachesItsAnswer(w: World, order: seq<string>, delivered: nat, fails: bool, up: bool)
    requires IsOrder(w.store.db, order) && delivered <= |order|
    ensures var c, answer := Listed(w.store.db, w.cached, order, delivered, fails, up),
                             ListUnder(w, order, delivered, fails, up);
            && c.byId == w.cached.byId
            && (!up || answer.Failure? ==> c == w.cached)
            && (up && answer.Success? ==> c.list.Some? && SameUpToPaths(DecodeAll(c.list.value), answer.value))
  {
  }

  predicate SameUpToPaths(files: seq<File>, gs: seq<File>) {
    |files| == |gs| && forall i :: 0 <= i < |files| ==> files[i].WithoutPaths() == gs[i].WithoutPaths()
  }

  // ---------- downloads ----------

  /** Download under faults, in all cases. It delivers if and only if neither the blob call nor a
      query that is needed fails, the file exists, and the record does not come from the cache.
      Redis out of reach makes no download fail. */
  lemma DownloadUnderExactly(canon: string -> string, opensBase: bool, sha: Bytes -> Hash, w: World, text: string,
                             fails: bool, up: bool, getFails: bool)
    requires Good(canon, sha, w)
    ensures Served(w.store)
    ensures var id, hit := canon(text), up && text in w.cached.byId;
            var answer := DownloadUnder(canon, opensBase, w, text, fails, up, getFails);
            && (Delivers(answer) <==> !getFails && !fails && id in w.store.db.files && !hit)
            && (Delivers(answer) ==>
                  answer.value == (Join(w.store.db, id), Readable(ContentOf(w.store, id))))
            && (answer.Success? && !Delivers(answer) <==> hit && !getFails && opensBase)
            && (hit && answer.Success? ==> answer.value == (Decode(w.cached.byId[text]), Unreadable))
            && (answer.Failure? ==> answer.error == NotFound)
  {
    CleanIsSound(sha, w.store);
    SoundServes(sha, w.store);
    if text in w.cached.byId {
      assert Decode(w.cached.byId[text]).GetStoragePath() == "";
    }
  }

  /** A download delivers bytes if and only if the file exists and the text of the request is not
      cached; it then returns the joined record and the bytes under its row. A cached record carries
      no storage path, so the empty path is asked for: that fails, or opens a folder. */
  lemma DownloadExactly(canon: string -> string, opensBase: bool, sha: Bytes -> Hash, w: World, text: string)
    requires Good(canon, sha, w)
    ensures Served(w.store)
    ensures var id, answer := canon(text), DownloadAnswer(canon, opensBase, w, text);
            && (Delivers(answer) <==> id in w.store.db.files && text !in w.cached.byId)
            && answer == (if text in w.cached.byId then
                            if opensBase then Success((Decode(w.cached.byId[text]), Unreadable)) else Failure(NotFound)
                          else if id in w.store.db.files then
                            Success((Join(w.store.db, id), Readable(ContentOf(w.store, id))))
                          else Failure(NotFound))
  {
    CleanIsSound(sha, w.store);
    SoundServes(sha, w.store);
    if text in w.cached.byId {
      assert Decode(w.cached.byId[text]).GetStoragePath() == "";
    }
  }

  /** Right after a download of a file, and until its entry expires, the file cannot be downloaded
      under the same text, while any other uncached spelling of its id still works. */
  lemma SecondDownloadFails(canon: string -> string, opensBase: bool, sha: Bytes -> Hash, w: World, text: string,
                            other: string)
    requires Good(canon, sha, w) && canon(text) in w.store.db.files
    requires canon(other) == canon(text) && other != text && other !in w.cached.byId
    ensures var w' := After(canon, sha, w, Download(text));
            && Good(canon, sha, w') && !Delivers(DownloadAnswer(canon, opensBase, w', text))
            && Delivers(DownloadAnswer(canon, opensBase, w', other))
            && Delivers(DownloadAnswer(canon, opensBase, After(canon, sha, w', FileExpires(text)), text))
  {
    ActKeepsGood(canon, sha, w, Download(text));
    var w' := After(canon, sha, w, Download(text));
    DownloadExactly(canon, opensBase, sha, w', text);
    DownloadExactly(canon, opensBase, sha, w', other);
    ActKeepsGood(canon, sha, w', FileExpires(text));
    DownloadExactly(canon, opensBase, sha, After(canon, sha, w', FileExpires(text)), text);
  }

  function OpsOf(canon: string -> string, acts: seq<Act>): seq<Op> {
    if acts == [] then []
    else (if acts[0].Serve? then [Keyed(canon, acts[0].op)] else []) + OpsOf(canon, acts[1..])
  }

  /** Downloads, lists and expiries do not touch the store. */
  lemma {:induction false} StoreOfHistory(canon: string -> string, sha: Bytes -> Hash, w: World, acts: seq<Act>)
    requires PossibleActs(canon, sha, w, acts)
    ensures AfterAll(canon, sha, w, acts).store == Run(sha, w.store, OpsOf(canon, acts))
    ensures FreshRun(sha, w.store, OpsOf(canon, acts)) && FaultFree(OpsOf(canon, acts))
    decreases |acts|
  {
    if acts == [] {
    } else {
      StoreOfHistory(canon, sha, After(canon, sha, w, acts[0]), acts[1..]);
      if acts[0].Serve? {
        assert OpsOf(canon, acts)[1..] == OpsOf(canon, acts[1..]);
      } else {
        assert OpsOf(canon, acts) == OpsOf(canon, acts[1..]);
      }
    }
  }

  /** End to end: over every fault-free history from the empty service, a download under an uncached
      text delivers exactly for the ids that the plain map holds, and returns the name and the bytes
      uploaded under that id. */
  lemma DownloadReturnsWhatWasUploaded(canon: string -> string, opensBase: bool, sha: Bytes -> Hash, acts: seq<Act>,
                                       text: string)
    requires PossibleActs(canon, sha, NEW_WORLD, acts) && InjectiveOn(sha, ContentsOf(OpsOf(canon, acts)))
    ensures var w := AfterAll(canon, sha, NEW_WORLD, acts);
            var plain := PlainOps(map[], OpsOf(canon, acts));
            var answer := DownloadAnswer(canon, opensBase, w, text);
            && (Delivers(answer) <==> canon(text) in plain && text !in w.cached.byId)
            && (Delivers(answer) ==>
                  && answer.value.0.name == plain[canon(text)].name
                  && answer.value.1 == Readable(plain[canon(text)].content))
  {
    AlwaysGood(canon, sha, NEW_WORLD, acts);
    StoreOfHistory(canon, sha, NEW_WORLD, acts);
    DeduplicationIsInvisible(sha, OpsOf(canon, acts));
    DownloadExactly(canon, opensBase, sha, AfterAll(canon, sha, NEW_WORLD, acts), text);
  }

  // ---------- stale entries ----------

  /** After a delete, the record of the file is still answered under a text exactly if that text was
      cached and is not the one that the delete was asked with. */
  lemma GoneFileStillAnswered(canon: string -> string, sha: Bytes -> Hash, w: World, text: string, now: Time,
                              other: string)
    requires Good(canon, sha, w) && canon(text) in w.store.db.files && canon(other) == canon(text)
    ensures var w' := After(canon, sha, w, Serve(DeleteOp(text, now, {})));
            && canon(text) !in w'.store.db.files
            && (FileAnswer(canon, w', other, false, true).Success? <==> other in w.cached.byId && other != text)
  {
    DeleteHasEffect(w.store, canon(text), now, {});
  }
}
