/** The reference count in a cached entry: a later duplicate or delete drops only the list, so the
    entry keeps the count of its fill. When that count is right. */
module CachedCounts {
  import opened Model
  import opened Schema
  import opened Protocol
  import opened Clean
  import opened Worlds

  /** The entry shows the count that its row has. */
  predicate CountRight(canon: string -> string, w: World, text: string) {
    && text in w.cached.byId && w.cached.byId[text].storage.Some? && canon(text) in w.store.db.files
    && w.cached.byId[text].storage.value.reference_count == CountOf(w.store.db, w.store.db.files[canon(text)].hash)
  }

  /** A successful upload of content with this digest. */
  predicate Adds(sha: Bytes -> Hash, act: Act, h: Hash) {
    act.Serve? && act.op.UploadOp? && act.op.args.accepted && sha(act.op.args.content) == h
  }

  /** A successful delete of a file of that hash. */
  predicate Takes(canon: string -> string, w: World, act: Act, h: Hash) {
    && act.Serve? && act.op.DeleteOp? && canon(act.op.id) in w.store.db.files
    && w.store.db.files[canon(act.op.id)].hash == h
  }

  /** The act neither lets the entry expire nor deletes its file. */
  predicate Keeps(canon: string -> string, act: Act, text: string) {
    && act != FileExpires(text)
    && !(act.Serve? && act.op.DeleteOp? && canon(act.op.id) == canon(text))
  }

  function One(b: bool): int {
    if b then 1 else 0
  }

  lemma CountAfterUpload(sha: Bytes -> Hash, s: Store, a: UploadArgs, id: string)
    requires IsClean(sha, s) && Fresh(s, UploadOp(a, {})) && id in s.db.files
    ensures var s', h := Upload(sha, s, a, {}).store, s.db.files[id].hash;
            && id in s'.db.files && s'.db.files[id] == s.db.files[id]
            && CountOf(s'.db, h) == CountOf(s.db, h) + One(a.accepted && sha(a.content) == h)
  {
    if a.accepted {
      UploadClosedForm(sha, s, a);
    }
  }

  lemma CountAfterDelete(sha: Bytes -> Hash, s: Store, gone: string, now: Time, id: string)
    requires IsClean(sha, s) && id in s.db.files && gone != id
    ensures var s', h := Delete(s, gone, now, {}).store, s.db.files[id].hash;
            && id in s'.db.files && s'.db.files[id] == s.db.files[id]
            && CountOf(s'.db, h) == CountOf(s.db, h) - One(gone in s.db.files && s.db.files[gone].hash == h)
  {
    if gone in s.db.files {
      DeleteClosedForm(sha, s, gone, now);
      assert gone in FilesOf(s.db, s.db.files[gone].hash);
      assert id in FilesOf(s.db, s.db.files[id].hash);
      if s.db.files[gone].hash == s.db.files[id].hash {
        assert FilesOf(s.db, s.db.files[gone].hash) != {gone};
      }
    }
  }

  /** What one act does to the count of a file that stays. */
  lemma CountAfterAct(canon: string -> string, sha: Bytes -> Hash, w: World, act: Act, text: string)
    requires Good(canon, sha, w) && CanHappen(canon, w, act) && Keeps(canon, act, text)
    requires canon(text) in w.store.db.files
    ensures var w', h := After(canon, sha, w, act), w.store.db.files[canon(text)].hash;
            && canon(text) in w'.store.db.files && w'.store.db.files[canon(text)].hash == h
            && CountOf(w'.store.db, h)
               == CountOf(w.store.db, h) + One(Adds(sha, act, h)) - One(Takes(canon, w, act, h))
  {
    if act.Serve? {
      match act.op {
        case UploadOp(a, faults) => CountAfterUpload(sha, w.store, a, canon(text));
        case DeleteOp(t, now, faults) => CountAfterDelete(sha, w.store, canon(t), now, canon(text));
      }
    }
  }

  lemma EntryAfterAct(canon: string -> string, sha: Bytes -> Hash, w: World, act: Act, text: string)
    requires CanHappen(canon, w, act) && Keeps(canon, act, text) && text in w.cached.byId
    ensures var w' := After(canon, sha, w, act);
            text in w'.cached.byId && w'.cached.byId[text] == w.cached.byId[text]
  {
  }

  /** A fresh fill shows the right count. */
  lemma FillIsRight(canon: string -> string, sha: Bytes -> Hash, w: World, text: string)
    requires Good(canon, sha, w) && canon(text) in w.store.db.files && text !in w.cached.byId
    ensures CountRight(canon, After(canon, sha, w, Download(text)), text)
  {
  }

  /** An act keeps a right count right if and only if it neither uploads that content nor deletes
      another file of it. */
  lemma RightAfterAct(canon: string -> string, sha: Bytes -> Hash, w: World, act: Act, text: string)
    requires Good(canon, sha, w) && CanHappen(canon, w, act) && Keeps(canon, act, text) && CountRight(canon, w, text)
    ensures var h := w.store.db.files[canon(text)].hash;
            CountRight(canon, After(canon, sha, w, act), text) <==> !Adds(sha, act, h) && !Takes(canon, w, act, h)
  {
    CountAfterAct(canon, sha, w, act, text);
    EntryAfterAct(canon, sha, w, act, text);
  }

  // ---------- histories ----------

  ghost predicate KeepsAll(canon: string -> string, acts: seq<Act>, text: string) {
    forall i :: 0 <= i < |acts| ==> Keeps(canon, acts[i], text)
  }

  /** How many acts upload that content. */
  ghost function Ups(sha: Bytes -> Hash, acts: seq<Act>, h: Hash): int {
    if acts == [] then 0 else One(Adds(sha, acts[0], h)) + Ups(sha, acts[1..], h)
  }

  /** How many acts delete a file of that content. */
  ghost function Downs(canon: string -> string, sha: Bytes -> Hash, w: World, acts: seq<Act>, h: Hash): int
    requires PossibleActs(canon, sha, w, acts)
    decreases |acts|
  {
    if acts == [] then 0
    else One(Takes(canon, w, acts[0], h)) + Downs(canon, sha, After(canon, sha, w, acts[0]), acts[1..], h)
  }

  /** The entry stays as it was filled, and the count of its row moves by uploads less deletes. */
  lemma {:induction false} CountOverHistory(canon: string -> string, sha: Bytes -> Hash, w: World, acts: seq<Act>,
                                            text: string)
    requires Good(canon, sha, w) && PossibleActs(canon, sha, w, acts) && KeepsAll(canon, acts, text)
    requires text in w.cached.byId && canon(text) in w.store.db.files
    ensures var w', h := AfterAll(canon, sha, w, acts), w.store.db.files[canon(text)].hash;
            && text in w'.cached.byId && w'.cached.byId[text] == w.cached.byId[text]
            && canon(text) in w'.store.db.files && w'.store.db.files[canon(text)].hash == h
            && CountOf(w'.store.db, h)
               == CountOf(w.store.db, h) + Ups(sha, acts, h) - Downs(canon, sha, w, acts, h)
    decreases |acts|
  {
    if acts == [] {
    } else {
      assert Keeps(canon, acts[0], text);
      ActKeepsGood(canon, sha, w, acts[0]);
      CountAfterAct(canon, sha, w, acts[0], text);
      EntryAfterAct(canon, sha, w, acts[0], text);
      CountOverHistory(canon, sha, After(canon, sha, w, acts[0]), acts[1..], text);
    }
  }

  /** Since its fill, an entry shows the right count if and only if as many files of its content were
      uploaded as other ones were deleted. */
  lemma CountRightExactly(canon: string -> string, sha: Bytes -> Hash, w: World, acts: seq<Act>, text: string)
    requires Good(canon, sha, w) && canon(text) in w.store.db.files && text !in w.cached.byId
    requires var filled := After(canon, sha, w, Download(text));
             PossibleActs(canon, sha, filled, acts) && KeepsAll(canon, acts, text)
    ensures var filled, h := After(canon, sha, w, Download(text)), w.store.db.files[canon(text)].hash;
            CountRight(canon, AfterAll(canon, sha, filled, acts), text) <==>
              Ups(sha, acts, h) == Downs(canon, sha, filled, acts, h)
  {
    ActKeepsGood(canon, sha, w, Download(text));
    FillIsRight(canon, sha, w, text);
    CountOverHistory(canon, sha, After(canon, sha, w, Download(text)), acts, text);
  }

  /** A later duplicate invalidates only the list: the entry of the first file keeps its old count. */
  lemma CachedCountMayBeStale(canon: string -> string, sha: Bytes -> Hash, a: UploadArgs, b: UploadArgs)
    requires a.accepted && b.accepted && a.content == b.content && a.id != b.id && a.path != b.path
    requires a.path != "" && b.path != "" && canon(a.id) == a.id && canon(b.id) == b.id
    ensures var acts := [Serve(UploadOp(a, {})), Download(a.id), Serve(UploadOp(b, {}))];
            && PossibleActs(canon, sha, NEW_WORLD, acts)
            && var w := AfterAll(canon, sha, NEW_WORLD, acts);
               && a.id in w.cached.byId && w.cached.byId[a.id].storage.Some?
               && w.cached.byId[a.id].storage.value.reference_count == 1
               && CountOf(w.store.db, sha(a.content)) == 2
  {
    var acts := [Serve(UploadOp(a, {})), Download(a.id), Serve(UploadOp(b, {}))];
    var w1 := After(canon, sha, NEW_WORLD, acts[0]);
    UploadClosedForm(sha, EMPTY, a);
    assert w1.store == Store(Db(map[sha(a.content) := NewRow(a)], map[a.id := NewFile(sha, a)]),
                             map[a.path := a.content]);
    var w2 := After(canon, sha, w1, acts[1]);
    assert w2.store == w1.store && w2.cached.byId == map[a.id := Encode(Join(w1.store.db, a.id))];
    UploadClosedForm(sha, w2.store, b);
    assert CanHappen(canon, w2, acts[2]);
    OneAct(canon, sha, w2, acts[2]);
    assert acts[1..][1..] == [acts[2]] && acts[1..][0] == acts[1];
    assert PossibleActs(canon, sha, w1, acts[1..]);
  }

  lemma OneAct(canon: string -> string, sha: Bytes -> Hash, w: World, act: Act)
    requires CanHappen(canon, w, act)
    ensures PossibleActs(canon, sha, w, [act])
    ensures AfterAll(canon, sha, w, [act]) == After(canon, sha, w, act)
  {
  }
}
