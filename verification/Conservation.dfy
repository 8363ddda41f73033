/** Bytes are conserved: what the files add up to, what the rows count, what the blobs occupy. */
module Conservation {
  import opened Model
  import opened Schema
  import opened Protocol
  import opened Refinement
  import opened PlainMap
  import opened Clean
  import opened Finite

  // ---------- summands ----------

  ghost function GroupIn(db: Db, ids: set<string>, h: Hash): set<string> {
    set id | id in ids && id in db.files && db.files[id].hash == h
  }

  ghost function Size(db: Db): Hash -> int {
    h => if h in db.rows then db.rows[h].size as int else 0
  }

  ghost function CountedSize(db: Db): Hash -> int {
    h => if h in db.rows then db.rows[h].count * db.rows[h].size else 0
  }

  ghost function SavedSize(db: Db): Hash -> int {
    h => if h in db.rows then (db.rows[h].count - 1) * db.rows[h].size else 0
  }

  ghost function GroupedSize(db: Db, ids: set<string>): Hash -> int {
    h => if h in db.rows then |GroupIn(db, ids, h)| * db.rows[h].size else 0
  }

  ghost function RowSizeOfFile(db: Db): string -> int {
    id => if id in db.files && db.files[id].hash in db.rows then db.rows[db.files[id].hash].size as int else 0
  }

  ghost function ServedSize(s: Store): string -> int
    requires Served(s)
  {
    id => if id in s.db.files then |Abs(s)[id].content| else 0
  }

  ghost function BlobSize(s: Store): string -> int {
    p => if p in s.blobs then |s.blobs[p]| else 0
  }

  // ---------- double counting ----------

  /** One more file adds its row's size to its own group and to no other. */
  lemma GroupStep(db: Db, ids: set<string>, id: string)
    requires ForeignKey(db) && id in ids && ids <= db.files.Keys
    ensures Sum(db.rows.Keys, GroupedSize(db, ids))
         == Sum(db.rows.Keys, GroupedSize(db, ids - {id})) + RowSizeOfFile(db)(id)
  {
    var g := db.files[id].hash;
    var rest := ids - {id};
    forall h | h in db.rows.Keys && h != g
      ensures GroupedSize(db, rest)(h) == GroupedSize(db, ids)(h)
    {
      assert GroupIn(db, ids, h) == GroupIn(db, rest, h);
    }
    SumChange(db.rows.Keys, g, GroupedSize(db, rest), GroupedSize(db, ids));
    assert GroupIn(db, ids, g) == GroupIn(db, rest, g) + {id};
    Distribute(|GroupIn(db, rest, g)|, db.rows[g].size);
  }

  /** Adding up row sizes file by file, or group by group, is the same. */
  lemma {:induction false} FilesByGroup(db: Db, ids: set<string>)
    requires ForeignKey(db) && ids <= db.files.Keys
    ensures Sum(ids, RowSizeOfFile(db)) == Sum(db.rows.Keys, GroupedSize(db, ids))
    decreases |ids|
  {
    if ids == {} {
      EmptyGroups(db, db.rows.Keys);
    } else {
      var id :| id in ids;
      SumRemove(ids, id, RowSizeOfFile(db));
      FilesByGroup(db, ids - {id});
      GroupStep(db, ids, id);
    }
  }

  lemma Distribute(n: int, size: int)
    ensures (n + 1) * size == n * size + size
  {
  }

  lemma {:induction false} EmptyGroups(db: Db, hashes: set<Hash>)
    requires hashes <= db.rows.Keys
    ensures Sum(hashes, GroupedSize(db, {})) == 0
    decreases |hashes|
  {
    if hashes == {} {
    } else {
      var h :| h in hashes;
      SumRemove(hashes, h, GroupedSize(db, {}));
      assert GroupIn(db, {}, h) == {};
      EmptyGroups(db, hashes - {h});
    }
  }

  // ---------- the theorem ----------

  lemma CountedBytes(sha: Bytes -> Hash, s: Store)
    requires IsClean(sha, s) && Served(s)
    ensures Sum(s.db.rows.Keys, CountedSize(s.db)) == Sum(s.db.files.Keys, ServedSize(s))
  {
    FilesByGroup(s.db, s.db.files.Keys);
    forall h | h in s.db.rows.Keys
      ensures CountedSize(s.db)(h) == GroupedSize(s.db, s.db.files.Keys)(h)
    {
      assert GroupIn(s.db, s.db.files.Keys, h) == FilesOf(s.db, h);
    }
    SumSame(s.db.rows.Keys, CountedSize(s.db), GroupedSize(s.db, s.db.files.Keys));
    forall id | id in s.db.files.Keys
      ensures RowSizeOfFile(s.db)(id) == ServedSize(s)(id)
    {
      assert RowBacked(sha, s, s.db.files[id].hash);
    }
    SumSame(s.db.files.Keys, RowSizeOfFile(s.db), ServedSize(s));
  }

  ghost function PathsOf(db: Db): map<Hash, string> {
    map h | h in db.rows :: db.rows[h].path
  }

  lemma PathHitsBlob(sha: Bytes -> Hash, s: Store, h: Hash)
    requires Backed(sha, s) && h in s.db.rows
    ensures PathsOf(s.db)[h] in s.blobs.Keys && BlobSize(s)(PathsOf(s.db)[h]) == Size(s.db)(h)
  {
    assert RowBacked(sha, s, h);
  }

  lemma BlobHasPath(s: Store, p: string) returns (h: Hash)
    requires PathTaken(s.db, p)
    ensures h in s.db.rows.Keys && PathsOf(s.db)[h] == p
  {
    h :| h in s.db.rows && s.db.rows[h].path == p;
  }

  lemma PhysicalBytes(sha: Bytes -> Hash, s: Store)
    requires UniquePaths(s.db) && Backed(sha, s) && forall p :: p in s.blobs ==> PathTaken(s.db, p)
    ensures Sum(s.blobs.Keys, BlobSize(s)) == Sum(s.db.rows.Keys, Size(s.db))
  {
    var paths := PathsOf(s.db);
    forall h | h in s.db.rows.Keys
      ensures paths[h] in s.blobs.Keys && BlobSize(s)(paths[h]) == Size(s.db)(h)
    {
      PathHitsBlob(sha, s, h);
    }
    forall p | p in s.blobs.Keys
      ensures exists h :: h in s.db.rows.Keys && paths[h] == p
    {
      var h := BlobHasPath(s, p);
    }
    SumImage(s.db.rows.Keys, s.blobs.Keys, paths, Size(s.db), BlobSize(s));
  }

  /** In a clean store the bytes of all files are the counted bytes of the rows, the bytes in the
      blob store are the row sizes, and their difference is what the further references save. */
  lemma SpaceSaved(sha: Bytes -> Hash, s: Store)
    requires IsClean(sha, s)
    ensures Served(s)
    ensures Sum(s.db.files.Keys, ServedSize(s)) == Sum(s.db.rows.Keys, CountedSize(s.db))
    ensures Sum(s.db.files.Keys, ServedSize(s)) - Sum(s.blobs.Keys, BlobSize(s))
         == Sum(s.db.rows.Keys, SavedSize(s.db))
  {
    CleanIsSound(sha, s);
    SoundServes(sha, s);
    CountedBytes(sha, s);
    PhysicalBytes(sha, s);
    forall h | h in s.db.rows.Keys
      ensures CountedSize(s.db)(h) == Size(s.db)(h) + SavedSize(s.db)(h)
    {
      Distribute(s.db.rows[h].count - 1, s.db.rows[h].size);
    }
    SumPlus(s.db.rows.Keys, Size(s.db), SavedSize(s.db), CountedSize(s.db));
  }

  /** The same over every fault-free run from the empty store. */
  lemma SpaceSavedByRun(sha: Bytes -> Hash, ops: seq<Op>)
    requires FreshRun(sha, EMPTY, ops) && FaultFree(ops)
    ensures var s := Run(sha, EMPTY, ops);
            && IsClean(sha, s) && Served(s)
            && Sum(s.db.files.Keys, ServedSize(s)) - Sum(s.blobs.Keys, BlobSize(s))
            == Sum(s.db.rows.Keys, SavedSize(s.db))
  {
    CleanRun(sha, EMPTY, ops);
    SpaceSaved(sha, Run(sha, EMPTY, ops));
  }
}
