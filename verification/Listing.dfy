/** The answer of the List query: the join of files and storage, newest first. */
module Listing {
  import opened Wrappers
  import opened Model
  import opened Schema

  /** The ids that survive the inner join. */
  ghost function JoinedIds(db: Db): set<string> {
    set id | id in db.files && Joins(db, id)
  }

  ghost predicate NewestFirst(db: Db, order: seq<string>)
    requires forall i :: 0 <= i < |order| ==> order[i] in db.files
  {
    forall i, j :: 0 <= i < j < |order| ==> db.files[order[i]].createdAt >= db.files[order[j]].createdAt
  }

  ghost predicate Distinct(order: seq<string>) {
    forall i, j :: 0 <= i < j < |order| ==> order[i] != order[j]
  }

  /** The ids in the order in which the database may deliver the joined rows; ties in created_at
      are in any order. */
  ghost predicate IsOrder(db: Db, order: seq<string>) {
    && (forall i :: 0 <= i < |order| ==> order[i] in db.files && Joins(db, order[i]))
    && (forall id :: id in JoinedIds(db) ==> id in order)
    && Distinct(order)
    && NewestFirst(db, order)
  }

  function JoinAll(db: Db, order: seq<string>): (files: seq<File>)
    requires forall i :: 0 <= i < |order| ==> Joins(db, order[i])
    ensures |files| == |order|
    ensures forall i :: 0 <= i < |order| ==> files[i] == Join(db, order[i])
  {
    if order == [] then [] else [Join(db, order[0])] + JoinAll(db, order[1..])
  }

  function EncodeAll(files: seq<File>): (js: seq<FileJson>)
    ensures |js| == |files|
    ensures forall i :: 0 <= i < |files| ==> js[i] == Encode(files[i])
  {
    if files == [] then [] else [Encode(files[0])] + EncodeAll(files[1..])
  }

  function DecodeAll(js: seq<FileJson>): (files: seq<File>)
    ensures |js| == |files|
    ensures forall i :: 0 <= i < |files| ==> files[i] == Decode(js[i])
  {
    if js == [] then [] else [Decode(js[0])] + DecodeAll(js[1..])
  }

  ghost predicate OnlyAt(files: seq<File>, id: string, i: nat) {
    i < |files| && files[i].id == id && forall j :: 0 <= j < |files| && files[j].id == id ==> j == i
  }

  /** The file appears in the answer, and at one place only. */
  ghost predicate ListedOnce(files: seq<File>, id: string) {
    exists i: nat :: OnlyAt(files, id, i)
  }

  /** The record carries the row its file references. */
  ghost predicate HasOwnRow(db: Db, f: File) {
    && f.id in db.files && f.name == db.files[f.id].name && f.createdAt == db.files[f.id].createdAt
    && f.storageHash == db.files[f.id].hash && db.files[f.id].hash in db.rows
    && f.storage == Some(StorageOf(db.files[f.id].hash, db.rows[db.files[f.id].hash])) && Whole(f)
  }

  /** The legacy fields of a record repeat what its row says. */
  predicate Whole(f: File) {
    && f.storage.Some?
    && f.size == f.GetSize() == f.storage.value.size
    && f.contentType == f.GetContentType() == f.storage.value.contentType
    && f.storagePath == f.GetStoragePath() == f.storage.value.storagePath
    && f.checksum == f.GetChecksum() == f.storage.value.hash
  }

  /** While the foreign key holds the list drops nothing: each file appears exactly once, joined
      with its own row, and a newer file never after an older one. */
  lemma ListIsComplete(db: Db, order: seq<string>)
    requires ForeignKey(db) && IsOrder(db, order)
    ensures forall id :: id in db.files ==> ListedOnce(JoinAll(db, order), id)
    ensures forall f :: f in JoinAll(db, order) ==> HasOwnRow(db, f)
    ensures var files := JoinAll(db, order);
            forall i, j :: 0 <= i < j < |files| ==> files[i].createdAt >= files[j].createdAt
  {
    forall id | id in db.files
      ensures ListedOnce(JoinAll(db, order), id)
    {
      ListsFile(db, order, id);
    }
  }

  /** Where a file stands in the order. */
  lemma PlaceInOrder(db: Db, order: seq<string>, id: string) returns (i: nat)
    requires ForeignKey(db) && IsOrder(db, order) && id in db.files
    ensures i < |order| && order[i] == id
  {
    assert id in JoinedIds(db) && id in order;
    i :| 0 <= i < |order| && order[i] == id;
  }

  lemma DistinctPlaces(order: seq<string>, i: nat, j: nat)
    requires Distinct(order) && i < |order| && j < |order| && order[i] == order[j]
    ensures i == j
  {
  }

  lemma ListsFile(db: Db, order: seq<string>, id: string)
    requires ForeignKey(db) && IsOrder(db, order) && id in db.files
    ensures ListedOnce(JoinAll(db, order), id)
  {
    var files := JoinAll(db, order);
    var i := PlaceInOrder(db, order, id);
    assert files[i] == Join(db, order[i]);
    forall j | 0 <= j < |files| && files[j].id == id
      ensures j == i
    {
      assert files[j] == Join(db, order[j]);
      DistinctPlaces(order, i, j);
    }
    assert OnlyAt(files, id, i);
  }

  /** Such an order always exists. */
  lemma {:induction false} OrderExists(db: Db, ids: set<string>) returns (order: seq<string>)
    requires forall id :: id in ids ==> id in db.files
    ensures forall i :: 0 <= i < |order| ==> order[i] in db.files
    ensures multiset(order) == multiset(ids) && NewestFirst(db, order)
    decreases |ids|
  {
    if ids == {} {
      order := [];
    } else {
      var id :| id in ids;
      var rest := OrderExists(db, ids - {id});
      order := InsertByDate(db, rest, id);
      InsertedMembers(db, rest, id);
      InsertedSorted(db, rest, id);
    }
  }

  ghost function InsertByDate(db: Db, rest: seq<string>, id: string): (order: seq<string>)
    requires id in db.files && forall i :: 0 <= i < |rest| ==> rest[i] in db.files
    ensures |order| == |rest| + 1
  {
    if rest == [] || db.files[id].createdAt >= db.files[rest[0]].createdAt then [id] + rest
    else [rest[0]] + InsertByDate(db, rest[1..], id)
  }

  lemma {:induction false} InsertedMembers(db: Db, rest: seq<string>, id: string)
    requires id in db.files && forall i :: 0 <= i < |rest| ==> rest[i] in db.files
    ensures multiset(InsertByDate(db, rest, id)) == multiset(rest) + multiset{id}
    decreases |rest|
  {
    if !(rest == [] || db.files[id].createdAt >= db.files[rest[0]].createdAt) {
      InsertedMembers(db, rest[1..], id);
      assert rest == [rest[0]] + rest[1..];
    }
  }

  lemma {:induction false} InsertedSorted(db: Db, rest: seq<string>, id: string)
    requires id in db.files && forall i :: 0 <= i < |rest| ==> rest[i] in db.files
    requires NewestFirst(db, rest)
    ensures forall i :: 0 <= i < |InsertByDate(db, rest, id)| ==> InsertByDate(db, rest, id)[i] in db.files
    ensures NewestFirst(db, InsertByDate(db, rest, id))
    decreases |rest|
  {
    InsertedIn(db, rest, id);
    if !(rest == [] || db.files[id].createdAt >= db.files[rest[0]].createdAt) {
      InsertedSorted(db, rest[1..], id);
      InsertedIn(db, rest[1..], id);
    }
  }

  lemma InsertedIn(db: Db, rest: seq<string>, id: string)
    requires id in db.files && forall i :: 0 <= i < |rest| ==> rest[i] in db.files
    ensures forall i :: 0 <= i < |InsertByDate(db, rest, id)| ==>
              InsertByDate(db, rest, id)[i] == id || InsertByDate(db, rest, id)[i] in rest
  {
  }

  lemma TwiceCountsTwo(order: seq<string>, i: nat, j: nat)
    requires i < j < |order| && order[i] == order[j]
    ensures multiset(order)[order[i]] >= 2
  {
    assert order == order[..j] + [order[j]] + order[j + 1..];
    assert order[..j][i] == order[i];
    assert order[i] in multiset(order[..j]);
  }

  lemma DistinctByCount(order: seq<string>)
    requires forall x :: multiset(order)[x] <= 1
    ensures Distinct(order)
  {
    forall i, j | 0 <= i < j < |order| && order[i] == order[j]
      ensures false
    {
      TwiceCountsTwo(order, i, j);
    }
  }

  lemma AnswerExists(db: Db) returns (order: seq<string>)
    ensures IsOrder(db, order)
  {
    order := OrderExists(db, JoinedIds(db));
    DistinctByCount(order);
    forall i | 0 <= i < |order|
      ensures order[i] in JoinedIds(db)
    {
      assert order[i] in multiset(order);
    }
    forall id | id in JoinedIds(db)
      ensures id in order
    {
      assert id in multiset(order);
    }
  }
}
