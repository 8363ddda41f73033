/** The two tables of migrations/001_initial.sql and the single SQL statements that the
    repository runs on them. Primary keys are the keys of the maps. */
module Schema {
  import opened Wrappers
  import opened Model

  datatype Row = Row(
    size: nat,
    contentType: string,
    path: string,
    count: int,
    createdAt: Time,
    updatedAt: Time)

  datatype FileRow = FileRow(name: string, hash: Hash, createdAt: Time)

  datatype Db = Db(rows: map<Hash, Row>, files: map<string, FileRow>)

  // ---------- constraints ----------

  /** fk_files_storage_hash: every file references an existing storage row. */
  ghost predicate ForeignKey(db: Db) {
    forall id :: id in db.files ==> db.files[id].hash in db.rows
  }

  /** UNIQUE on storage_path. */
  ghost predicate UniquePaths(db: Db) {
    forall g, h :: g in db.rows && h in db.rows && db.rows[g].path == db.rows[h].path ==> g == h
  }

  ghost predicate SchemaHolds(db: Db) {
    ForeignKey(db) && UniquePaths(db)
  }

  predicate PathTaken(db: Db, path: string) {
    exists h :: h in db.rows && db.rows[h].path == path
  }

  predicate Referenced(db: Db, h: Hash) {
    exists id :: id in db.files && db.files[id].hash == h
  }

  /** The ids of the files that reference a hash. */
  ghost function FilesOf(db: Db, h: Hash): set<string> {
    set id | id in db.files && db.files[id].hash == h
  }

  // ---------- statements ----------

  /** INSERT INTO storage passes the primary key and the unique path. */
  predicate CanInsertStorage(db: Db, h: Hash, path: string) {
    h !in db.rows && !PathTaken(db, path)
  }

  function InsertStorage(db: Db, h: Hash, row: Row): (after: Db)
    requires CanInsertStorage(db, h, row.path)
    ensures SchemaHolds(db) ==> SchemaHolds(after)
  {
    db.(rows := db.rows[h := row])
  }

  /** UPDATE storage SET reference_count = reference_count + delta: no matching row is no error. */
  function AddToCount(db: Db, h: Hash, delta: int, now: Time): (after: Db)
    ensures SchemaHolds(db) ==> SchemaHolds(after)
    ensures after.rows.Keys == db.rows.Keys && after.files == db.files
  {
    if h in db.rows then
      var row := db.rows[h];
      db.(rows := db.rows[h := row.(count := row.count + delta, updatedAt := now)])
    else
      db
  }

  /** DELETE FROM storage WHERE hash = h AND reference_count = 0, refused while a file references h. */
  function DeleteStorage(db: Db, h: Hash): (after: Db)
    ensures SchemaHolds(db) ==> SchemaHolds(after)
    ensures h in db.rows && db.rows[h].count != 0 ==> after == db
  {
    if h in db.rows && db.rows[h].count == 0 && !Referenced(db, h) then
      db.(rows := db.rows - {h})
    else
      db
  }

  /** INSERT INTO files passes the primary key and the foreign key. */
  predicate CanInsertFile(db: Db, id: string, h: Hash) {
    id !in db.files && h in db.rows
  }

  function InsertFile(db: Db, id: string, file: FileRow): (after: Db)
    requires CanInsertFile(db, id, file.hash)
    ensures SchemaHolds(db) ==> SchemaHolds(after)
  {
    db.(files := db.files[id := file])
  }

  function DeleteFile(db: Db, id: string): (after: Db)
    ensures SchemaHolds(db) ==> SchemaHolds(after)
    ensures id !in after.files
  {
    db.(files := db.files - {id})
  }

  // ---------- reference sets under the statements ----------

  lemma FilesOfInsert(db: Db, id: string, file: FileRow, h: Hash)
    requires CanInsertFile(db, id, file.hash)
    ensures FilesOf(InsertFile(db, id, file), h) == FilesOf(db, h) + (if h == file.hash then {id} else {})
    ensures |FilesOf(InsertFile(db, id, file), h)| == |FilesOf(db, h)| + (if h == file.hash then 1 else 0)
  {
  }

  lemma FilesOfDelete(db: Db, id: string, h: Hash)
    ensures FilesOf(DeleteFile(db, id), h) == FilesOf(db, h) - {id}
    ensures |FilesOf(DeleteFile(db, id), h)|
         == |FilesOf(db, h)| - (if id in db.files && db.files[id].hash == h then 1 else 0)
  {
  }

  lemma NoFilesIffUnreferenced(db: Db, h: Hash)
    ensures |FilesOf(db, h)| == 0 <==> !Referenced(db, h)
  {
    if Referenced(db, h) {
      var id :| id in db.files && db.files[id].hash == h;
      assert id in FilesOf(db, h);
    } else {
      assert FilesOf(db, h) == {};
    }
  }

  // ---------- the surplus of a count over its references ----------

  /** reference_count of the row of `h`, 0 when there is no such row. */
  function CountOf(db: Db, h: Hash): int {
    if h in db.rows then db.rows[h].count else 0
  }

  /** By how much the count of `h` exceeds the number of its files. */
  ghost function Surplus(db: Db, h: Hash): int {
    CountOf(db, h) - |FilesOf(db, h)|
  }

  lemma SurplusOfAddToCount(db: Db, g: Hash, delta: int, now: Time, h: Hash)
    ensures Surplus(AddToCount(db, g, delta, now), h)
         == Surplus(db, h) + (if h == g && g in db.rows then delta else 0)
  {
  }

  lemma SurplusOfDeleteStorage(db: Db, g: Hash, h: Hash)
    ensures Surplus(DeleteStorage(db, g), h) == Surplus(db, h)
  {
  }

  lemma SurplusOfInsertStorage(db: Db, g: Hash, row: Row, h: Hash)
    requires CanInsertStorage(db, g, row.path)
    ensures Surplus(InsertStorage(db, g, row), h) == Surplus(db, h) + (if h == g then row.count else 0)
  {
  }

  lemma SurplusOfInsertFile(db: Db, id: string, file: FileRow, h: Hash)
    requires CanInsertFile(db, id, file.hash)
    ensures Surplus(InsertFile(db, id, file), h) == Surplus(db, h) - (if h == file.hash then 1 else 0)
  {
    FilesOfInsert(db, id, file, h);
  }

  lemma SurplusOfDeleteFile(db: Db, id: string, h: Hash)
    ensures Surplus(DeleteFile(db, id), h)
         == Surplus(db, h) + (if id in db.files && db.files[id].hash == h then 1 else 0)
  {
    FilesOfDelete(db, id, h);
  }

  // ---------- the join ----------

  function StorageOf(h: Hash, row: Row): Storage {
    Storage(h, row.size, row.contentType, row.path, row.count, row.createdAt, row.updatedAt)
  }

  /** A file record with the storage pointer and the legacy fields filled from the row. */
  function Joined(id: string, file: FileRow, row: Row): File {
    File(id, file.name, file.hash, file.createdAt, Some(StorageOf(file.hash, row)),
         row.size, row.contentType, row.path, file.hash)
  }

  predicate Joins(db: Db, id: string) {
    id in db.files && db.files[id].hash in db.rows
  }

  function Join(db: Db, id: string): File
    requires Joins(db, id)
  {
    Joined(id, db.files[id], db.rows[db.files[id].hash])
  }
}
