/** FileRepository over its two tables and its cache, updated in place. `fails` makes the SQL
    statement of a call fail; `up` says whether Redis can be reached, whose errors are ignored.
    Rows are keyed by ids as the database prints them, and cache entries by the text of a request. */
module Repository {
  import opened Wrappers
  import opened Model
  import opened Schema
  import opened Listing
  import Cache

  class FileRepository {
    const canon: string -> string
    var rows: map<Hash, Row>
    var files: map<string, FileRow>
    var cachedFiles: map<string, FileJson>
    var cachedList: Option<seq<FileJson>>

    function Tables(): Db reads this { Db(rows, files) }

    function Entries(): Cache.Cached reads this { Cache.Cached(cachedFiles, cachedList) }

    constructor (canon: string -> string)
      ensures Tables() == Db(map[], map[]) && Entries() == Cache.NOTHING && this.canon == canon
    {
      this.canon := canon;
      rows, files := map[], map[];
      cachedFiles, cachedList := map[], None;
    }

    method GetStorageByHash(hash: Hash, fails: bool) returns (r: Result<Storage, Error>)
      ensures r.Success? <==> !fails && hash in rows
      ensures r.Success? ==> r.value == StorageOf(hash, rows[hash])
      ensures r.Failure? ==> r.error in {Database, NotFound}
    {
      if fails {
        return Failure(Database);
      }
      if hash !in rows {
        return Failure(NotFound);
      }
      var row := rows[hash];
      return Success(Storage(hash, row.size, row.contentType, row.path, row.count, row.createdAt, row.updatedAt));
    }

    method CreateStorage(storage: Storage, fails: bool) returns (r: Result<(), Error>)
      modifies this`rows
      ensures r == if !fails && CanInsertStorage(old(Tables()), storage.hash, storage.storagePath)
                   then Success(()) else Failure(Database)
      ensures r.Failure? ==> rows == old(rows)
      ensures r.Success? ==>
        Tables() == InsertStorage(old(Tables()), storage.hash,
                                  Row(storage.size, storage.contentType, storage.storagePath,
                                      storage.referenceCount, storage.createdAt, storage.updatedAt))
    {
      if fails || storage.hash in rows || PathTaken(Tables(), storage.storagePath) {
        return Failure(Database);
      }
      rows := rows[storage.hash := Row(storage.size, storage.contentType, storage.storagePath,
                                       storage.referenceCount, storage.createdAt, storage.updatedAt)];
      return Success(());
    }

    method IncrementStorageRef(hash: Hash, now: Time, fails: bool) returns (r: Result<(), Error>)
      modifies this`rows
      ensures r == if fails then Failure(Database) else Success(())
      ensures Tables() == if fails then old(Tables()) else AddToCount(old(Tables()), hash, 1, now)
    {
      if fails {
        return Failure(Database);
      }
      if hash in rows {
        rows := rows[hash := rows[hash].(count := rows[hash].count + 1, updatedAt := now)];
      }
      return Success(());
    }

    /** The new count and the error side by side, as the program returns them: on any error the
        count is the zero value. */
    method DecrementStorageRef(hash: Hash, now: Time, fails: bool) returns (newCount: int, error: Option<Error>)
      modifies this`rows
      ensures Tables() == if fails then old(Tables()) else AddToCount(old(Tables()), hash, -1, now)
      ensures error.None? <==> !fails && hash in old(rows)
      ensures newCount == if fails || hash !in old(rows) then 0 else old(rows)[hash].count - 1
    {
      if fails {
        return 0, Some(Database);
      }
      if hash !in rows {
        return 0, Some(NotFound);
      }
      newCount := rows[hash].count - 1;
      rows := rows[hash := rows[hash].(count := newCount, updatedAt := now)];
      error := None;
    }

    method DeleteStorage(hash: Hash, fails: bool) returns (r: Result<(), Error>)
      modifies this`rows
      ensures Tables() == if fails then old(Tables()) else Schema.DeleteStorage(old(Tables()), hash)
      ensures r.Success? <==>
        !fails && !(hash in old(rows) && old(rows)[hash].count == 0 && Referenced(old(Tables()), hash))
    {
      if fails {
        return Failure(Database);
      }
      if hash in rows && rows[hash].count == 0 {
        if Referenced(Tables(), hash) {
          return Failure(Database);
        }
        rows := rows - {hash};
      }
      return Success(());
    }

    method CreateFileReference(file: File, fails: bool, up: bool) returns (r: Result<(), Error>)
      modifies this`files, this`cachedList
      ensures r.Success? <==>
        !fails && |file.storageHash| == 64 && CanInsertFile(old(Tables()), canon(file.id), file.storageHash)
      ensures r.Failure? ==> r.error == Database
      ensures Tables() == if r.Success?
                          then InsertFile(old(Tables()), canon(file.id),
                                          FileRow(file.name, file.storageHash, file.createdAt))
                          else old(Tables())
      ensures Entries() == if r.Success? then Cache.Invalidated(up, old(Entries())) else old(Entries())
      ensures cachedList == if r.Success? && up then None else old(cachedList)
    {
      if fails || canon(file.id) in files || |file.storageHash| != 64 || file.storageHash !in rows {
        return Failure(Database);
      }
      files := files[canon(file.id) := FileRow(file.name, file.storageHash, file.createdAt)];
      if up {
        cachedList := None;
      }
      return Success(());
    }

    /** One joined row scanned into a record, with the legacy fields filled from the row. */
    method Scan(id: string) returns (f: File)
      requires Joins(Tables(), id)
      ensures f == Join(Tables(), id)
    {
      var file, row := files[id], rows[files[id].hash];
      var storage := Storage(file.hash, row.size, row.contentType, row.path, row.count, row.createdAt, row.updatedAt);
      f := File(id, file.name, file.hash, file.createdAt, Some(storage),
                storage.size, storage.contentType, storage.storagePath, storage.hash);
    }

    /** A hit answers from the cache. A miss joins, and fills the entry. When the join finds nothing
        the legacy query finds no row either, or a row whose NULL columns do not scan. */
    method GetByID(text: string, fails: bool, up: bool) returns (r: Result<File, Error>)
      modifies this`cachedFiles
      ensures Entries() == Cache.Fetched(canon, Tables(), old(Entries()), text, fails, up)
      ensures up && text in old(cachedFiles) ==> r == Success(Decode(old(cachedFiles)[text]))
      ensures !(up && text in old(cachedFiles)) ==>
        r == if !fails && Joins(Tables(), canon(text)) then Success(Join(Tables(), canon(text))) else Failure(NotFound)
    {
      if up && text in cachedFiles {
        return Success(Decode(cachedFiles[text]));
      }
      var id := canon(text);
      if !fails && id in files && files[id].hash in rows {
        var f := Scan(id);
        if up {
          cachedFiles := cachedFiles[text := Encode(f)];
        }
        return Success(f);
      }
      return Failure(NotFound);
    }

    /** The second query reads the legacy checksum, which is NULL for every stored file. */
    method GetStorageHashByFileID(text: string, fails: bool) returns (r: Result<Hash, Error>)
      ensures r == if !fails && canon(text) in files then Success(files[canon(text)].hash) else Failure(NotFound)
    {
      if !fails && canon(text) in files && files[canon(text)].hash != "" {
        return Success(files[canon(text)].hash);
      }
      return Failure(NotFound);
    }

    method DeleteByID(text: string, fails: bool, up: bool) returns (r: Result<(), Error>)
      modifies this`files, this`cachedFiles, this`cachedList
      ensures r == if fails then Failure(Database) else Success(())
      ensures Tables() == if fails then old(Tables()) else DeleteFile(old(Tables()), canon(text))
      ensures Entries() == Cache.Forgotten(old(Entries()), text, up)
      ensures cachedFiles == if up then old(cachedFiles) - {text} else old(cachedFiles)
      ensures cachedList == if up then None else old(cachedList)
    {
      if fails {
        r := Failure(Database);
      } else {
        files := files - {canon(text)};
        r := Success(());
      }
      if up {
        cachedFiles := cachedFiles - {text};
        cachedList := None;
      }
    }

    /** `order` is the order in which the database delivers the joined rows. The loop fills one
        record a row, and ends with the last row that arrives, whether or not more were to come. */
    method List(order: seq<string>, delivered: nat, fails: bool, up: bool) returns (r: Result<seq<File>, Error>)
      requires IsOrder(Tables(), order) && delivered <= |order|
      modifies this`cachedList
      ensures Entries() == Cache.Listed(Tables(), old(Entries()), order, delivered, fails, up)
      ensures up && old(cachedList).Some? ==> r == Success(DecodeAll(old(cachedList).value))
      ensures !(up && old(cachedList).Some?) ==>
        r == if !fails then Success(JoinAll(Tables(), order[..delivered]))
             else if delivered == 0 then Success([])
             else Failure(Database)
    {
      if up && cachedList.Some? {
        return Success(DecodeAll(cachedList.value));
      }
      if fails {
        if delivered > 0 {
          return Failure(Database);
        }
        if up {
          cachedList := Some([]);
        }
        return Success([]);
      }
      var found: seq<File> := [];
      for k := 0 to delivered
        invariant |found| == k && forall j :: 0 <= j < k ==> found[j] == Join(Tables(), order[j])
        invariant rows == old(rows) && files == old(files) && Entries() == old(Entries())
      {
        var file := Scan(order[k]);
        found := found + [file];
      }
      assert found == JoinAll(Tables(), order[..delivered]);
      if up {
        cachedList := Some(EncodeAll(found));
      }
      return Success(found);
    }
  }
}
