/** StorageService over a repository and a blob store, updated in place. Upload and Delete end in
    the store and the answer of module Protocol; Download and List answer as in module Worlds. */
module Service {
  import opened Wrappers
  import opened Model
  import opened Schema
  import opened Listing
  import opened Protocol
  import opened Repository
  import Cache
  import Worlds

  /** The blob store behind the interface storage.Storage: paths to bytes. */
  class BlobStore {
    var blobs: map<string, Bytes>

    /** Whether the back end opens its base folder for the empty path. */
    const opensBase: bool

    constructor (opensBase: bool)
      ensures blobs == map[] && this.opensBase == opensBase
    {
      this.opensBase, blobs := opensBase, map[];
    }

    /** Copies the content under the path; a failing copy may leave the first `torn` bytes. */
    method Put(path: string, content: Bytes, fails: bool, torn: Option<nat>) returns (r: Result<nat, Error>)
      modifies this
      ensures r == if fails then Failure(Error.BlobStore) else Success(|content|)
      ensures !fails ==> blobs == old(blobs)[path := content]
      ensures fails && torn.None? ==> blobs == old(blobs)
      ensures fails && torn.Some? ==>
        blobs == old(blobs)[path := if torn.value <= |content| then content[..torn.value] else content]
    {
      if fails {
        if torn.Some? {
          blobs := blobs[path := if torn.value <= |content| then content[..torn.value] else content];
        }
        return Failure(Error.BlobStore);
      }
      blobs := blobs[path := content];
      return Success(|content|);
    }

    method Get(path: string, fails: bool) returns (r: Result<Worlds.Content, Error>)
      ensures r == if fails then Failure(NotFound) else Worlds.Opened(opensBase, blobs, path)
    {
      if fails {
        return Failure(NotFound);
      }
      if path in blobs {
        return Success(Worlds.Readable(blobs[path]));
      }
      if path == "" && opensBase {
        return Success(Worlds.Unreadable);
      }
      return Failure(NotFound);
    }

    method Delete(path: string, fails: bool)
      modifies this
      ensures blobs == if fails then old(blobs) else old(blobs) - {path}
    {
      if !fails {
        blobs := blobs - {path};
      }
    }
  }

  class StorageService {
    const storage: BlobStore
    const repo: FileRepository
    const sha: Bytes -> Hash

    constructor (storage: BlobStore, repo: FileRepository, sha: Bytes -> Hash)
      ensures this.storage == storage && this.repo == repo && this.sha == sha
    {
      this.storage, this.repo, this.sha := storage, repo, sha;
    }

    function Contents(): Store
      reads storage, repo
    {
      Store(repo.Tables(), storage.blobs)
    }

    function World(): Worlds.World
      reads storage, repo
    {
      Worlds.World(Contents(), repo.Entries())
    }

    /** The id that an upload draws is spelled as the database prints it. */
    method Upload(a: UploadArgs, faults: set<Point>) returns (r: Result<File, Error>)
      requires repo.canon(a.id) == a.id
      modifies storage, repo
      ensures Contents() == Protocol.Upload(sha, old(Contents()), a, faults).store
      ensures r == Protocol.Upload(sha, old(Contents()), a, faults).result
      ensures repo.Entries() == if r.Success? then Cache.Invalidated(true, old(repo.Entries())) else old(repo.Entries())
      ensures repo.Entries() == Worlds.CachedAfter(repo.canon, sha, old(Contents()), old(repo.Entries()),
                                                   UploadOp(a, faults))
    {
      if !a.accepted {
        return Failure(Rejected);
      }
      var put := storage.Put(a.path, a.content, PutContent in faults, a.torn);
      if put.Failure? {
        return Failure(put.error);
      }
      var checksum := sha(a.content);
      var existing := repo.GetStorageByHash(checksum, FindRow in faults);
      if existing.Success? {
        r := UploadCopy(a, checksum, existing.value, faults);
      } else {
        r := UploadFirst(a, checksum, put.value, faults);
      }
    }

    /** The branch of Upload for content that is already stored. */
    method UploadCopy(a: UploadArgs, checksum: Hash, existing: Storage, faults: set<Point>)
      returns (r: Result<File, Error>)
      requires repo.canon(a.id) == a.id
      requires checksum == sha(a.content) && checksum in repo.rows
      requires existing == StorageOf(checksum, repo.rows[checksum])
      modifies storage, repo
      ensures Contents() == UploadDuplicate(sha, old(Contents()), a, faults).store
      ensures r == UploadDuplicate(sha, old(Contents()), a, faults).result
      ensures repo.Entries() == if r.Success? then Cache.Invalidated(true, old(repo.Entries())) else old(repo.Entries())
    {
      storage.Delete(a.path, DropCopy in faults);
      var raised := repo.IncrementStorageRef(checksum, a.now, RaiseCount in faults);
      if raised.Failure? {
        return Failure(raised.error);
      }
      var file := File(a.id, a.name, checksum, a.now, Some(existing),
                       existing.size, existing.contentType, existing.storagePath, existing.hash);
      var created := repo.CreateFileReference(file, AddReference in faults, true);
      if created.Failure? {
        var newCount, error := repo.DecrementStorageRef(checksum, a.now, LowerCount in faults);
        return Failure(created.error);
      }
      return Success(file);
    }

    /** The branch of Upload for content that counts as new. */
    method UploadFirst(a: UploadArgs, checksum: Hash, size: nat, faults: set<Point>) returns (r: Result<File, Error>)
      requires repo.canon(a.id) == a.id && checksum == sha(a.content) && size == |a.content|
      modifies storage, repo
      ensures Contents() == UploadNew(sha, old(Contents()), a, faults).store
      ensures r == UploadNew(sha, old(Contents()), a, faults).result
      ensures repo.Entries() == if r.Success? then Cache.Invalidated(true, old(repo.Entries())) else old(repo.Entries())
    {
      var record := Storage(checksum, size, a.contentType, a.path, 1, a.now, a.now);
      var created := repo.CreateStorage(record, AddRow in faults);
      if created.Failure? {
        storage.Delete(a.path, DropUnstored in faults);
        return Failure(created.error);
      }
      var file := File(a.id, a.name, checksum, a.now, Some(record), size, a.contentType, a.path, checksum);
      var filed := repo.CreateFileReference(file, AddFirstFile in faults, true);
      if filed.Failure? {
        var undone := repo.DeleteStorage(checksum, UndoRow in faults);
        storage.Delete(a.path, DropUnfiled in faults);
        return Failure(filed.error);
      }
      return Success(file);
    }

    method Delete(text: string, now: Time, faults: set<Point>) returns (r: Result<(), Error>)
      modifies storage, repo
      ensures Contents() == Protocol.Delete(old(Contents()), repo.canon(text), now, faults).store
      ensures r == Protocol.Delete(old(Contents()), repo.canon(text), now, faults).result
      ensures repo.Entries() == Worlds.CachedAfter(repo.canon, sha, old(Contents()), old(repo.Entries()),
                                                   DeleteOp(text, now, faults))
      ensures repo.Entries() == if FindHash in faults || repo.canon(text) !in old(repo.files) then old(repo.Entries())
                                else Cache.Forgotten(old(repo.Entries()), text, true)
    {
      var found := repo.GetStorageHashByFileID(text, FindHash in faults);
      if found.Failure? {
        return Failure(found.error);
      }
      var removed := repo.DeleteByID(text, RemoveFile in faults, true);
      if removed.Failure? {
        return Failure(removed.error);
      }
      var storageHash := found.value;
      var newCount, error := repo.DecrementStorageRef(storageHash, now, ReleaseCount in faults);
      if newCount == 0 {
        var record := repo.GetStorageByHash(storageHash, FindPath in faults);
        if record.Failure? {
          return Success(());
        }
        storage.Delete(record.value.storagePath, DropContent in faults);
        var dropped := repo.DeleteStorage(storageHash, RemoveRow in faults);
      }
      return Success(());
    }

    /** `fails` makes the query fail, `up` says whether Redis can be reached, `getFails` makes the
        back end fail. */
    method Download(text: string, fails: bool, up: bool, getFails: bool)
      returns (r: Result<(File, Worlds.Content), Error>)
      modifies repo
      ensures r == Worlds.DownloadUnder(repo.canon, storage.opensBase, old(World()), text, fails, up, getFails)
      ensures Contents() == old(Contents())
      ensures repo.Entries() == Cache.Fetched(repo.canon, old(repo.Tables()), old(repo.Entries()), text, fails, up)
    {
      var found := repo.GetByID(text, fails, up);
      if found.Failure? {
        return Failure(found.error);
      }
      var content := storage.Get(found.value.GetStoragePath(), getFails);
      if content.Failure? {
        return Failure(content.error);
      }
      return Success((found.value, content.value));
    }

    method List(order: seq<string>, delivered: nat, fails: bool, up: bool) returns (r: Result<seq<File>, Error>)
      requires IsOrder(repo.Tables(), order) && delivered <= |order|
      modifies repo
      ensures r == Worlds.ListUnder(old(World()), order, delivered, fails, up)
      ensures Contents() == old(Contents())
      ensures repo.Entries() == Cache.Listed(old(repo.Tables()), old(repo.Entries()), order, delivered, fails, up)
    {
      r := repo.List(order, delivered, fails, up);
    }
  }
}
