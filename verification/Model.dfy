/** The entities of internal/model/file.go and the JSON form in which the cache keeps them. */
module Model {
  import opened Wrappers

  newtype byte = x: int | 0 <= x < 256

  type Bytes = seq<byte>

  type Time = int

  /** A hex-encoded SHA-256 digest; in particular it is never the empty string. */
  type Hash = h: string | |h| == 64 witness seq(64, _ => '0')

  datatype Storage = Storage(
    hash: Hash,
    size: nat,
    contentType: string,
    storagePath: string,
    referenceCount: int,
    createdAt: Time,
    updatedAt: Time)

  /** A file record. `storage` is the pointer to the joined row, the last four fields are the legacy ones. */
  datatype File = File(
    id: string,
    name: string,
    storageHash: string,
    createdAt: Time,
    storage: Option<Storage>,
    size: nat,
    contentType: string,
    storagePath: string,
    checksum: string)
  {
    function GetSize(): nat {
      if storage.Some? then storage.value.size else size
    }

    function GetContentType(): string {
      if storage.Some? then storage.value.contentType else contentType
    }

    function GetStoragePath(): string {
      if storage.Some? then storage.value.storagePath else storagePath
    }

    function GetChecksum(): string {
      if storageHash != "" then storageHash else checksum
    }

    /** The record with every storage path blanked: what survives a trip through the cache. */
    function WithoutPaths(): File {
      this.(storage := if storage.Some? then Some(storage.value.(storagePath := "")) else None,
            storagePath := "")
    }
  }

  datatype FileHeader = FileHeader(name: string, size: int, contentType: string)

  // ---------- JSON ----------

  /** The JSON object of a Storage: the storage path carries the tag that leaves it out. */
  datatype StorageJson = StorageJson(
    hash: Hash,
    size: nat,
    content_type: string,
    reference_count: int,
    created_at: Time,
    updated_at: Time)

  /** The JSON object of a File: an `omitempty` member is absent when it holds its zero value. */
  datatype FileJson = FileJson(
    id: string,
    name: string,
    storage_hash: string,
    created_at: Time,
    storage: Option<StorageJson>,
    size: Option<nat>,
    content_type: Option<string>,
    checksum: Option<string>)

  function EncodeStorage(s: Storage): StorageJson {
    StorageJson(s.hash, s.size, s.contentType, s.referenceCount, s.createdAt, s.updatedAt)
  }

  function DecodeStorage(j: StorageJson): Storage {
    Storage(j.hash, j.size, j.content_type, "", j.reference_count, j.created_at, j.updated_at)
  }

  /** json.Marshal of a file. Decoding gives back everything except the storage paths. */
  function Encode(f: File): (j: FileJson)
    ensures Decode(j) == f.WithoutPaths()
  {
    FileJson(
      f.id, f.name, f.storageHash, f.createdAt,
      if f.storage.Some? then Some(EncodeStorage(f.storage.value)) else None,
      if f.size == 0 then None else Some(f.size),
      if f.contentType == "" then None else Some(f.contentType),
      if f.checksum == "" then None else Some(f.checksum))
  }

  /** json.Unmarshal into a zero File: absent members keep their zero value. */
  function Decode(j: FileJson): File {
    File(
      j.id, j.name, j.storage_hash, j.created_at,
      if j.storage.Some? then Some(DecodeStorage(j.storage.value)) else None,
      if j.size.Some? then j.size.value else 0,
      if j.content_type.Some? then j.content_type.value else "",
      "",
      if j.checksum.Some? then j.checksum.value else "")
  }

  /** What a reader of the cache still sees, and what it no longer sees. */
  lemma CachedGetters(f: File)
    ensures var g := Decode(Encode(f));
            && g.GetSize() == f.GetSize()
            && g.GetContentType() == f.GetContentType()
            && g.GetChecksum() == f.GetChecksum()
            && g.GetStoragePath() == ""
            && Encode(g) == Encode(f)
            && Decode(Encode(g)) == g
  {
  }

  /** The legacy fields are only a fallback: with a row and a hash they change no getter, and without
      them the getters read nothing else. */
  lemma LegacyIsFallback(f: File, size: nat, contentType: string, path: string, checksum: string)
    ensures var g := f.(size := size, contentType := contentType, storagePath := path, checksum := checksum);
            && (f.storage.Some? ==>
                  && g.GetSize() == f.GetSize() == f.storage.value.size
                  && g.GetContentType() == f.GetContentType() == f.storage.value.contentType
                  && g.GetStoragePath() == f.GetStoragePath() == f.storage.value.storagePath)
            && (f.storage.None? ==>
                  g.GetSize() == size && g.GetContentType() == contentType && g.GetStoragePath() == path)
            && g.GetChecksum() == if f.storageHash != "" then f.storageHash else checksum
  {
  }
}
