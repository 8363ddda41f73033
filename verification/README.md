# The deduplicating file store, modelled and proved

This project models the file store of the repository: `StorageService` over the SQL
repository, its Redis cache and a blob store. The store keeps each distinct content once, in a
row of the table `storage` keyed by its SHA-256 digest, and counts in `reference_count` how many
rows of the table `files` refer to it. The service takes no lock and opens no transaction, so
what it guarantees rests on the order of its statements, on its compensating calls, on the
guarded `DELETE ... AND reference_count = 0` and on the constraints of the schema. The project
proves what that order does guarantee, and, where it does not hold, exactly when it does and a
run that shows the failure.

`dafny verify dfyconfig.toml` checks everything.

## How it is built

**The data and the statements.** `Model` has the two structs with their JSON projections.
`Schema` has the two tables as maps and each SQL statement as a function on them, with the
primary keys, the unique path and the restricting foreign key.

**The sequential protocol.** `Protocol.Upload` and `Protocol.Delete` are functions of the store
(tables and blobs), the arguments and a set of program points at which the collaborator called
there fails. `Repository.FileRepository` and `Service.StorageService` are classes that update
their fields in place, as the program does; every method is proved equal, in state, cache and
answer, to these functions. The theorems about runs are about the functions.

- `Leaks`: counts equal files plus leaks, over every run with arbitrary faults.
- `Refinement`, `PlainMap`: the store refines a plain map from ids to named contents; a single
  operation breaks this if and only if it strands a row. `Losses` has a losing run for each of
  the three points that can strand one.
- `Undo`, `Leftovers`: a failed upload is undone if and only if its faults leave nothing behind;
  exactly when an operation leaves a blob without a row, or a row without a file; and which faults
  its answer shows.
- `Clean`, `Conservation`: the bijection of rows, blobs and groups of files in fault-free runs,
  and the bytes that deduplication saves.
- `Metadata`, `Origins`: what a file reports about itself. Every field that a client sees is an
  argument of the upload that drew the id, or of the upload that made the row, and lists follow the
  clock of the uploads.

**The step system.** In `Machine` any number of uploads and deletes are processes with a program
counter, and every statement and every blob call is one atomic step; a schedule is any sequence
of process numbers. `Solo` proves that an uninterrupted process is the sequential operation.

- `Bound`: no count exceeds its files plus the processes that owe it, under every interleaving
  with any faults, double deletes included.
- `Safety`, `SafetySteps`, `SafetyRuns`, `SafetyExactly`: which batches of fault-free calls serve
  every live file at every moment of every interleaving. Exactly those in which, for every file
  that is there or is to be uploaded, and whichever other uploads of its hash come first, the
  deletes of the other files of that hash are fewer than its references. The deletes may name one
  id several times, and ids that the batch uploads. When all ids are different this says that every
  stored hash that an accepted upload carries keeps a file that nobody deletes.
- `SafetyEnds`, `UploadFailures`, `Readers`: a safe batch ends with exactly the files that the
  answers of its calls say; which of its uploads can fail, and why one of those that race succeeds;
  and when a download that runs among other calls gets its bytes.
- `NoRace`, `NoRaceSteps`, `NoRaceRuns`, `NoRaceExactly`: safe batches in which no file that is there
  or to come is deleted twice keep every count exact in every reachable state and end in a clean
  store, whatever the schedule; and only those do. Uploads only is a special case.
- `Answers`, `Copies`: what holds of every batch, safe or not: the files are those that the answers
  of the calls say, at every moment and with any faults; the copy that an upload stores stays exactly
  as the blob of a row that it made, and the blob of a row that a clean-up has looked up goes.
- `Races`, `LateCleanUps`, `StrayLower`: short unsafe batches in full, in which all calls return and
  a file is lost, or stands on a row that counts nobody; and which deletes can still harm a file that
  is there.

**The cache.** `Listing`, `Cache`, `Coherence` and `LateFills`: exactly when what `file:<id>` and
`file_list` hold agrees with the join that they stand for, with readers that fill late, writers
between their statement and their DEL, lists that break off, several spellings of one id and
entries expiring at any time. `CacheOrigins`: which call left what Redis, a reader or a writer
holds. `Worlds`: what downloads and lists answer. `CachedCounts`: when the
reference count in an entry, which no call invalidates, is right.

**Names and paths.** `Utf8`, `Validator`, `Names`: what `SanitizeFilename` makes of every name and
which verdict `ValidateFilename` gives on it, byte by byte; which names the first one makes that the
second one rejects, and when it is idempotent. `Paths`, `LocalStorage`: which paths the
local back end accepts under any base, absolute or relative, which file each one names, and that on
UUID paths it is a map of paths to bytes.

## Assumptions

- The digest is a parameter `sha: Bytes -> Hash`. Where a theorem needs it, it is assumed
  injective on the contents that the run has seen, and nothing else. Ids and blob paths are
  assumed unused when an upload draws them, and where the cache is
  involved no id is drawn twice.
- `files.id` is a UUID column: the database compares ids by value, whatever their spelling, while
  Redis compares the text of a request. A parameter `canon: string -> string` takes a text to the
  id as the database prints it, which is also how an upload spells the id it draws. A text that is
  no UUID denotes no file, and the statement that gets it fails. Below the cache, in `Protocol` and
  `Machine`, an id is a row key.
- A collaborator that fails has done nothing, except that a failing `Put` may leave a prefix of
  the content. A statement that the database executes and then reports as failed is not modelled.
  A count beyond the range of INTEGER, or a column too long for its VARCHAR, is a statement that
  fails.
- One reading of the clock serves a whole call. Times are instants, and file names sent through
  JSON are valid UTF-8.
- `accepted` is the verdict of `ValidateFile` on the header of an upload.
- In `Cache` a `GetByID` or `List` that misses is a query and a later cache write, and a
  `CreateFileReference` or `DeleteByID` is a statement and its later DELs, one by one; other calls
  may run in between. `Repository.FileRepository` and `Worlds` run one call at a time;
  `Cache.FileMissInSteps`, `Cache.ListMissInSteps`, `Cache.DeleteInSteps` and
  `Cache.CreateInSteps` connect the two.
- Strings are byte strings: a character stands for the byte of its code.

## Where the code differs from its documents

- `docs/ARCHITECTURE.md` has the digest looked up before anything is stored. The code stores the
  content first, under a fresh path, and drops the copy when the digest is known. The model
  follows the code.
- The same document has a download of a cached file stream its bytes. The JSON of a file leaves
  its storage path out, so a cached record asks the blob store for the empty path:
  `Worlds.DownloadExactly` proves that a download delivers the bytes if and only if the file exists
  and is not cached under the text of the request. For a cached one the local back end opens its
  base folder, which cannot be read, and the other back end reports an error.
- The in-memory repository of the tests deletes a storage row whatever its count. The model
  follows the SQL.

## Model

| member | source | states |
|---|---|---|
| Model.Encode | internal/model/file.go:6-31 | Decoding the cached JSON of a file gives back the file with every storage path blanked and everything else intact, whatever is absent by `omitempty`. |
| Model.CachedGetters | internal/model/file.go:40-70 | A trip through the cache preserves size, content type and checksum, yields an empty storage path, and a second trip changes nothing. |
| Model.LegacyIsFallback | internal/model/file.go:40-70 | The legacy fields of a record with a row and a hash change no getter; those of a record without them are what the getters read. |
| Schema.NoFilesIffUnreferenced | migrations/001_initial.sql:35-36 | A hash has no files exactly when the foreign key lets its row go. |
| Schema.SurplusOfAddToCount | internal/repository/file.go:54-68 | An UPDATE moves the count's surplus over its files by its delta, and by nothing if the row is missing. |
| Protocol.SchemaKeptRun | migrations/001_initial.sql:8-37 | Foreign key and unique paths hold after every run, whatever fails. |
| Repository.FileRepository.GetStorageByHash | internal/repository/file.go:32-42 | Answers the row of the hash exactly if the query works and the row exists. |
| Repository.FileRepository.CreateStorage | internal/repository/file.go:45-51 | Inserts the row exactly if the statement, the primary key and the unique path allow it; otherwise nothing changes. |
| Repository.FileRepository.IncrementStorageRef | internal/repository/file.go:54-59 | Raises the count of a row; succeeds silently when there is no row. |
| Repository.FileRepository.DecrementStorageRef | internal/repository/file.go:62-68 | Lowers the count and answers it; answers 0 next to the error when the statement fails or finds no row. |
| Repository.FileRepository.DeleteStorage | internal/repository/file.go:71-74 | Removes the row only at count zero; fails if a file still references such a row. |
| Repository.FileRepository.CreateFileReference | internal/repository/file.go:125-134 | Inserts the file exactly if id and foreign key allow it, and only then drops the cached list. |
| Repository.FileRepository.GetByID | internal/repository/file.go:153-208 | A hit under the text of the request answers the decoded entry; a miss answers the join of the id that the text denotes, and fills the entry of the text. |
| Repository.FileRepository.GetStorageHashByFileID | internal/repository/file.go:211-224 | Answers the hash of exactly the stored files, under any spelling of their id. |
| Repository.FileRepository.DeleteByID | internal/repository/file.go:226-232 | Removes the file that the text denotes, if there is one, and drops the list and the entry of this text only, even when the statement failed. |
| Repository.FileRepository.List | internal/repository/file.go:234-308 | The row loop answers, and caches, the rows that arrive, all of them or not, in the order of the query; a hit answers the cached list; the legacy query answers only with no row. |
| Service.BlobStore.Put | pkg/storage/interface.go:8-13 | After a Put the path holds the content; a failing one leaves at most a prefix of it. |
| Service.StorageService.Upload | internal/service/storage.go:29-134 | Ends in the store, the answer and the cache of `Protocol.Upload`, with any faults. |
| Service.StorageService.UploadCopy | internal/service/storage.go:49-87 | The duplicate branch: drop the copy, raise the count, add the file, or lower the count again. |
| Service.StorageService.UploadFirst | internal/service/storage.go:89-133 | The branch for new content: add the row with count one and the first file, or roll back. |
| Service.StorageService.Delete | internal/service/storage.go:151-206 | Ends in the store, the answer and the cache of `Protocol.Delete`, where an error of the decrement reads as count zero. |
| Service.StorageService.Download | internal/service/storage.go:136-149 | Answers as `Worlds.DownloadUnder`: the record from cache or join, then what the blob store opens under the path that the record carries, whichever of the statement, Redis and the blob call fails. |
| Service.StorageService.List | internal/service/storage.go:208-210 | Answers as `Worlds.ListUnder`, with a query that fails, rows that stop arriving and Redis out of reach, and fills the cached list on a miss. |
| Leaks.UploadSurplus | internal/service/storage.go:47-126 | An upload with any faults raises count minus files by one exactly when its rollback decrement or its first-file insert fails. |
| Leaks.DeleteSurplus | internal/service/storage.go:151-203 | A delete with any faults raises count minus files by one exactly when the file went and the decrement failed. |
| Leaks.CountsAreExact | internal/service/storage.go:29-206 | Over every sequential run with arbitrary faults the count of each hash is its files plus its leaks. |
| Leaks.NeverUnderCounted | internal/repository/file.go:71-74 | From the empty store no row counts fewer files than reference it, and no referenced row is ever removed. |
| Refinement.UploadBacked | internal/service/storage.go:40-126 | An upload leaves every row with its blob if and only if it is not a first-file failure whose rollback dropped the blob. |
| Refinement.CleanUpBacked | internal/service/storage.go:177-203 | The clean-up leaves a row without its blob exactly when it drops the blob and the guarded DELETE then keeps the row. |
| Refinement.DeleteBacked | internal/service/storage.go:151-203 | A delete leaves every row with its blob if and only if it does not drop the blob of a row that stays. |
| Refinement.SoundExactly | internal/service/storage.go:29-206 | One operation with any faults keeps the store sound (schema, no under-count, every row backed) if and only if it strands no row. |
| PlainMap.StepRefines | internal/service/storage.go:29-206 | An operation that strands no row is one step of the plain map: all of it when it reports success, none of it when it fails. |
| PlainMap.RunRefines | internal/service/storage.go:29-206 | A run with arbitrary faults that strand nothing is a run of the plain map from ids to names and bytes. |
| PlainMap.FaultTolerance | internal/service/storage.go:40-203 | From the empty store, every run whose faults avoid the first-file insert, Delete's decrement and Delete's final DELETE keeps every live file with its exact bytes. |
| PlainMap.FaultFreeAnswers | internal/service/storage.go:29-206 | Without faults an upload succeeds exactly when accepted and a delete exactly when its file exists. |
| PlainMap.DeduplicationIsInvisible | internal/service/storage.go:29-206 | From the empty store a fault-free run equals the plain map, however many duplicates came and went. |
| Losses.LossAfterFirstFileFault | internal/service/storage.go:121-126 | A failed first-file insert leaves a counted row without blob, to which a later, successful upload attaches. |
| Losses.LossAfterReleaseFault | internal/service/storage.go:164-191 | A failed decrement reads as zero, and the delete of one copy drops the bytes of the other. |
| Losses.LossAfterRemoveRowFault | internal/service/storage.go:187-198 | A failed final DELETE leaves a row at count zero without blob, to which a later upload attaches. |
| Undo.FailedUploadUndone | internal/service/storage.go:40-126 | An upload that fails leaves tables and blobs as they were, up to `updated_at`, if and only if its faults are none of those listed in `Leaves`. |
| Undo.FirstFileLeftover | internal/service/storage.go:121-126 | The branch that is never undone: one failed first-file insert leaves a count-one row and no blob, and the next upload of the same bytes succeeds on it. |
| Leftovers.OrphansExactly | internal/service/storage.go:38-203 | One operation with any faults on a sound store leaves a blob without a row if and only if it is an upload that does not drop its copy, or writes a part of it, or a last delete whose clean-up removes the row and not the blob. |
| Leftovers.UnusedExactly | internal/service/storage.go:89-203 | It leaves a row without a file if and only if it is an upload whose row is added and whose first file is refused, or the delete of a last file whose row is not released to zero or not cleaned up. |
| Leftovers.UploadSucceeds | internal/service/storage.go:29-134 | Exactly which faults make an upload fail, and with which error; a copy that is not dropped and a rollback that fails never show. |
| Leftovers.DeleteSucceeds | internal/service/storage.go:151-206 | A delete fails exactly for its look-up and its DELETE, and with which error; nothing after them shows, and it succeeds exactly if it removes its file. |
| Clean.UploadClosedForm | internal/service/storage.go:29-134 | A fault-free upload raises one count or adds one row and one blob, and adds one file; its temporary copy is gone. |
| Clean.DeleteClosedForm | internal/service/storage.go:151-206 | From a clean store a fault-free delete of the last file of a group removes exactly its row and blob, and of another file lowers one count. |
| Clean.CleanKept | internal/service/storage.go:29-206 | Every fault-free operation keeps rows, blobs and groups of files in bijection, every count equal to its group and at least one, and nothing orphaned. |
| Clean.CleanRun | migrations/001_initial.sql:8-37 | The same over every fault-free run. |
| Conservation.FilesByGroup | internal/repository/file.go:45-74 | Row sizes summed file by file equal group size times row size summed row by row. |
| Conservation.PhysicalBytes | internal/service/storage.go:40-134 | The bytes in the blob store add up to the row sizes. |
| Conservation.SpaceSaved | internal/service/storage.go:40-134 | In a clean store the bytes of all files are the counted bytes of the rows, and exceed the bytes stored by exactly (count - 1) times size, summed over the rows. |
| Conservation.SpaceSavedByRun | internal/service/storage.go:29-206 | The same after every fault-free run from the empty store. |
| Machine.StepAdvances | internal/service/storage.go:29-206 | Every step keeps a process well formed and brings it closer to its end: no call loops. |
| Machine.SchemaAlwaysHolds | migrations/001_initial.sql:8-37 | The constraints hold in every reachable state of every interleaving with any faults. |
| Machine.ListAlwaysComplete | internal/repository/file.go:246-283 | In every reachable state the inner join drops no file: each appears once in a list, with its own row. |
| Solo.UploadAlone | internal/service/storage.go:29-134 | An upload process that is not interrupted ends in the store and the answer of `Protocol.Upload`. |
| Solo.DeleteAlone | internal/service/storage.go:151-206 | A delete process that is not interrupted ends in the store and the answer of `Protocol.Delete`. |
| Bound.UploadStepPays | internal/service/storage.go:47-126 | No step of an upload lets count minus files outgrow what the process then owes. |
| Bound.DeleteStepPays | internal/service/storage.go:151-203 | No step of a delete does. |
| Bound.CountBound | internal/service/storage.go:47-203 | Under every interleaving of any number of uploads and deletes, with any faults, a count is at most its files plus the processes that owe it. |
| Bound.QuiescentCounts | internal/service/storage.go:47-203 | When all calls have returned and none was hit by a fault, no count exceeds its files, double deletes and lost rows included. |
| Safety.ReleasesStayBelow | internal/service/storage.go:151-177 | In a safe batch, while some file of a hash is there or to come, fewer deletes have released it than there were references and raises. |
| SafetySteps.ReleaseKeeps | internal/service/storage.go:164-177 | A release of a hash of which some file is still there or to come leaves its row in place, backed and counting at least what was raised and not released; whoever reads zero has emptied a hash that nobody needs. |
| SafetySteps.TurnStaysGuarded | internal/service/storage.go:29-206 | Each step of each process of a safe batch keeps the whole invariant, with several deletes of one id, and deletes of ids that the batch uploads, included. |
| SafetyRuns.LiveFilesAlwaysServed | internal/service/storage.go:29-206 | In every reachable state of a safe batch every live file has its row and a blob with the row's digest and size. |
| SafetyRuns.LiveFilesKeepTheirBytes | internal/service/storage.go:29-206 | In every reachable state of a safe batch a live file serves the bytes it had at the start, or those its upload carried. |
| SafetyExactly.VictimLost | internal/service/storage.go:47-203 | If, after some uploads of a hash, the deletes of its other files are as many as its references, some schedule leaves the remaining file, or the one being uploaded, without its bytes. |
| SafetyExactly.ServedExactly | internal/service/storage.go:29-206 | A batch of fault-free calls on a clean store serves every live file in every reachable state if and only if, for every file there or to come, and whichever other uploads of its hash come first, the deletes of the other files of that hash are fewer than its references. |
| SafetyExactly.SafeForDifferentIds | internal/service/storage.go:47-203 | When all ids are different, that condition holds if and only if every stored hash that an accepted upload carries keeps a file that nobody deletes. |
| SafetyEnds.EndsWithTheRightFiles | internal/service/storage.go:29-206 | In a safe batch the files at the end are exactly those of the start and of the uploads that reported success, less those of which some delete reported success; every accepted content whose file is not deleted has a row. |
| UploadFailures.FailsExactly | internal/service/storage.go:47-107 | In a safe batch some schedule makes an accepted upload report failure if and only if its content has no row at the start and another accepted upload carries it too. |
| UploadFailures.SomeUploadSucceeds | internal/service/storage.go:89-133 | Of the uploads of one content in a safe batch at least one reports success. |
| Readers.NeverWrongBytes | internal/service/storage.go:136-149 | A download that looks at the row, then lets any number of steps of any fault-free batch pass, safe or not, and then fetches the blob, never gets bytes of another digest. |
| Readers.FailsOnlyAfterDelete | internal/service/storage.go:136-149 | In a safe batch such a download finds no blob only if a delete of that very file has removed it. |
| Answers.UploadsAnswerRight | internal/service/storage.go:29-134 | Whatever interleaves and whatever fails, an upload that reports success was accepted, and its record shows its own id, name, digest and time, with legacy fields that repeat the row it carries. |
| Answers.FilesFollowAnswers | internal/service/storage.go:29-206 | In every reachable state of every batch, with any faults and double deletes, the files are exactly those of the start and of the uploads that have reported success, less those that a delete has removed. |
| Copies.CopyGoesUnlessKept | internal/service/storage.go:38-126 | In every reachable state of every batch of fault-free calls, safe or not: if the blob under a finished upload's path is there, that upload has reported success and its record carries that very path. |
| Copies.CleanUpDropsWhatItFound | internal/service/storage.go:177-191 | In every reachable state of every such batch: once a delete is past its blob call, the blob under the path of the row that it had looked up is gone for good, even if the row went, or was made anew, in between. |
| NoRaceSteps.TurnStaysSteady | internal/service/storage.go:29-206 | Each step of each process of a safe batch that deletes no file twice keeps exact counts, exact ownership of blobs and a single observer of each zero; several deletes of an id that is nowhere are included. |
| NoRaceRuns.CountsAlwaysExact | internal/service/storage.go:47-203 | In every reachable state of such a batch a count is exactly its files plus the claims on their way. |
| NoRaceRuns.EndsClean | internal/service/storage.go:29-206 | Every interleaving of such a batch ends in a clean store. |
| NoRaceRuns.OneObserverPerEmptiedHash | internal/service/storage.go:164-203 | Never do two deletes observe zero for one hash; at the end a row that was there or was made is gone exactly if one did, and exists exactly if a file references it. |
| NoRaceRuns.RacingUploads | internal/service/storage.go:47-126 | Uploads racing with each other: every row is counted and has its blob at every moment, and at the end there is one row for each distinct content, also for those that lost the primary key. |
| NoRaceExactly.CountsExactly | internal/service/storage.go:47-203 | Counts are files plus claims in every reachable state of a batch of fault-free calls if and only if it is safe and deletes no file that is there or to come twice. |
| NoRaceExactly.EndsCleanExactly | internal/service/storage.go:29-206 | Every interleaving in which all calls return ends in a clean store if and only if the batch is safe and deletes no such file twice. |
| NoRaceExactly.UnsparedIsInexact | internal/service/storage.go:164-203 | For every file that is not spared some schedule reaches a state with a wrong count: too low at zero, or, when no file of the hash is left, a claim on a row that the clean-up has removed. |
| NoRaceExactly.DoubledCountsLow | internal/service/storage.go:151-167 | Two deletes that both find one file lower its count twice, to below its files, with everybody else idle. |
| NoRaceExactly.FinishAll | internal/service/storage.go:29-206 | A count below its files, or a file whose bytes are gone and that nobody will delete, outlasts every way in which the remaining calls run to their ends one by one. |
| Races.UploadDeleteRace | internal/service/storage.go:47-203 | A schedule without faults in which an upload attaches to a row that a delete has emptied: all calls return, the upload reports success and its file has no bytes. |
| Races.DoubleDeleteRace | internal/service/storage.go:151-203 | A schedule without faults in which two deletes of one id lower the count twice and drop the bytes of another file; all calls return. |
| LateCleanUps.EmptyReleaseRace | internal/service/storage.go:151-191 | A schedule without faults in which a delete that removed and released nothing reads a count of zero, and drops the bytes of a file that was uploaded after the content had gone. |
| LateCleanUps.UnthreatenedStands | internal/service/storage.go:177-198 | In any batch and with any faults, a file stands with its bytes throughout, once no delete of it is under way, no delete of its hash has still to look up the row, and none has read its path: a clean-up that has looked up an older row takes nothing. |
| StrayLower.StrayLowerRace | internal/service/storage.go:54-80 | A schedule without faults in which an upload loses the row it has attached to, and its rollback lowers the count of the row that another upload has made since: a file stands on a row that counts nobody. |
| Listing.ListIsComplete | internal/repository/file.go:246-283 | While the foreign key holds the list names each file exactly once, with its own row, newest first. |
| Listing.AnswerExists | internal/repository/file.go:247-252 | Every database has such an order of its joined rows. |
| Cache.FileMissInSteps | internal/repository/file.go:153-193 | A GetByID that misses and is not interrupted is its query followed by its fill. |
| Cache.ListMissInSteps | internal/repository/file.go:234-307 | So is a List that misses. |
| Cache.DeleteInSteps | internal/repository/file.go:226-232 | A DeleteByID that is not interrupted is its statement, the DEL of the entry and the DEL of the list. |
| Cache.CreateInSteps | internal/repository/file.go:125-134 | A CreateFileReference that succeeds and is not interrupted is its statement and the DEL of the list. |
| Cache.AllKept | internal/repository/file.go:32-308 | Every call, whatever fails, and every late fill, DEL and expiry, keeps all that is cached, and all that readers hold, in agreement with the join for the files that are there, on everything that an UPDATE leaves alone. |
| CacheOrigins.HoldsWhatWasLeft | internal/repository/file.go:125-308 | Over every sequence of calls, late fills, DELs and expiries: each cache key, each reader and each writer holds what the last call that touched it left there, where only a fill, a DEL of that key with Redis reachable, and its own TTL touch a key. |
| Coherence.AlwaysHolds | internal/repository/file.go:32-308 | So over every sequence of them. |
| Coherence.EntriesKept | internal/repository/file.go:125-232 | A call keeps the entries settled (an entry for a file that is gone is there only while the delete of that file, under that text, is between its statement and its DEL) if and only if it is not the statement of a delete while another spelling is cached, a DEL while Redis is out of reach, or a fill for a file that is gone, each with nobody else about to delete the entry. |
| Coherence.EntriesAlwaysSettled | internal/repository/file.go:153-232 | Over every sequence of calls, late fills and expiries the entries are settled at every moment, also between a statement and its DEL, if and only if no call of the sequence is one of those. |
| Coherence.SettledAgrees | internal/repository/file.go:153-193 | With no delete under way, settled entries all agree with a fresh join. |
| Coherence.ListKept | internal/repository/file.go:125-307 | A call keeps the list settled (it names other files than there are only while some DEL of it is to come) if and only if it is not the last such DEL with Redis out of reach, nor a fill of other rows with no DEL to come. |
| Coherence.ListAlwaysSettled | internal/repository/file.go:226-307 | Over every sequence of calls the list is settled at every moment if and only if no call of the sequence is one of those. |
| Coherence.SettledListAgrees | internal/repository/file.go:246-283 | With no DEL under way, a settled list is an answer of a fresh query: exactly the existing files, newest first. |
| LateFills.FilesAfter | internal/repository/file.go:125-232 | The files after a sequence of calls are those that were there and are not deleted, and those that are created and not deleted later. |
| LateFills.LateFillExactly | internal/repository/file.go:165-190 | A fill that comes after other calls leaves the entries settled if and only if none of them deleted its file, under whatever spelling, or the DEL of a delete under the same text is still to come. |
| LateFills.LateListExactly | internal/repository/file.go:247-281 | A late fill of the list is coherent if and only if, by the calls in between, no file whose row arrived was deleted, every other file was, and no file that was created is still there. |
| LateFills.DeliveredExactly | internal/repository/file.go:258-281 | A list that is read and cached without interruption agrees if and only if all of its rows arrived: an interrupted result is cached as if it were whole. |
| Coherence.OtherSpellingStaysCached | internal/repository/file.go:154-232 | A file read under one spelling of its id and deleted under another leaves an entry for a file that is gone after the delete is over, with Redis reachable throughout. |
| Coherence.ForeignKeyIsNeeded | migrations/001_initial.sql:35-36 | A row at count zero under a cached file survives DELETE and re-creation; without the foreign key the entry of that file would be wrong. |
| Metadata.OpKeepsRows | internal/service/storage.go:29-206 | No operation, with any faults, changes a surviving file, or the size, content type, path and creation time of its row. |
| Metadata.LiveFileUnchanged | internal/repository/file.go:165-185 | So over every run through which the file lives. |
| Metadata.RowComesFromItsUpload | internal/service/storage.go:91-101 | Over every run from the empty store, whatever fails, a row has the size, type, path and creation time that one upload gave it, which found it missing, and has been there ever since. |
| Metadata.FileReportsThatUpload | internal/repository/file.go:165-185 | A file reports the size, content type and path of that upload, which need not be its own. |
| Metadata.LaterCopiesKeepOnlyTheirName | internal/service/storage.go:60-73 | A later copy reports the size and content type of the row it attaches to, and its own name. |
| Metadata.UploadAnswersItsRow | internal/service/storage.go:60-86 | The record an upload answers is what a query then gives, path included, except that a duplicate's shows the count from before. |
| Metadata.ContentTypeMayChange | internal/service/storage.go:91-119 | After the last copy is deleted, the next upload of the same bytes may report another content type. |
| Origins.FileComesFromItsUpload | internal/service/storage.go:60-119 | Over every run from the empty store, whatever fails, a file has the name, the digest and the time of the upload that drew its id, and has been there ever since. |
| Origins.RecordTellsItsUploads | internal/repository/file.go:165-190 | Every field of the joined record and of its cached JSON, legacy fields included, is an argument of the upload that drew the id (name, time, digest) or of the one that made the row (size, content type, path, time of the row); the JSON names no path. |
| Origins.ListTellsItsUploads | internal/repository/file.go:258-276 | So is every field of every record of a list. |
| Origins.AnswerTellsItsUploads | internal/service/storage.go:60-134 | So is every field of the record that an upload answers; it is its own row exactly if there was none. |
| Origins.RowShowsItsLastChange | internal/repository/file.go:54-68 | The `updated_at` of a row is the time of the last operation that changed it or made it. |
| Origins.LaterUploadListedFirst | internal/repository/file.go:247-252 | Of two listed files the one uploaded later, by the clock of the uploads, comes first. |
| Origins.ListFollowsUploads | internal/repository/file.go:247-252 | While the clock advances from upload to upload, one file stands before another exactly if it was uploaded after it. |
| Worlds.AlwaysGood | internal/service/storage.go:29-210 | Every fault-free history of uploads, deletes, downloads, lists and expiries, under any spelling of ids, keeps the store clean, the cached list exact, and every entry whose file is still there in agreement. |
| Worlds.ListIsFresh | internal/repository/file.go:234-284 | List, cached or not, answers what a fresh query may answer, counts included, up to storage paths. |
| Worlds.ListUnderExactly | internal/repository/file.go:234-308 | With any faults: when List answers, and when its answer is one that a fresh query may give: exactly if it comes from the cache, or all rows arrive, or there is no file; if the query fails and the legacy query finds no row, it answers and caches an empty list. |
| Worlds.ExpiredListIsFetched | internal/repository/file.go:234-284 | Until its key expires a list is answered as it was fetched, whatever order a new query would have, and after that from the tables. |
| Worlds.ListCachesItsAnswer | internal/repository/file.go:278-306 | With Redis reachable, what List caches is what it answers; nothing changes if it fails or Redis is out of reach. |
| Worlds.DownloadExactly | internal/service/storage.go:136-149 | A download delivers bytes if and only if the file exists and the text of the request is not cached, and then its joined record and its bytes; of a cached one it answers the record with a body that cannot be read on a back end that opens its base for the empty path, and an error on others. |
| Worlds.DownloadUnderExactly | internal/service/storage.go:136-149 | With any faults: a download delivers the joined record and its bytes if and only if neither the blob call nor the query fails, the file exists, and the record does not come from the cache; Redis out of reach fails no download. The answer in every other case. |
| Worlds.DownloadCachesItsRecord | internal/repository/file.go:153-193 | With Redis reachable, the text is cached after a GetByID exactly if it got a record, and the entry is that record without its path; nothing else changes, and nothing at all with Redis out of reach. |
| Worlds.SecondDownloadFails | internal/model/file.go:10-29 | Right after a download, until its entry expires, the same text delivers no bytes, on either kind of back end, while another spelling of the id does. |
| Worlds.GoneFileStillAnswered | internal/repository/file.go:153-232 | After a delete the record of the file is still answered under a spelling of its id exactly if that spelling was cached and is not the one of the delete. |
| Worlds.StoreOfHistory | internal/service/storage.go:136-210 | Downloads, lists and expiries leave the store alone: a history's store is that of its uploads and deletes. |
| Worlds.DownloadReturnsWhatWasUploaded | internal/service/storage.go:29-149 | Over every fault-free history from the empty service an uncached download delivers for exactly the ids of the plain map, and returns the name and bytes uploaded under the id. |
| CachedCounts.RightAfterAct | internal/repository/file.go:54-134 | An act that leaves the entry and its file alone keeps a right count in the entry right if and only if it neither uploads that content nor deletes another file of it. |
| CachedCounts.CountOverHistory | internal/repository/file.go:54-134 | Over every history the entry keeps the count of its fill, while the count of its row moves by the uploads of that content less the deletes of its files. |
| CachedCounts.CountRightExactly | internal/repository/file.go:153-193 | After any history since its fill, the entry shows the count that a fresh join would if and only if as many files of that content were uploaded as other ones were deleted. |
| CachedCounts.CachedCountMayBeStale | internal/repository/file.go:125-134 | A duplicate upload drops only the cached list: the entry of the first copy keeps its old count. |
| Utf8.ControlRunesAreBytes | pkg/validator/file.go:59-69 | The rune loop meets a control character exactly where a C0 or DEL byte or an encoded C1 stands. |
| Validator.SanitizeFilename | pkg/validator/file.go:184-208 | The replace, trim, truncate and default steps compute `Sanitized`. |
| Validator.SanitizedShape | pkg/validator/file.go:184-208 | The result has no replaced character, is neither empty nor hidden, and is too long exactly for a long name with an extension of 255 bytes or more. |
| Validator.SanitizedNamesFit | pkg/validator/file.go:48-97 | `ValidateFilename` accepts a sanitised name if and only if the trimmed name is empty, or short and free of DEL, C1 controls, reserved stem, `..`, `/`, `\`, or is cut to two parts that are free of them, the cut neither falling after a dot nor leaving a reserved name, with an extension below 255 bytes. |
| Validator.TruncationMakesDots | pkg/validator/file.go:192-200 | A long name without two dots that is cut after a dot, and so rejected. |
| Validator.TruncationMakesReserved | pkg/validator/file.go:192-200 | A long name with no reserved stem that is cut down to one, and so rejected. |
| Validator.SanitizeIdempotentExactly | pkg/validator/file.go:184-208 | Sanitising twice is sanitising once if and only if no long name without extension was cut right after a space or a dot. |
| Validator.IdempotentWithExtension | pkg/validator/file.go:184-208 | With an extension left after the trim, sanitising is idempotent. |
| Validator.NotAlwaysIdempotent | pkg/validator/file.go:192-200 | 254 letters, a space and a letter are a name that sanitising changes twice. |
| Names.ShortNameSanitized | pkg/validator/file.go:184-208 | A name of at most 255 bytes loses exactly the spaces and dots around it, and exactly its bytes below 0x20 and the seven characters become underscores; of spaces and dots alone the default name is left. |
| Names.LongNameSanitized | pkg/validator/file.go:191-200 | A longer name keeps its extension and is cut before it to 255 bytes in all, unless the extension has 255 bytes or more. |
| Names.EveryNameSanitized | pkg/validator/file.go:184-208 | Every name is of one of these forms. |
| Names.VerdictExactly | pkg/validator/file.go:48-97 | Each verdict of `ValidateFilename` exactly, by the bytes of the name and in the order of the checks. |
| Names.ReservedExactly | pkg/validator/file.go:72-84 | A name is reserved exactly if, letter case aside, its stem is con, prn, aux or nul, or com or lpt with one digit from 1 to 9. |
| Names.FirstBadRune | pkg/validator/file.go:59-69 | The first rune that the loop objects to decides between an invalid and a control character. |
| LocalStorage.AcceptedExactly | pkg/storage/local.go:17-55 | Under every base, absolute or relative, a path is refused exactly for two dots inside a component, for something below one of the seven system directories, or for a base that is the root; what is accepted leads to the base or below it, so for other bases the prefix check never fires. |
| LocalStorage.SameFileExactly | pkg/storage/local.go:37-54 | Accepted paths name one file if and only if their components are equal. |
| LocalStorage.RootAcceptsNothing | pkg/storage/local.go:49-52 | With the root as base the prefix check refuses every path but the root itself. |
| LocalStorage.PlainNamesStand | pkg/storage/local.go:17-55 | A path without slash and dot, such as a UUID, maps to itself and leads to that name right below the base. |
| Paths.PlaceOfClean | pkg/storage/local.go:19 | Cleaning a path, relative or not, does not change where it leads from the working directory. |
| LocalStorage.WrittenKeepsTree | pkg/storage/local.go:70-80 | Making the folders and the file keeps the disk a tree, stores the bytes, changes no other node, and adds only folders above the file. |
| LocalStorage.WritableExactly | pkg/storage/local.go:70-80 | A file can be written exactly if some tree holds it next to all that was there, and it takes the place of no folder. |
| LocalStorage.RemovableExactly | pkg/storage/local.go:100-113 | A node can be removed exactly if what remains is a tree: a file or an empty folder, never the root. |
| LocalStorage.PlainPut | pkg/storage/local.go:64-83 | On UUID paths a Put is always possible and updates the map of paths to bytes there and nowhere else. |
| LocalStorage.PlainDelete | pkg/storage/local.go:100-113 | On UUID paths a Delete removes exactly the entry of its path. |
| LocalStorage.LocalStorage.Put | pkg/storage/local.go:64-83 | Makes the folders and writes the file exactly when the path is accepted, no file stands in the way and no folder in its place; a call that fails on the way leaves some of the folders, or all of them and a prefix of the file, and nothing else changes. |
| LocalStorage.LocalStorage.Get | pkg/storage/local.go:85-98 | Opens exactly what is there at the place of an accepted path, be it a file or a folder. |
| LocalStorage.LocalStorage.Delete | pkg/storage/local.go:100-113 | Removes exactly the file, or the empty folder, at the place of an accepted path. |

## Left out

- LocalStorage.LocalStorage.Put: symbolic links, permissions and a working directory that changes are not modelled; a call they hit is one that `fails`.
- Repository.FileRepository.GetByID: of the legacy queries only their outcome for stored rows is modelled: columns that are NULL do not scan.
- Worlds.AlwaysGood: calls follow one another and Redis is reachable; interleaved calls run either on the tables and blobs (`Machine`) or on the tables and the cache (`Cache`).
- The back end's `List` and the walk below it.
- `Create`, `GetByChecksum` and `GetByStorageHash` of the repository, which the service does not call.
- `ValidateFileExtension`, `ValidateContentType`, `ValidateFileSize`, `ValidateFile` and `SanitizeError`: finite case splits over tables.
- SHA-256, UUID generation, JSON text, `internal/service/dedup.go`.
- PostgreSQL and Redis beyond atomic statements, constraints and expiry: pools, isolation levels, wall-clock TTLs.
- HTTP handlers, the SeaweedFS clients, logging, configuration and deployment.
