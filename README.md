# x-backup, modelled in Dafny

x-backup is a backup mod for Minecraft servers. This project models its core:

- **The content-addressed backup catalog.** Two generations of `BackupDatabaseService` are modelled:
  - the common one, used by the single-version build;
  - the older core one, used by the multi-version build.

  A file's content is stored once, as a blob named by the MD5 of the content. The blob sits at `blobDir/hh/rest`, where `hh` is the first two hex digits of the hash and `rest` is the other thirty. Rows of `backup_entries` describe one path each. A backup row links to the entries it contains through `backup_entry_backup`.

  The model covers `createBackup` (deduplication, gzip of large files, sums, the recheck), `deleteBackup`, `check`, `restore` (both passes), `packBackup`, `importZipArchive`, the listing queries, and the `retry` combinators.
- **The restore-quiesce protocol.** Before files are overwritten, every `RestoreAware` node of the running server is quiesced. After the restore, each node is resumed. The model covers:
  - the chunk I/O worker, in its four versions (1.21.2, 1.21, 1.20.1 and 1.20);
  - the region-file cache;
  - the ticket manager;
  - the prioritized level queues;
  - the task-priority system;
  - the entity manager and its chunk data access;
  - the loading managers and the worlds.

  Each node appends to a ghost trace, so the contracts can state the visit order.
- **Restore coordination.** This part models:
  - `prepareRestore` and `finishRestore` of the three `Impl` versions, and the `Utils.finishRestore` of both builds;
  - `reasonOfDelayShutdown`;
  - the two `doRestore` sequences and the `--chunk` file filter;
  - `/xb list` paging;
  - the `isBusy` lock, the scheduled-backup rule and the mirror-mode check;
  - the set-once `XBackupApi` instance, the restart command line, and the `I18n` overlay.

Some things are parameters of the model rather than parts of it:

- The file system is a map from relative paths to nodes.
- The SQL tables are sequences and sets.
- MD5, gzip and zip are function parameters.
- Anything the host server does is a parameter or a trace event.

Where the source's behaviour looks unintended, the model keeps the code as written next to a corrected version. The "## Findings" section lists these cases.

| file | module | what |
|---|---|---|
| wrappers.dfy | Wrappers | `Option`, `Result` |
| paths.dfy | Paths | paths as name lists, `resolve`, `take`/`drop`, `normalize`, `split`/`join`, extensions |
| hex.dfy, decimal.dfy | Hex, Decimal | `%02x` digests, `Int.toString`/`toInt` |
| store.dfy | Store | nodes, blob layout, backup rows, pages, pruning a tree |
| retry.dfy | Retry | both `retry` combinators |
| catalog.dfy, service.dfy | CommonCatalog, CommonService | the common service |
| core_service.dfy | CoreService | the core service |
| trace.dfy, region_storage.dfy, io_worker.dfy, nodes.dfy, loading.dfy | Trace, RegionStorage, IoWorker, Nodes, Loading | the restore-quiesce tree |
| coordinator.dfy, xbackup.dfy, commands.dfy | Coordinator, XBackup, Commands | restore coordination, lock, scheduler, commands |
| api.dfy, restart.dfy, i18n.dfy | Api, Restart, I18n | API slot, restart command, translations |

## Model

| member | source | states |
|---|---|---|
| Paths.Resolve | common/src/main/kotlin/com/github/zly2006/xbackup/BackupDatabaseService.kt:416-418 | resolving a name appends it as the last component; resolving "" leaves the path as it is |
| Paths.Take | common/src/main/kotlin/com/github/zly2006/xbackup/BackupDatabaseService.kt:416-418 | `take(n)` is a prefix of the string, of length `min(n, len)` |
| Paths.Drop | common/src/main/kotlin/com/github/zly2006/xbackup/BackupDatabaseService.kt:416-418 | `drop(n)` is what follows `take(n)`, so the two concatenate back to the string |
| Paths.NormalizeIdempotent | src/main/kotlin/com/github/zly2006/xbackup/Utils.kt:52-58 | `normalize()` yields a normal path (no ".", "" or inner "..") and is idempotent |
| Paths.Split | core/src/main/kotlin/RestartUtils.kt:27-33 | `split(d)` gives at least one piece and no piece holds the delimiter |
| Paths.SplitJoin | core/src/main/kotlin/RestartUtils.kt:27-33 | joining the pieces of `split(d)` with `d` gives the string back |
| Paths.JoinSplit | core/src/main/kotlin/RestartUtils.kt:27-33 | splitting a join of delimiter-free pieces gives the pieces back |
| Paths.AfterLast | src/main/kotlin/com/github/zly2006/xbackup/Commands.kt:315 | the extension is the suffix after the last dot, holds no dot, and is "" when there is no dot |
| Hex.ByteHex | common/src/main/kotlin/com/github/zly2006/xbackup/BackupDatabaseService.kt:282 | `%02x` of a byte is two lower-case hex digits whose value is the byte's unsigned value |
| Hex.EncodeIsLowerHex | common/src/main/kotlin/com/github/zly2006/xbackup/BackupDatabaseService.kt:273-284 | a rendered digest is lower-case hex only |
| Hex.Encode | common/src/main/kotlin/com/github/zly2006/xbackup/BackupDatabaseService.kt:273-284 | the text has two hex digits per byte of the digest |
| Hex.DecodeEncode | common/src/main/kotlin/com/github/zly2006/xbackup/BackupDatabaseService.kt:273-284 | reading back a rendered digest gives the digest: the rendering loses nothing |
| Hex.EncodeInjective | common/src/main/kotlin/com/github/zly2006/xbackup/BackupDatabaseService.kt:273-284 | different digests have different hash texts |
| Hex.DigestText | common/src/main/kotlin/com/github/zly2006/xbackup/BackupDatabaseService.kt:273-284 | the hash of an MD5 digest is 32 lower-case hex digits |
| Decimal.ParseInt | src/main/kotlin/com/github/zly2006/xbackup/Commands.kt:317-318 | `toInt()` succeeds only on an optional sign followed by digits, with a value inside `Int` |
| Decimal.Show | src/main/kotlin/com/github/zly2006/xbackup/Commands.kt:471 | `Int.toString()` is non-empty and holds no dot and no space |
| Decimal.ParseShow | src/main/kotlin/com/github/zly2006/xbackup/Commands.kt:317-318 | `toInt()` reads back every `Int` that `toString()` wrote |
| Decimal.DigitsValueShowNat | src/main/kotlin/com/github/zly2006/xbackup/Commands.kt:317-318 | the digits written for a natural number read back as that number |
| Decimal.ShowInjective | src/main/kotlin/com/github/zly2006/xbackup/Commands.kt:471 | different `Int`s have different texts |
| Store.BlobFile | common/src/main/kotlin/com/github/zly2006/xbackup/BackupDatabaseService.kt:416-418 | every blob file lies below `blobDir` |
| Store.BlobFileOfDigest | common/src/main/kotlin/com/github/zly2006/xbackup/BackupDatabaseService.kt:416-418 | an MD5 hash's blob is two levels below `blobDir`; a two-digit name then the rest, which together spell the hash |
| Store.BlobFileInjective | core/src/main/kotlin/com/github/zly2006/xbackup/BackupDatabaseService.kt:312-314 | two hashes with the same blob file are the same hash |
| Store.ListPage | common/src/main/kotlin/com/github/zly2006/xbackup/BackupDatabaseService.kt:670-677 | a page holds rows in descending insertion order, from `offset` on, at most `limit` of them (negative offset counts as 0, negative limit as none) |
| Store.ListPageNewestFirst | common/src/main/kotlin/com/github/zly2006/xbackup/BackupDatabaseService.kt:670-677 | with ids increasing, a page lists stored backups in strictly decreasing id order |
| Store.ListPagesConcatenate | common/src/main/kotlin/com/github/zly2006/xbackup/BackupDatabaseService.kt:670-677 | a page of `a` followed by the page of `b` after it is the page of `a + b` |
| Store.FirstOfFirstPageIsLatest | common/src/main/kotlin/com/github/zly2006/xbackup/BackupDatabaseService.kt:679-681 | the first row of the first page is the latest backup |
| Retry.CommonRetry | common/src/main/kotlin/com/github/zly2006/xbackup/Utils.kt:10-24 | the loop returns the outcome and attempt count the recursive definition gives |
| Retry.CommonSucceedsIff | common/src/main/kotlin/com/github/zly2006/xbackup/Utils.kt:10-21 | `retry` succeeds, with that attempt's value, exactly when some attempt within `times` succeeds before any `DontRetryException` |
| Retry.CommonBounds | common/src/main/kotlin/com/github/zly2006/xbackup/Utils.kt:10-16 | at most `max(times, 0)` attempts; a success or `DontRetryException` is the last attempt |
| Retry.CommonAllFail | common/src/main/kotlin/com/github/zly2006/xbackup/Utils.kt:17-23 | when every attempt fails plainly, all `times` attempts run and "Retry failed" carries the last failure (none for `times <= 0`) |
| Retry.CoreRetry | core/src/main/kotlin/com/github/zly2006/xbackup/BackupDatabaseService.kt:241-253 | the loop returns the outcome the recursive definition gives |
| Retry.CoreOutcomeCases | core/src/main/kotlin/com/github/zly2006/xbackup/BackupDatabaseService.kt:241-253 | the core `retry` returns the first success or rethrows the last failure; with `times <= 0` it fails on `lastException!!` |
| CommonCatalog.IgnoredFiles | common/src/main/kotlin/com/github/zly2006/xbackup/BackupDatabaseService.kt:82-89 | the ignored names are exactly the built-in ones and the configured ones |
| CommonCatalog.HashText | common/src/main/kotlin/com/github/zly2006/xbackup/BackupDatabaseService.kt:273-284 | a file's hash column is 32 lower-case hex digits |
| CommonCatalog.First | common/src/main/kotlin/com/github/zly2006/xbackup/BackupDatabaseService.kt:250-293 | `firstOrNull` is none exactly when nothing matches, else the first matching element |
| CommonCatalog.BackupStep | common/src/main/kotlin/com/github/zly2006/xbackup/BackupDatabaseService.kt:250-347 | a reuse is a valid row of the path and kind that is unchanged or has the same hash; an insert takes the next id, and stores a file gzipped iff longer than 1024 bytes with `zippedSize` the blob's length; a directory gets hash "", no blob and `zippedSize` 0 |
| CommonCatalog.InsertOnlyWhenNoReuse | common/src/main/kotlin/com/github/zly2006/xbackup/BackupDatabaseService.kt:250-293 | a new row is inserted only when no row passes either lookup |
| CommonCatalog.UnchangedFileIsReused | common/src/main/kotlin/com/github/zly2006/xbackup/BackupDatabaseService.kt:250-272 | a valid row of the same path and kind, with the same size and time, is reused: no row, no blob write |
| CommonCatalog.SameContentIsReused | common/src/main/kotlin/com/github/zly2006/xbackup/BackupDatabaseService.kt:285-293 | a file whose hash a valid row of its path holds is reused |
| CommonCatalog.SumsAppend | common/src/main/kotlin/com/github/zly2006/xbackup/BackupDatabaseService.kt:359-360 | the backup's size and zipped size add up entry by entry |
| CommonCatalog.RecheckFailures | common/src/main/kotlin/com/github/zly2006/xbackup/BackupDatabaseService.kt:372-380 | the recheck reports exactly the linked entries that are not valid |
| CommonCatalog.LinkedEntries | common/src/main/kotlin/com/github/zly2006/xbackup/BackupDatabaseService.kt:688-706 | a backup's entries are exactly the rows a link ties to it |
| CommonCatalog.RecheckAsWrittenNeverFails | common/src/main/kotlin/com/github/zly2006/xbackup/BackupDatabaseService.kt:357-380 | as written, the recheck reads the backup before its links exist and so reports nothing |
| CommonCatalog.RecheckDiscrepancy | common/src/main/kotlin/com/github/zly2006/xbackup/BackupDatabaseService.kt:372-380 | a linked entry whose blob has the wrong size is caught by the corrected recheck and missed as written |
| CommonCatalog.UnsharedOf | common/src/main/kotlin/com/github/zly2006/xbackup/BackupDatabaseService.kt:400-405 | the entries deleted are exactly those of the backup that no other backup links |
| CommonCatalog.WithoutIds | common/src/main/kotlin/com/github/zly2006/xbackup/BackupDatabaseService.kt:407-409 | deleting by id keeps exactly the rows with other ids |
| CommonCatalog.DeletedBlobs | common/src/main/kotlin/com/github/zly2006/xbackup/BackupDatabaseService.kt:406 | no blob that a remaining row refers to is deleted |
| CommonCatalog.WithoutBackup | common/src/main/kotlin/com/github/zly2006/xbackup/BackupDatabaseService.kt:412 | deleting the backup row keeps exactly the other rows, in id order |
| CommonCatalog.DeleteKeepsOtherBackupsValid | common/src/main/kotlin/com/github/zly2006/xbackup/BackupDatabaseService.kt:398-414 | with the corrected blob deletion, every other backup keeps its entries, and each stays valid |
| CommonCatalog.LinkedSurvive | common/src/main/kotlin/com/github/zly2006/xbackup/BackupDatabaseService.kt:398-414 | the entries linked to another backup are neither unlinked nor deleted |
| CommonCatalog.DeleteAsWrittenBreaksOtherBackup | common/src/main/kotlin/com/github/zly2006/xbackup/BackupDatabaseService.kt:398-414 | as written, deleting one backup can leave another with an entry whose blob is gone |
| CommonCatalog.MemberContent | common/src/main/kotlin/com/github/zly2006/xbackup/BackupDatabaseService.kt:167-175 | the scan reads a member that has the name, or nothing |
| CommonCatalog.MemberContentAt | common/src/main/kotlin/com/github/zly2006/xbackup/BackupDatabaseService.kt:167-175 | the scan reads the first member of that name |
| CommonCatalog.Read | common/src/main/kotlin/com/github/zly2006/xbackup/BackupDatabaseService.kt:156-183 | a read is missing when the entry's blob is absent and, for compress 1, also when gunzip of the blob fails (the caught `ZipException`); it is never a closed stream; otherwise for compress 0 and 1 it is the stream the source returns |
| CommonCatalog.PackedReadDiscrepancy | common/src/main/kotlin/com/github/zly2006/xbackup/BackupDatabaseService.kt:167-175 | as written, every packed entry with a blob reads as a closed stream; as intended, it reads as its member |
| CommonCatalog.StoredFileReadsBack | common/src/main/kotlin/com/github/zly2006/xbackup/BackupDatabaseService.kt:295-347 | a file stored by `createBackup`, gzipped or not, reads back as its content |
| CommonCatalog.PackCandidates | common/src/main/kotlin/com/github/zly2006/xbackup/BackupDatabaseService.kt:582-588 | the candidates are exactly the backup's files under the size limit that no other backup links |
| CommonCatalog.PackItem | common/src/main/kotlin/com/github/zly2006/xbackup/BackupDatabaseService.kt:552-563 | a member is named by the entry's path and commented with its hash and id |
| CommonCatalog.PackItems | common/src/main/kotlin/com/github/zly2006/xbackup/BackupDatabaseService.kt:544-578 | a successful pack has one member per entry |
| CommonCatalog.PackItemsSucceeds | common/src/main/kotlin/com/github/zly2006/xbackup/BackupDatabaseService.kt:544-578 | packing succeeds exactly when no entry is packed already and every blob reads |
| CommonCatalog.PackItemsAt | common/src/main/kotlin/com/github/zly2006/xbackup/BackupDatabaseService.kt:544-578 | member `i` holds what entry `i` reads as, under its name and comment |
| CommonCatalog.PackItemsAll | common/src/main/kotlin/com/github/zly2006/xbackup/BackupDatabaseService.kt:544-578 | every member holds what its entry reads as |
| CommonCatalog.Packed | common/src/main/kotlin/com/github/zly2006/xbackup/BackupDatabaseService.kt:592-600 | a packed row has compress 2, the archive's hash and blob size, and keeps id, path, size and time |
| CommonCatalog.PackThenRead | common/src/main/kotlin/com/github/zly2006/xbackup/BackupDatabaseService.kt:580-602 | after packing, each packed file reads as it did before, given a zip codec that reads back what it writes and distinct member names |
| CommonCatalog.ImportBlobs | common/src/main/kotlin/com/github/zly2006/xbackup/BackupDatabaseService.kt:626-662 | the import only adds blobs: no existing blob changes |
| CommonCatalog.ImportStoresEveryMember | common/src/main/kotlin/com/github/zly2006/xbackup/BackupDatabaseService.kt:626-662 | a completed import leaves a blob for the hash of every commented member; where no blob of that hash existed before, the blob holds the content of the first member commented with that hash |
| CommonCatalog.ByPath | common/src/main/kotlin/com/github/zly2006/xbackup/BackupDatabaseService.kt:436 | every entry's path is a key, mapped to an entry of that path |
| CommonCatalog.RestoreMap | common/src/main/kotlin/com/github/zly2006/xbackup/BackupDatabaseService.kt:436 | the restored paths are exactly the backup's paths the caller does not ignore |
| CommonCatalog.RestoreDecision | common/src/main/kotlin/com/github/zly2006/xbackup/BackupDatabaseService.kt:437-450 | a non-root path that is not skipped is deleted iff it is a file the backup lacks; it is deleted recursively iff its kind differs from its entry |
| CommonCatalog.PrunedSurvivors | common/src/main/kotlin/com/github/zly2006/xbackup/BackupDatabaseService.kt:437-450 | a path survives the first pass when it and each of its ancestors are kept |
| CommonCatalog.PrunedRemovesStrayFile | common/src/main/kotlin/com/github/zly2006/xbackup/BackupDatabaseService.kt:442-445 | a stray file that is not skipped is gone |
| CommonCatalog.PrunedRemovesWrongKind | common/src/main/kotlin/com/github/zly2006/xbackup/BackupDatabaseService.kt:446-449 | a wrong-kind path that is not skipped is gone, and so is everything below it |
| CommonCatalog.PruneOne | common/src/main/kotlin/com/github/zly2006/xbackup/BackupDatabaseService.kt:442-449 | `delete` removes the path, `deleteRecursively` removes its subtree, and nothing else changes |
| CommonCatalog.PruneWalk | common/src/main/kotlin/com/github/zly2006/xbackup/BackupDatabaseService.kt:437-450 | walking the paths in any order gives the order-free pruned tree |
| CommonCatalog.FirstPass | common/src/main/kotlin/com/github/zly2006/xbackup/BackupDatabaseService.kt:437-450 | the first pass leaves the tree pruned by the decisions on every path but the root |
| CommonCatalog.RestoreTask | common/src/main/kotlin/com/github/zly2006/xbackup/BackupDatabaseService.kt:459-499 | a path already agreeing in time and size is left alone (and only such a path); a written file has the entry's size and time and the blob's bytes when their MD5 is the hash, else the gunzipped blob, failing when that is not gzip data; a missing stream leaves an empty file; writing over a directory fails |
| CommonCatalog.ReadBackRestores | common/src/main/kotlin/com/github/zly2006/xbackup/BackupDatabaseService.kt:466-498 | a file entry whose blob reads back bytes of its hash and size is restored with exactly those bytes and its time |
| CommonCatalog.PackedRestoreFails | common/src/main/kotlin/com/github/zly2006/xbackup/BackupDatabaseService.kt:481-496 | a packed entry, whose member bytes do not have the archive's hash, fails when the archive is not gzip data |
| CommonCatalog.BackupRestoreRoundTrip | common/src/main/kotlin/com/github/zly2006/xbackup/BackupDatabaseService.kt:459-499 | a file freshly stored by `createBackup` and restored over a differing path comes back with its content and time (whole backups: `CommonService.Service.BackupThenRestore`) |
| CommonCatalog.Ancestors | common/src/main/kotlin/com/github/zly2006/xbackup/BackupDatabaseService.kt:458 | the parents `createParentDirectories` needs are exactly the proper prefixes of the path |
| CommonCatalog.ApplyRestore | common/src/main/kotlin/com/github/zly2006/xbackup/BackupDatabaseService.kt:455-499 | one task changes only its path and its missing parents; on success the path holds the content and time the entry promises, or is a node already agreeing with it in time and size |
| CommonService.Walked | common/src/main/kotlin/com/github/zly2006/xbackup/BackupDatabaseService.kt:241-242 | the walked paths are the paths of the tree, the root included, whose name is outside the ignored set and which the caller accepts |
| CommonService.StepKeepsFaithful | common/src/main/kotlin/com/github/zly2006/xbackup/BackupDatabaseService.kt:250-347 | one backup step keeps every row reading back bytes of its hash and size, collects a row that keeps the node's content (or its time and size, when reused), and changes what no existing row reads back |
| CommonService.CollectedHold | common/src/main/kotlin/com/github/zly2006/xbackup/BackupDatabaseService.kt:357-371 | the rows linked to the fresh backup id are exactly the collected ones, so each reads back faithfully and keeps the node at its path |
| CommonService.RestoredFiles | common/src/main/kotlin/com/github/zly2006/xbackup/BackupDatabaseService.kt:455-499 | when a backup's rows hold, every file restored from them has its backed-up content, or its backed-up time and size, or agrees with its row and was left alone |
| CommonService.LinksOf | common/src/main/kotlin/com/github/zly2006/xbackup/BackupDatabaseService.kt:366-371 | the link rows tie the backup to exactly its collected entries |
| CommonService.PackRows | common/src/main/kotlin/com/github/zly2006/xbackup/BackupDatabaseService.kt:592-600 | the packed ids are rewritten as packed rows, and the other rows are unchanged |
| CommonService.PackRowsKeepIds | common/src/main/kotlin/com/github/zly2006/xbackup/BackupDatabaseService.kt:592-600 | the update keeps every row's id, so the ids stay increasing |
| CommonService.PackItemsFirstFailure | common/src/main/kotlin/com/github/zly2006/xbackup/BackupDatabaseService.kt:544-578 | packing stops at the first entry it cannot pack, with that entry's error |
| CommonService.CountDistinct | common/src/main/kotlin/com/github/zly2006/xbackup/BackupDatabaseService.kt:683-685 | the count of rows is the count of distinct backups |
| CommonService.LastIdNew | common/src/main/kotlin/com/github/zly2006/xbackup/BackupDatabaseService.kt:679-681 | the latest row's id occurs nowhere before it |
| CommonService.KeepBlobsAsWritten | common/src/main/kotlin/com/github/zly2006/xbackup/BackupDatabaseService.kt:400-411 | the loop deletes the blob of every unshared entry |
| CommonService.KeepUnreferencedBlobs | common/src/main/kotlin/com/github/zly2006/xbackup/BackupDatabaseService.kt:400-411 | the corrected loop deletes only blobs that no remaining row refers to |
| CommonService.Service.constructor | common/src/main/kotlin/com/github/zly2006/xbackup/BackupDatabaseService.kt:54-89 | a fresh service has empty tables, no blobs, and the built-in plus configured ignored names |
| CommonService.Service.GetBackup | common/src/main/kotlin/com/github/zly2006/xbackup/BackupDatabaseService.kt:420-422 | found iff the id is stored; the backup then has the row and exactly its linked entries |
| CommonService.Service.ListBackups | common/src/main/kotlin/com/github/zly2006/xbackup/BackupDatabaseService.kt:670-677 | the listed backups are the rows of the page, each with its linked entries |
| CommonService.Service.LatestBackup | common/src/main/kotlin/com/github/zly2006/xbackup/BackupDatabaseService.kt:679-681 | none only when no backup exists; otherwise the stored backup with the largest id |
| CommonService.Service.BackupCount | common/src/main/kotlin/com/github/zly2006/xbackup/BackupDatabaseService.kt:683-685 | of a valid catalog: the number of distinct backup ids stored |
| CommonService.Service.Check | common/src/main/kotlin/com/github/zly2006/xbackup/BackupDatabaseService.kt:527-542 | true exactly when every entry of the backup is valid |
| CommonService.Service.BackupFile | common/src/main/kotlin/com/github/zly2006/xbackup/BackupDatabaseService.kt:244-347 | the tables and blobs change exactly as `BackupStep` says, and the entry is of the path and kind |
| CommonService.Service.PutBlob | common/src/main/kotlin/com/github/zly2006/xbackup/BackupDatabaseService.kt:295-326 | the blob file is written, and the tables stay as they are |
| CommonService.Service.InsertEntry | common/src/main/kotlin/com/github/zly2006/xbackup/BackupDatabaseService.kt:334-347 | the row is appended under the next id, and nothing else changes |
| CommonService.Service.BackupWalked | common/src/main/kotlin/com/github/zly2006/xbackup/BackupDatabaseService.kt:238-350 | in any processing order, each walked path gets an entry of its path and kind, and rows are only appended |
| CommonService.Service.BackupOne | common/src/main/kotlin/com/github/zly2006/xbackup/BackupDatabaseService.kt:244-347 | the entry is of the path and kind, and only a fresh row may be appended |
| CommonService.Service.WalkStep | common/src/main/kotlin/com/github/zly2006/xbackup/BackupDatabaseService.kt:244-347 | one more path gets an entry, and the walk's invariants hold |
| CommonService.Service.CreateBackup | common/src/main/kotlin/com/github/zly2006/xbackup/BackupDatabaseService.kt:227-392 | fails up front when `blobDir` lies in the root; on success there is a new row with summed sizes, `addedSize` sums the new rows, and every walked path is linked to a valid entry of its kind; a failed recheck adds no backup row |
| CommonService.Service.InsertBackup | common/src/main/kotlin/com/github/zly2006/xbackup/BackupDatabaseService.kt:357-371 | the row takes the next id with the entries' sums, and is linked to exactly them |
| CommonService.Service.DeleteBackupAsWritten | common/src/main/kotlin/com/github/zly2006/xbackup/BackupDatabaseService.kt:398-414 | unshared entry rows, their links and the backup row go, and the blob of every unshared entry is deleted |
| CommonService.Service.DeleteBackup | common/src/main/kotlin/com/github/zly2006/xbackup/BackupDatabaseService.kt:398-414 | the same rows go, but only blobs that no remaining row refers to |
| CommonService.Service.DeleteRows | common/src/main/kotlin/com/github/zly2006/xbackup/BackupDatabaseService.kt:400-411 | exactly the unshared entry rows and their links go |
| CommonService.Service.DropIfUnshared | common/src/main/kotlin/com/github/zly2006/xbackup/BackupDatabaseService.kt:401-410 | the row goes iff no other backup links it |
| CommonService.Service.DropEntryRow | common/src/main/kotlin/com/github/zly2006/xbackup/BackupDatabaseService.kt:407-409 | the entry row goes, with its links by cascade; blobs and backups are unchanged |
| CommonService.Service.DeleteBlobsAsWritten | common/src/main/kotlin/com/github/zly2006/xbackup/BackupDatabaseService.kt:406 | every unshared entry's blob is removed |
| CommonService.Service.DeleteUnreferencedBlobs | common/src/main/kotlin/com/github/zly2006/xbackup/BackupDatabaseService.kt:406 | only unreferenced blobs are removed |
| CommonService.Service.DropBackupRow | common/src/main/kotlin/com/github/zly2006/xbackup/BackupDatabaseService.kt:412 | the backup row and its links go |
| CommonService.Service.PackMembers | common/src/main/kotlin/com/github/zly2006/xbackup/BackupDatabaseService.kt:544-578 | the loop yields the members `PackItems` defines, or its first error |
| CommonService.Service.PackBackup | common/src/main/kotlin/com/github/zly2006/xbackup/BackupDatabaseService.kt:580-602 | fewer than 10 candidates change nothing; a failed pack changes nothing; otherwise the archive is stored under its MD5 if absent and the candidates' rows point at it |
| CommonService.Service.PointRowsAt | common/src/main/kotlin/com/github/zly2006/xbackup/BackupDatabaseService.kt:592-600 | exactly the given rows now name the archive |
| CommonService.Service.ImportZipArchive | common/src/main/kotlin/com/github/zly2006/xbackup/BackupDatabaseService.kt:626-662 | the blobs become those `ImportBlobs` gives; a malformed comment is reported; the tables are unchanged |
| CommonService.Service.SecondPass | common/src/main/kotlin/com/github/zly2006/xbackup/BackupDatabaseService.kt:455-507 | in any order, each path whose task did not fail holds the content and time its entry promises or already agreed with it; other paths are left as they are, and matching ones are untouched |
| CommonService.Service.Restore | common/src/main/kotlin/com/github/zly2006/xbackup/BackupDatabaseService.kt:434-518 | an unknown id fails and changes nothing; otherwise the target is pruned and then restored, a failure names a restored path, and on success every restored path holds what its entry promises or already agreed with it |
| CommonService.Service.RestoreHeld | common/src/main/kotlin/com/github/zly2006/xbackup/BackupDatabaseService.kt:434-518 | when a backup's rows read back faithfully and keep the nodes of a tree, a successful restore gives back every file of the tree at a linked, non-ignored path (content, or time and size) |
| CommonService.Service.BackupThenRestore | common/src/main/kotlin/com/github/zly2006/xbackup/BackupDatabaseService.kt:455-499 | backup then restore: when both succeed, every walked, non-ignored file is back with its content, or its time and size, or agrees with its row; needs gzip to round-trip and no MD5 collision among the walked files |
| CoreService.CoreWalked | core/src/main/kotlin/com/github/zly2006/xbackup/BackupDatabaseService.kt:109-111 | the walk keeps the root and paths not ignored by name, not under `blobDir`, and accepted by the caller |
| CoreService.CoreInsert | core/src/main/kotlin/com/github/zly2006/xbackup/BackupDatabaseService.kt:153-196 | a file is gzipped iff longer than 1024 bytes; `zippedSize` is the blob's length; a directory gets no blob and `zippedSize` 0 |
| CoreService.CoreStepAsWritten | core/src/main/kotlin/com/github/zly2006/xbackup/BackupDatabaseService.kt:118-196 | as written: reuse the path's unchanged row, else any row with the same hash, else insert |
| CoreService.CoreStep | core/src/main/kotlin/com/github/zly2006/xbackup/BackupDatabaseService.kt:118-196 | as intended: the entry collected for a path is always a row of that path and kind |
| CoreService.CoreStepAgrees | core/src/main/kotlin/com/github/zly2006/xbackup/BackupDatabaseService.kt:144-151 | the two steps agree unless the as-written one reuses a row of another path |
| CoreService.CoreReuseDiscrepancy | core/src/main/kotlin/com/github/zly2006/xbackup/BackupDatabaseService.kt:144-151 | as written, a file that another path already holds is collected as that path's row |
| CoreService.CoreRestoreDecision | core/src/main/kotlin/com/github/zly2006/xbackup/BackupDatabaseService.kt:333-344 | every walked path, the root included, that is not skipped and that the backup lacks or has with the other kind is deleted recursively |
| CoreService.CoreFirstPass | core/src/main/kotlin/com/github/zly2006/xbackup/BackupDatabaseService.kt:333-344 | the first pass leaves the tree pruned by the decisions on every path |
| CoreService.CorePrunedSurvivors | core/src/main/kotlin/com/github/zly2006/xbackup/BackupDatabaseService.kt:333-344 | a path survives when it and its ancestors are kept |
| CoreService.CorePrunedRemovesSubtree | core/src/main/kotlin/com/github/zly2006/xbackup/BackupDatabaseService.kt:333-344 | a deleted path takes its whole subtree; a root the backup lacks takes the whole target |
| CoreService.CoreRestoreTask | core/src/main/kotlin/com/github/zly2006/xbackup/BackupDatabaseService.kt:345-401 | a directory is created only when missing; a file without a blob becomes an empty file only when missing; a file with a blob fails over a directory and fails when its gzip stream cannot be decoded; otherwise it gets the decoded blob when its MD5 is the hash, else the gunzipped blob, with the entry's time, and fails unless the size is the entry's |
| CoreService.CoreBackupRestoreRoundTrip | core/src/main/kotlin/com/github/zly2006/xbackup/BackupDatabaseService.kt:345-401 | a file the corrected step stores is restored over a missing path or a file with its content and time (whole backups: `CoreService.Service.BackupThenRestore`) |
| CoreService.CoreApplyRestore | core/src/main/kotlin/com/github/zly2006/xbackup/BackupDatabaseService.kt:345-401 | one task changes only its path and its missing parents; on success a file with a blob holds the decoded content with its size and time, and a directory or blob-less entry already present is left as it was |
| CoreService.CoreStepKeepsFaithful | core/src/main/kotlin/com/github/zly2006/xbackup/BackupDatabaseService.kt:118-196 | one corrected backup step keeps every file row reading back bytes of its hash and size, collects a row that keeps the node's content (or its time and size, when reused), and changes what no existing row reads back |
| CoreService.CoreCollectedHold | core/src/main/kotlin/com/github/zly2006/xbackup/BackupDatabaseService.kt:214-226 | the rows linked to the fresh backup id are exactly the collected ones, so each reads back faithfully and keeps the node at its path |
| CoreService.CoreRestoredFiles | core/src/main/kotlin/com/github/zly2006/xbackup/BackupDatabaseService.kt:345-401 | when a backup's rows hold, every file restored from them has its backed-up content, or its backed-up time and size |
| CoreService.DeletionsAgreeWhenHashesUnique | core/src/main/kotlin/com/github/zly2006/xbackup/BackupDatabaseService.kt:258-269 | while no two rows share a hash, deleting every unshared entry's blob deletes exactly the blobs no remaining row refers to |
| CoreService.CoreDeleteAsWrittenBreaks | core/src/main/kotlin/com/github/zly2006/xbackup/BackupDatabaseService.kt:264 | under the corrected step two rows of different paths share a hash, and the unconditional delete removes a blob the other row needs |
| CoreService.Service.constructor | core/src/main/kotlin/com/github/zly2006/xbackup/BackupDatabaseService.kt:36-57 | a fresh service has empty tables and no blobs |
| CoreService.Service.GetBackup | core/src/main/kotlin/com/github/zly2006/xbackup/BackupDatabaseService.kt:316-318 | found iff the id is stored, with exactly its linked entries |
| CoreService.Service.ListBackups | core/src/main/kotlin/com/github/zly2006/xbackup/BackupDatabaseService.kt:411-418 | a page of backups, newest first, each with its linked entries |
| CoreService.Service.BackupFile | core/src/main/kotlin/com/github/zly2006/xbackup/BackupDatabaseService.kt:113-204 | the tables and blobs change as `CoreStep` says |
| CoreService.Service.PutBlob | core/src/main/kotlin/com/github/zly2006/xbackup/BackupDatabaseService.kt:153-184 | the blob is written and the tables are unchanged |
| CoreService.Service.InsertEntry | core/src/main/kotlin/com/github/zly2006/xbackup/BackupDatabaseService.kt:186-196 | the row is appended under the next id |
| CoreService.Service.BackupWalked | core/src/main/kotlin/com/github/zly2006/xbackup/BackupDatabaseService.kt:109-205 | in any order, each walked path gets an entry of its path and kind |
| CoreService.Service.BackupOne | core/src/main/kotlin/com/github/zly2006/xbackup/BackupDatabaseService.kt:113-204 | the entry is of the path and kind, and rows are only appended |
| CoreService.Service.WalkStep | core/src/main/kotlin/com/github/zly2006/xbackup/BackupDatabaseService.kt:113-204 | one more path gets an entry, and the walk's invariants hold |
| CoreService.Service.CreateBackup | core/src/main/kotlin/com/github/zly2006/xbackup/BackupDatabaseService.kt:105-239 | a new row with summed sizes and `addedSize` over new rows; every walked path, the root included, is linked to an entry of its kind |
| CoreService.Service.InsertBackup | core/src/main/kotlin/com/github/zly2006/xbackup/BackupDatabaseService.kt:213-227 | the row takes the next id with the sums, and is linked to exactly the entries |
| CoreService.Service.DeleteBackup | core/src/main/kotlin/com/github/zly2006/xbackup/BackupDatabaseService.kt:255-272 | an unknown id is an error and changes nothing; otherwise the unshared rows and the backup row go, and (corrected) only blobs no remaining row refers to |
| CoreService.Service.DeleteFound | core/src/main/kotlin/com/github/zly2006/xbackup/BackupDatabaseService.kt:258-270 | the unshared rows, their links and the backup row go, and (corrected) only unreferenced blobs |
| CoreService.Service.DeleteFoundAsWritten | core/src/main/kotlin/com/github/zly2006/xbackup/BackupDatabaseService.kt:258-270 | as written: the unshared rows, their links and the backup row go, and the blob of every unshared entry is deleted |
| CoreService.Service.DeleteBlobsAsWritten | core/src/main/kotlin/com/github/zly2006/xbackup/BackupDatabaseService.kt:264 | every given entry's blob is removed, and nothing else changes |
| CoreService.Service.DeleteRows | core/src/main/kotlin/com/github/zly2006/xbackup/BackupDatabaseService.kt:258-269 | exactly the unshared entry rows and their links go |
| CoreService.Service.DropIfUnshared | core/src/main/kotlin/com/github/zly2006/xbackup/BackupDatabaseService.kt:259-268 | the row goes iff no other backup links it |
| CoreService.Service.DropEntryRow | core/src/main/kotlin/com/github/zly2006/xbackup/BackupDatabaseService.kt:259-268 | the entry row goes, with its links by cascade; blobs and backups are unchanged |
| CoreService.Service.DeleteUnreferencedBlobs | core/src/main/kotlin/com/github/zly2006/xbackup/BackupDatabaseService.kt:264 | only blobs that no remaining row refers to are removed |
| CoreService.Service.DropBackupRow | core/src/main/kotlin/com/github/zly2006/xbackup/BackupDatabaseService.kt:270 | the backup row and its links go |
| CoreService.Service.SecondPass | core/src/main/kotlin/com/github/zly2006/xbackup/BackupDatabaseService.kt:345-401 | in any order, each path whose task did not fail exists, and a file with a blob holds its decoded content with its size and time; present directories and blob-less entries, and paths outside the backup, are left as they are |
| CoreService.Service.Restore | core/src/main/kotlin/com/github/zly2006/xbackup/BackupDatabaseService.kt:328-406 | an unknown id fails and changes nothing; otherwise the target is pruned, the root included, then restored; a failure names a restored path, only restored paths and their parents are added, and on success each file with a blob holds its decoded content |
| CoreService.Service.RestoreHeld | core/src/main/kotlin/com/github/zly2006/xbackup/BackupDatabaseService.kt:328-406 | when a backup's rows read back faithfully and keep the nodes of a tree, a successful restore gives back every file of the tree at a linked, non-ignored path (content, or time and size) |
| CoreService.Service.BackupThenRestore | core/src/main/kotlin/com/github/zly2006/xbackup/BackupDatabaseService.kt:345-401 | backup then restore: when the restore succeeds, every walked, non-ignored file is back with its content, or its time and size; needs gzip to round-trip and no MD5 collision among the walked files |
| RegionStorage.Storage.constructor | xb-1.21.2/src/main/java/com/github/zly2006/xbackup/mc121_2/mixin/MixinRegionBasedStorage.java:21-26 | a storage starts with no cached file and not restoring |
| RegionStorage.Storage.Write | xb-1.21.2/src/main/java/com/github/zly2006/xbackup/mc121_2/mixin/MixinRegionBasedStorage.java:43-52 | the region file is cached; the data is committed unless restoring |
| RegionStorage.Storage.CloseAll | xb-1.21.2/src/main/java/com/github/zly2006/xbackup/mc121_2/mixin/MixinRegionBasedStorage.java:30-38 | every cached file is closed once, whatever the close throws |
| RegionStorage.Storage.PreRestore | xb-1.21.2/src/main/java/com/github/zly2006/xbackup/mc121_2/mixin/MixinRegionBasedStorage.java:29-41 | closes every cached file, empties the cache, then sets the flag (1.21.2 only; 1.20.1 has none); committed data is unchanged |
| RegionStorage.Storage.PostRestore | xb-1.21.2/src/main/java/com/github/zly2006/xbackup/mc121_2/mixin/MixinRegionBasedStorage.java:55-65 | closes the files cached since, empties the cache and clears the flag |
| RegionStorage.WritesDuringRestoreAreLost | xb-1.21.2/src/main/java/com/github/zly2006/xbackup/mc121_2/mixin/MixinRegionBasedStorage.java:43-52 | a write while restoring leaves the committed chunks as they were |
| IoWorker.Worker.constructor | xb-1.21.2/src/main/java/com/github/zly2006/xbackup/mc121_2/mixin/MixinStorageIoWorker.java:22-34 | a worker starts not restoring, with nothing queued or pending |
| IoWorker.Worker.ReadChunkData | xb-1.21.2/src/main/java/com/github/zly2006/xbackup/mc121_2/mixin/MixinStorageIoWorker.java:36-45 | while restoring, a never-completing future and nothing queued; otherwise the read is queued |
| IoWorker.Worker.Run | xb-1.21.2/src/main/java/com/github/zly2006/xbackup/mc121_2/mixin/MixinStorageIoWorker.java:68-77 | while restoring, a never-completing future and nothing queued; otherwise the job is queued |
| IoWorker.Worker.WriteResult | xb-1.21.2/src/main/java/com/github/zly2006/xbackup/mc121_2/mixin/MixinStorageIoWorker.java:83-111 | nothing while saving is disabled (1.21.2, and 1.20.1 through its `disable` mixin, xb-1.20.1/src/main/java/com/github/zly2006/xbackup/mc120/mixin/disable/MixinStorageIoWorker.java:17-21); else the oldest pending write is taken off and written, and another is scheduled; a failure is swallowed only while restoring and only for a closed channel, a concurrent modification or a missing element |
| IoWorker.Worker.DrainByDiscard | xb-1.21.2/src/main/java/com/github/zly2006/xbackup/mc121_2/mixin/MixinStorageIoWorker.java:51-53 | the queue is emptied without running anything |
| IoWorker.Worker.DrainByRun | xb-1.20.1/src/main/java/com/github/zly2006/xbackup/mc120/mixin/MixinStorageIoWorker.java:54-56 | tasks run until the queue is empty; if a write task was queued (and saving is not disabled where that guards) every pending write is consumed, otherwise none; the storage's chunks become the old chunks with the consumed writes committed in order, unless the storage is restoring |
| IoWorker.CommittedLastWins | xb-1.20.1/src/main/java/com/github/zly2006/xbackup/mc120/mixin/MixinStorageIoWorker.java:54-57 | committing writes in order keeps every old chunk no write touches, adds exactly the written positions, and leaves each position with its last write |
| IoWorker.Worker.RunHead | xb-1.20.1/src/main/java/com/github/zly2006/xbackup/mc120/mixin/MixinStorageIoWorker.java:86-107 | the head task runs; a write task takes off the oldest result and, when the write succeeds, commits it to the storage (unless restoring) and schedules one more; a failed write leaves the chunks alone and throws unless restoring swallows it |
| IoWorker.Worker.PreRestore | xb-1.21.2/src/main/java/com/github/zly2006/xbackup/mc121_2/mixin/MixinStorageIoWorker.java:48-56 | with no storage nothing; else the flag is set, the queue drained (1.21 keeps it), pending writes dropped, and the storage entered; the storage's chunks are unchanged except on 1.20.1, where a queued write task first commits every pending write unless the storage was already restoring |
| IoWorker.Worker.PostRestore | xb-1.21.2/src/main/java/com/github/zly2006/xbackup/mc121_2/mixin/MixinStorageIoWorker.java:59-66 | with no storage nothing; else the queue is drained, the storage resumed, and the flag cleared last (1.21 only forwards); on 1.20.1 a queued write task commits every pending write unless the storage was restoring, and only then are the pending writes empty |
| IoWorker.Ran | xb-1.20.1/src/main/java/com/github/zly2006/xbackup/mc120/mixin/MixinStorageIoWorker.java:51-69 | one trace event per task run, in order |
| Nodes.NonLight | xb-1.20.1/src/main/java/com/github/zly2006/xbackup/mc120/mixin/MixinChunkTicketManager.java:38-45 | the purge of one position keeps its non-LIGHT tickets in order |
| Nodes.HasLightIffChanged | xb-1.20.1/src/main/java/com/github/zly2006/xbackup/mc120/mixin/MixinChunkTicketManager.java:36-45 | a position has a LIGHT ticket exactly when the purge changes it |
| Nodes.LightRemovals | xb-1.20.1/src/main/java/com/github/zly2006/xbackup/mc120/mixin/MixinChunkTicketManager.java:43 | one simulation-tracker removal per LIGHT ticket of the position |
| Nodes.NonLightMembers | xb-1.20.1/src/main/java/com/github/zly2006/xbackup/mc120/mixin/MixinChunkTicketManager.java:38-45 | the purge keeps exactly the non-LIGHT tickets |
| Nodes.LightRemovalsMembers | xb-1.20.1/src/main/java/com/github/zly2006/xbackup/mc120/mixin/MixinChunkTicketManager.java:38-45 | the tracker loses exactly the position's LIGHT tickets |
| Nodes.Purged | xb-1.20.1/src/main/java/com/github/zly2006/xbackup/mc120/mixin/MixinChunkTicketManager.java:29-56 | no LIGHT ticket remains, emptied positions are gone, and other tickets stay |
| Nodes.PurgedAlongPartly | xb-1.20.1/src/main/java/com/github/zly2006/xbackup/mc120/mixin/MixinChunkTicketManager.java:29-56 | positions purged one at a time are purged; the others are as they were |
| Nodes.PurgedAlongAll | xb-1.20.1/src/main/java/com/github/zly2006/xbackup/mc120/mixin/MixinChunkTicketManager.java:29-56 | purging every position, in any order, is the purge |
| Nodes.NonLightIdempotent | xb-1.20.1/src/main/java/com/github/zly2006/xbackup/mc120/mixin/MixinChunkTicketManager.java:38-45 | purging a position twice is purging it once |
| Nodes.PurgedIdempotent | xb-1.20.1/src/main/java/com/github/zly2006/xbackup/mc120/mixin/MixinChunkTicketManager.java:29-56 | the purge leaves no LIGHT ticket and is idempotent |
| Nodes.UpdatesExactlyLight | xb-1.20.1/src/main/java/com/github/zly2006/xbackup/mc120/mixin/MixinChunkTicketManager.java:36-49 | exactly the positions that lost a ticket get one level update each |
| Nodes.RemovalsExactlyLight | xb-1.20.1/src/main/java/com/github/zly2006/xbackup/mc120/mixin/MixinChunkTicketManager.java:38-45 | the tracker removals are exactly the LIGHT tickets |
| Nodes.PurgePosition | xb-1.20.1/src/main/java/com/github/zly2006/xbackup/mc120/mixin/MixinChunkTicketManager.java:36-49 | the inner loop keeps the non-LIGHT tickets and reports whether any was removed |
| Nodes.SomeOrder | xb-1.20.1/src/main/java/com/github/zly2006/xbackup/mc120/mixin/MixinChunkTicketManager.java:31-33 | the hash map's iteration visits each key once |
| Nodes.Purge | xb-1.20.1/src/main/java/com/github/zly2006/xbackup/mc120/mixin/MixinChunkTicketManager.java:29-56 | in any order, the result is the purge, and the updates and removals are those of the LIGHT tickets |
| Nodes.TicketManager.PreRestore | xb-1.20.1/src/main/java/com/github/zly2006/xbackup/mc120/mixin/MixinChunkTicketManager.java:29-56 | 1.20.1: the tickets become the purge, with a level update to `INACCESSIBLE + 1` per changed position; 1.21: nothing |
| Nodes.TicketManager.PostRestore | xb-1.20.1/src/main/java/com/github/zly2006/xbackup/mc120/mixin/MixinChunkTicketManager.java:59-61 | nothing changes but the trace |
| Nodes.LevelQueue.PreRestore | xb-1.21.2/src/main/java/com/github/zly2006/xbackup/mc121_2/mixin/MixinLevelPrioritizedQueue.java:23-28 | the light queue (1.21.2) or every queue (1.21) is emptied level by level with the level count kept and the top level reset; 1.20 empties the blocking set; the result is idempotent |
| Nodes.LevelQueue.PostRestore | xb-1.21.2/src/main/java/com/github/zly2006/xbackup/mc121_2/mixin/MixinLevelPrioritizedQueue.java:31-32 | nothing changes but the trace |
| Nodes.Cleared | xb-1.21/src/main/java/com/github/zly2006/xbackup/mc121/mixin/MixinLevelPrioritizedQueue.java:23 | every level is emptied and the list keeps its length |
| Nodes.PreEach | xb-1.21/src/main/java/com/github/zly2006/xbackup/mc121/mixin/MixinChunkTaskPrioritySystem.java:26-28 | one `preRestore` per queue, in order |
| Nodes.TaskPrioritySystem.PreRestore | xb-1.21/src/main/java/com/github/zly2006/xbackup/mc121/mixin/MixinChunkTaskPrioritySystem.java:24-31 | one control task is sent and no queue changes yet |
| Nodes.TaskPrioritySystem.PostRestore | xb-1.21/src/main/java/com/github/zly2006/xbackup/mc121/mixin/MixinChunkTaskPrioritySystem.java:33-39 | the same quiescing task is sent again, not a resume |
| Nodes.TaskPrioritySystem.RunControl | xb-1.21/src/main/java/com/github/zly2006/xbackup/mc121/mixin/MixinChunkTaskPrioritySystem.java:25-28 | running the control job calls `preRestore` on every queue in order |
| Nodes.DataAccess.PreRestore | xb-1.21.2/src/main/java/com/github/zly2006/xbackup/mc121_2/mixin/MixinEntityChunkDataAccess.java:18-21 | the empty-chunk set is cleared, then the worker is entered once |
| Nodes.DataAccess.PostRestore | xb-1.21.2/src/main/java/com/github/zly2006/xbackup/mc121_2/mixin/MixinEntityChunkDataAccess.java:24-27 | the empty-chunk set is cleared, then the worker is resumed once |
| Nodes.LoadedChunks | xb-1.21/src/main/java/com/github/zly2006/xbackup/mc121/mixin/MixinServerEntityManager.java:48 | the loaded chunks are exactly those with status LOADED |
| Nodes.Unloads | xb-1.21/src/main/java/com/github/zly2006/xbackup/mc121/mixin/MixinServerEntityManager.java:48 | one unload per chunk, in order |
| Nodes.EntityManager.UnloadLoaded | xb-1.21/src/main/java/com/github/zly2006/xbackup/mc121/mixin/MixinServerEntityManager.java:48 | each loaded chunk is unloaded once |
| Nodes.EntityManager.PreRestore | xb-1.21/src/main/java/com/github/zly2006/xbackup/mc121/mixin/MixinServerEntityManager.java:46-54 | every loaded chunk is unloaded, the status maps and queues are emptied, and the data access is entered last |
| Nodes.EntityManager.Renew | xb-1.21/src/main/java/com/github/zly2006/xbackup/mc121/mixin/MixinServerEntityManager.java:63-65 | a fresh cache and index, and a lookup over exactly them |
| Nodes.EntityManager.PostRestore | xb-1.21/src/main/java/com/github/zly2006/xbackup/mc121/mixin/MixinServerEntityManager.java:56-67 | the five collections are emptied, the cache, index and lookup are renewed, and the data access is resumed after that |
| Loading.Disposals | xb-1.21.2/src/main/java/com/github/zly2006/xbackup/mc121_2/mixin/MixinChunkLoadingManager.java:32-35 | each loader is marked for disposal and then run, in list order |
| Loading.LoadingManager1212.PreRestore | xb-1.21.2/src/main/java/com/github/zly2006/xbackup/mc121_2/mixin/MixinChunkLoadingManager.java:26-36 | the ticket manager, then the worker, then every loader; no task-priority system |
| Loading.LoadingManager1212.DisposeLoaders | xb-1.21.2/src/main/java/com/github/zly2006/xbackup/mc121_2/mixin/MixinChunkLoadingManager.java:32-35 | the loop records the disposal of every loader in order |
| Loading.LoadingManager1212.PostRestore | xb-1.21.2/src/main/java/com/github/zly2006/xbackup/mc121_2/mixin/MixinChunkLoadingManager.java:38-43 | the ticket manager, then the worker; loaders untouched |
| Loading.LoadingManager121.PreRestore | xb-1.21/src/main/java/com/github/zly2006/xbackup/mc121/mixin/MixinChunkLoadingManager.java:25-30 | the ticket manager, the task-priority system, then the worker, once each |
| Loading.LoadingManager121.PostRestore | xb-1.21/src/main/java/com/github/zly2006/xbackup/mc121/mixin/MixinChunkLoadingManager.java:32-37 | the same order, not reversed |
| Loading.LoadingManager120.PreRestore | xb-1.20/src/main/java/com/github/zly2006/xbackup/mc120/mixin/MixinChunkLoadingManager.java:28-31 | forwards to the worker only |
| Loading.LoadingManager120.PostRestore | xb-1.20/src/main/java/com/github/zly2006/xbackup/mc120/mixin/MixinChunkLoadingManager.java:33-36 | forwards to the worker only |
| Loading.World1212.PreRestore | xb-1.21.2/src/main/java/com/github/zly2006/xbackup/mc121_2/mixin/MixinWorld.java:20-27 | saving re-enabled, persistent tickets dropped, one tick, then the entity manager before the loading manager |
| Loading.World1212.ChildrenPreRestore | xb-1.21.2/src/main/java/com/github/zly2006/xbackup/mc121_2/mixin/MixinWorld.java:25-26 | the entity manager, then the loading manager |
| Loading.World1212.PostRestore | xb-1.21.2/src/main/java/com/github/zly2006/xbackup/mc121_2/mixin/MixinWorld.java:29-33 | the entity manager, then the loading manager; the saving flag is left alone |
| Loading.World120.PreRestore | xb-1.20/src/main/java/com/github/zly2006/xbackup/mc120/mixin/MixinWorld.java:18-22 | the entity manager, then the chunk storage, once each |
| Loading.World120.PostRestore | xb-1.20/src/main/java/com/github/zly2006/xbackup/mc120/mixin/MixinWorld.java:24-28 | the same order |
| Coordinator.Reason | xb-1.21.2/src/main/java/com/github/zly2006/xbackup/mc121_2/Impl.kt:135-175 | the reason is "" exactly when no condition holds |
| Coordinator.Appended | xb-1.21.2/src/main/java/com/github/zly2006/xbackup/mc121_2/Impl.kt:146-174 | the built message is empty exactly when no word was appended |
| Coordinator.AppendedIsJoin | xb-1.21.2/src/main/java/com/github/zly2006/xbackup/mc121_2/Impl.kt:146-174 | the message is the words joined by spaces, with a trailing space |
| Coordinator.TextHasNoSpace | xb-1.21.2/src/main/java/com/github/zly2006/xbackup/mc121_2/Impl.kt:146-174 | no condition's text contains a space, so the words of the message can be told apart |
| Coordinator.ReasonLists | xb-1.21.2/src/main/java/com/github/zly2006/xbackup/mc121_2/Impl.kt:146-174 | splitting the message on spaces gives the texts of exactly the holding conditions, in order |
| Coordinator.UnloadReasonsTogether | xb-1.21/src/main/java/com/github/zly2006/xbackup/mc121/Impl.kt:113-149 | "chunksToUnload" and "unloadedChunks" appear together, exactly when `unloadedChunks` is non-empty |
| Coordinator.AnyDelayedIffSomeReason | xb-1.21.2/src/main/java/com/github/zly2006/xbackup/mc121_2/Impl.kt:115 | the loop test holds exactly when some world's reason is not empty |
| Coordinator.DisconnectsReachEveryone | xb-1.21.2/src/main/java/com/github/zly2006/xbackup/mc121_2/Impl.kt:101-107 | every player gets the reason |
| Coordinator.DisconnectsCount | xb-1.21.2/src/main/java/com/github/zly2006/xbackup/mc121_2/Impl.kt:101-107 | one message per player, plus one per zero-latency player on 1.21.2 |
| Coordinator.PostEach | xb-1.21/src/main/java/com/github/zly2006/xbackup/mc121/Impl.kt:107-109 | one `postRestore` per world, in order |
| Coordinator.WorldStepsVisitAll | xb-1.21/src/main/java/com/github/zly2006/xbackup/mc121/Impl.kt:86-98 | each pass enters every world, in order |
| Coordinator.Server.constructor | xb-1.21.2/src/main/java/com/github/zly2006/xbackup/mc121_2/Impl.kt:86-88 | a server starts running with every flag clear |
| Coordinator.Server.SetAutoSaving | xb-1.21.2/src/main/java/com/github/zly2006/xbackup/mc121_2/Impl.kt:86-88 | every world's `savingDisabled` becomes `!v`, and nothing else changes |
| Coordinator.Server.DisconnectAll | xb-1.21.2/src/main/java/com/github/zly2006/xbackup/mc121_2/Impl.kt:101-107 | the trace gets the disconnects of every player of the list |
| Coordinator.Server.PrepareRestore | xb-1.21.2/src/main/java/com/github/zly2006/xbackup/mc121_2/Impl.kt:91-126 | reason, join block and watchdog set first; single-player or off-thread stops the server; else everyone is disconnected and passes run until no world is delayed |
| Coordinator.Server.Quiesce | xb-1.21.2/src/main/java/com/github/zly2006/xbackup/mc121_2/Impl.kt:115-124 | passes run while some world is delayed; on exit none is, or the observations ran out |
| Coordinator.Server.QuiescePass | xb-1.21/src/main/java/com/github/zly2006/xbackup/mc121/Impl.kt:86-98 | one pass enters every world; on 1.21 and 1.20 every world saves again |
| Coordinator.Server.FinishRestore | xb-1.21/src/main/java/com/github/zly2006/xbackup/mc121/Impl.kt:102-110 | 1.21.2 re-enters the server loop with no `postRestore`; 1.21 and 1.20 clear the three flags and resume every world in order |
| Coordinator.Server.FinishRestoreCore | core/src/main/kotlin/com/github/zly2006/xbackup/Utils.kt:29-35 | the four flags are cleared before the version's `finishRestore` runs |
| Coordinator.Server.FinishRestoreSingle | src/main/kotlin/com/github/zly2006/xbackup/Utils.kt:37-46 | the four flags are cleared, then the server runs again |
| Coordinator.NormalizeFromAppend | src/main/kotlin/com/github/zly2006/xbackup/Utils.kt:52-58 | normalising in two pieces is normalising at once |
| Coordinator.NormalizeFromPlain | src/main/kotlin/com/github/zly2006/xbackup/Utils.kt:52-58 | plain names pass through normalisation unchanged |
| Coordinator.FileUnderSaveDirIsInWorld | src/main/kotlin/com/github/zly2006/xbackup/Utils.kt:52-58 | a file reached from the save directory by plain names is in the world |
| Coordinator.ClimbingOutIsNotInWorld | src/main/kotlin/com/github/zly2006/xbackup/Utils.kt:52-58 | a path that climbs out with ".." is not in the world, though it starts with the save directory |
| Coordinator.SingleService | core/src/main/kotlin/com/github/zly2006/xbackup/Utils.kt:13-15 | succeeds exactly when there is one implementation, and returns it |
| XBackup.TruncDiv | src/main/kotlin/com/github/zly2006/xbackup/XBackup.kt:149 | Kotlin division truncates toward zero |
| XBackup.DueAfterInterval | src/main/kotlin/com/github/zly2006/xbackup/XBackup.kt:149 | with the clock ahead, a backup is due exactly from `interval + 1` seconds on |
| XBackup.DueWithinASecondAhead | src/main/kotlin/com/github/zly2006/xbackup/XBackup.kt:149 | a latest backup less than a second in the future counts as zero seconds old |
| XBackup.MirrorCheck | src/main/kotlin/com/github/zly2006/xbackup/XBackup.kt:89-103 | passes exactly when not mirroring, or `mirrorFrom` is a directory with "server.properties" and "world"; an unset `mirrorFrom` is reported as such |
| XBackup.Mod.constructor | src/main/kotlin/com/github/zly2006/xbackup/XBackup.kt:189-202 | the lock starts free and no hook is set |
| XBackup.Mod.EnsureNotBusy | src/main/kotlin/com/github/zly2006/xbackup/XBackup.kt:189-202 | off the server thread it fails; when busy it fails; otherwise it takes the lock |
| XBackup.Mod.Release | src/main/kotlin/com/github/zly2006/xbackup/XBackup.kt:196-200 | the lock is free after the block, whatever its outcome |
| XBackup.Mod.ServerStarting | src/main/kotlin/com/github/zly2006/xbackup/XBackup.kt:121-123 | `restoring` becomes false, and nothing else changes |
| XBackup.Mod.ScheduledTick | src/main/kotlin/com/github/zly2006/xbackup/XBackup.kt:143-180 | a backup runs iff the interval is not 0, the lock is free and one is due; the lock is free again after |
| XBackup.Mod.CoreScheduledTick | core/src/main/kotlin/com/github/zly2006/xbackup/XBackup.kt:121-157 | the same, with no zero-interval guard |
| Commands.Classify | src/main/kotlin/com/github/zly2006/xbackup/Commands.kt:306-315 | a path outside the world is rejected, otherwise judged by its extension |
| Commands.Coordinates | src/main/kotlin/com/github/zly2006/xbackup/Commands.kt:317-318 | fields 1 and 2 of the dot-split name, read with `toInt()` |
| Commands.TestFile | src/main/kotlin/com/github/zly2006/xbackup/Commands.kt:316-333 | the name's coordinates under the build's range test, or the error a bad name throws |
| Commands.ChunkFilter | src/main/kotlin/com/github/zly2006/xbackup/Commands.kt:306-335 | false outside the world and for other extensions; a ".mca" or ".mcc" file gets the range test at region or chunk grain |
| Commands.ShiftedBetween | src/main/kotlin/com/github/zly2006/xbackup/Commands.kt:319 | a coordinate lies between the shifted bounds iff some block between the bounds shifts to it |
| Commands.InRangeMeansOverlap | core/src/main/kotlin/com/github/zly2006/xbackup/Commands.kt:117-126 | the intended test accepts a file exactly when the selected rectangle overlaps its region or chunk |
| Commands.CoreInRangeOvershifts | core/src/main/kotlin/com/github/zly2006/xbackup/Commands.kt:120 | as written, a file outside the selection passes |
| Commands.SrcInRangeMixesAxes | src/main/kotlin/com/github/zly2006/xbackup/Commands.kt:311-314 | as written, a file inside the selection fails |
| Commands.FieldsOfName | src/main/kotlin/com/github/zly2006/xbackup/Commands.kt:317-318 | a four-field dotted name splits back into its fields |
| Commands.CoordinatesOfFileName | src/main/kotlin/com/github/zly2006/xbackup/Commands.kt:317-318 | the coordinates read from `prefix.X.Z.ext` are X and Z |
| Commands.CoordinatesOfNames | src/main/kotlin/com/github/zly2006/xbackup/Commands.kt:316-327 | the coordinates of a region or chunk file are those it was named for |
| Commands.ChunkFilterOnRegionFile | src/main/kotlin/com/github/zly2006/xbackup/Commands.kt:306-324 | a region file in the world gets its build's range test, and never throws |
| Commands.IgnoredPathKept | src/main/kotlin/com/github/zly2006/xbackup/Commands.kt:496 | a path the filter rejects is neither restored nor deleted |
| Commands.ListCommand | src/main/kotlin/com/github/zly2006/xbackup/Commands.kt:139-175 | "none" exactly when past the end; otherwise up to 6 backups from `offset`, with a "more" link to `offset + 6` iff more exist |
| Commands.BrowseListsAll | src/main/kotlin/com/github/zly2006/xbackup/Commands.kt:164-170 | following the links lists every backup from `offset` on, newest first, once each |
| Commands.ReasonsIdentifyBackup | src/main/kotlin/com/github/zly2006/xbackup/Commands.kt:471-497 | each status text names one backup, and the three stages never share a text |
| Commands.BackupBeforeRestore | src/main/kotlin/com/github/zly2006/xbackup/Commands.kt:471-480 | save, saving held off while the backup runs, and released after it succeeds |
| Commands.RunStopHook | src/main/kotlin/com/github/zly2006/xbackup/Commands.kt:491-509 | the hook clears itself first, restores, and releases the lock and restarts only when not forced and not single-player |
| Commands.DoRestoreSrc | src/main/kotlin/com/github/zly2006/xbackup/Commands.kt:462-514 | each outcome: unknown id, failed auto-backup, busy, corrupted (no `restoring`, no stop), or restored at shutdown |
| Commands.StopForRestore | src/main/kotlin/com/github/zly2006/xbackup/Commands.kt:490-512 | `restoring` set, the hook installed and run at shutdown, the lock released |
| Commands.RestoreInPlace | core/src/main/kotlin/com/github/zly2006/xbackup/Commands.kt:340-355 | prepare, restore, a stop when forced, then `finishRestore` and saving on, even when the restore fails |
| Commands.FinishInPlace | core/src/main/kotlin/com/github/zly2006/xbackup/Commands.kt:352-355 | `finishRestore` then automatic saving, whatever happened before |
| Commands.DoRestoreCore | core/src/main/kotlin/com/github/zly2006/xbackup/Commands.kt:309-357 | each outcome: failed auto-backup, busy, an unknown id reported with no restore, or restored in place and settled |
| Api.AfterSet | api/src/main/java/com/github/zly2006/xbackup/api/XBackupApi.java:19-25 | a refused set keeps the slot; any other stores the argument |
| Api.SetOnce | api/src/main/java/com/github/zly2006/xbackup/api/XBackupApi.java:19-25 | once set, no later non-null set changes the slot |
| Api.ClearThenSet | api/src/main/java/com/github/zly2006/xbackup/api/XBackupApi.java:19-25 | setting `null` always succeeds and empties the slot, and a set after it is taken |
| Api.Instance.constructor | api/src/main/java/com/github/zly2006/xbackup/api/XBackupApi.java:10-12 | the slot starts empty |
| Api.Instance.GetInstance | api/src/main/java/com/github/zly2006/xbackup/api/XBackupApi.java:15-17 | returns the value last stored |
| Api.Instance.SetInstance | api/src/main/java/com/github/zly2006/xbackup/api/XBackupApi.java:19-25 | throws iff the slot is taken and the argument is not null, keeping the slot; otherwise stores and returns the argument |
| Restart.AgentlessMembers | core/src/main/kotlin/RestartUtils.kt:20-25 | an argument survives exactly when it is not an agent argument |
| Restart.AgentlessAppend | core/src/main/kotlin/RestartUtils.kt:20-25 | the removal works piecewise, so the order is kept |
| Restart.AgentlessNoAgents | core/src/main/kotlin/RestartUtils.kt:18-25 | without agent arguments nothing is removed |
| Restart.RemoveAgents | core/src/main/kotlin/RestartUtils.kt:21-24 | the loop keeps exactly the non-agent arguments, in order |
| Restart.CommandParts | core/src/main/kotlin/RestartUtils.kt:27-33 | the command reads back as the JVM, "-cp", the class path, the arguments, and the main command |
| Restart.Generate | core/src/main/kotlin/RestartUtils.kt:9-34 | fails iff the main command is missing or empty, or else the class path is empty; otherwise the command, with agents dropped only in development |
| Restart.UnixRestartCommand | core/src/main/kotlin/RestartUtils.kt:9-34 | the command whose JVM is `java.home/bin/java` |
| Restart.WindowsRestartCommand | core/src/main/kotlin/RestartUtils.kt:36-61 | the command whose JVM is `java.home\bin\java.exe` |
| Restart.UnixWindowsDiffer | core/src/main/kotlin/RestartUtils.kt:10-37 | the two commands differ in their first word only |
| I18n.Load | common/src/main/kotlin/com/github/zly2006/xbackup/I18n.kt:41-44 | a missing resource is "not found"; a malformed one fails; a JSON one loads its map |
| I18n.OverlayLookup | common/src/main/kotlin/com/github/zly2006/xbackup/I18n.kt:22-24 | the overlay has the keys of both maps, and the requested language wins |
| I18n.OverlaySelf | common/src/main/kotlin/com/github/zly2006/xbackup/I18n.kt:16-24 | English overlaid on itself is English |
| I18n.Translations.constructor | common/src/main/kotlin/com/github/zly2006/xbackup/I18n.kt:12 | the table starts empty |
| I18n.Translations.Fallback | src/main/kotlin/com/github/zly2006/xbackup/Utils.kt:15-21 | the fallback text is the table's entry, or none |
| I18n.Translations.SetLanguage | common/src/main/kotlin/com/github/zly2006/xbackup/I18n.kt:14-39 | on success English overlaid by the language; if either load fails, English alone; if English fails too, an error with the first failure suppressed, and the table unchanged |

## Left out

- MD5, gzip and zip are function parameters, not implementations. Where a lemma needs it, it assumes that gzip and zip read back what they wrote.
- The SQL layer is not modelled: Exposed transactions, `VACUUM INTO` and the database copy. The tables are sequences and sets, and a transaction is one method call.
- Coroutines and thread pools are not modelled. The per-file tasks of `createBackup` and `restore` run one at a time, in any order, and the contracts hold for every order. Two tasks running at once are not modelled.
- The progress counters are left out, since they are reporting only: `activeTaskProgress`, the report job, and the atomic `done`.
- Logging is left out, and so is `debug-restore.json`. The elapsed time in `BackupResult` is also left out.
- The cloud and network code is left out: OneDrive, Graph, `uploadOneDrive`, and the cloud-download branch of the core `restore`.
- The GUI, text rendering, `sizeToString` (floating point), `shortDateTimeText` and the CLI are left out.
- `zipArchive` is left out. It writes an export archive with the same member layout that `packFiles` uses. Its reading side, `importZipArchive`, is modelled.
- The `status` command is left out, since it only displays.
- The host server's internals are events in a trace, not models. These include:
  - `networkIo.tick`, `runTasks`, `runServer`, `stop` and thread `join`;
  - player disconnects;
  - `removePersistentTickets`;
  - the tick;
  - `markPendingDisposal` and `run` of a chunk loader.
- The host's answers are parameters:
  - the delay conditions that the quiesce loop sees before each pass (`observed`);
  - the lookup, the auto-backup, `check` and the restore in `doRestore`;
  - what `write` throws in `writeResult`.
- Coordinator.Server.Quiesce: the loop runs only as many passes as there are observations. A server that stays delayed forever is reported as still delayed, not as a loop that never ends.
- The player-drain loop of `prepareRestore` is one step in the model: disconnect every player, then an empty player list. The model does not capture how many pumps it takes.
- The one-line flag hooks into host methods are left out: `MixinServer`, the `disable/` mixins, the watchdog mixin, LuckPerms and `MixinSPNH`. Their effect is captured by the `disableSaving` and `restoring` guards in the worker model.
- These empty or dead parts are left out:
  - the 1.21 `MixinChunkTicketManager`, modelled as a ticket manager that does not purge;
  - `MixinServerChunkManager` and the `MixinColumnPos` mixins;
  - the dev-only mixins;
  - the dead `if (false)` block of the 1.20 `Impl`.
- The `send` and `broadcast` delegations of the core `Utils` are left out, since they only print text.
- Nodes.SomeOrder: the hash map's iteration order is not fixed, so the ticket purge is proved for every order.
- Decimal.ParseInt accepts ASCII digits only. Kotlin's `toInt()` also accepts other Unicode decimal digits.
- The common service's `require` that `blobDir` be absolute and normalised is not modelled, because paths in the model are already normalised name lists below one root.
- The 1.20.1 region storage's log of the count closed is left out.
- A directory's `File.length()` is a parameter (`newDirLength` in restore), because the source reads the file system.
- A gzip stream whose header is valid but whose body is corrupt is modelled as a decode that gives nothing (`gunzip` returns `None`). The bytes such a stream copies before it throws are not modelled.
- CommonCatalog.RestoreTask: a failed task leaves its path as it was. The source may leave behind the empty file it created or the bytes it copied before the failure.
- CoreService.CoreRestoreTask: a failed task leaves its path as it was. The source may leave behind the empty file it created or the bytes it copied before the failure.
- CommonService.Service.BackupThenRestore: the content is promised only when gzip round-trips, no two walked files share an MD5, and every row reads back its hash and size beforehand. The last excludes catalogs after `packBackup`. A file whose row was reused for agreeing in time and size comes back with that time and size, not necessarily its content, as in the source.
- CoreService.Service.BackupThenRestore: the content is promised under the same three conditions as the common one. A file whose row was reused for agreeing in time and size comes back with that time and size.
- CoreService.Service.DeleteBackup: the model uses the checked blob deletion of the corrected common service, not the unconditional delete of line 264. The as-written version is `DeleteFoundAsWritten`. The two agree while no two rows share a hash (`DeletionsAgreeWhenHashesUnique`), which the as-written step keeps. The corrected step breaks that (`CoreDeleteAsWrittenBreaks`). A backup task racing a delete is concurrency and is not modelled.
- IoWorker.Worker.PreRestore: the 1.20.1 drain is stated with saving enabled and every drained write succeeding. The restore commands clear `disableSaving` before the restore begins (core/src/main/kotlin/com/github/zly2006/xbackup/Commands.kt:325, src/main/kotlin/com/github/zly2006/xbackup/Commands.kt:480); a drained write that throws would end `preRestore` with that exception, which these two contracts do not follow (`RunHead` models the failure itself).
- IoWorker.Worker.PostRestore: the same assumptions as `PreRestore` about the drain.
- IoWorker.Worker.Valid: the 1.21 worker is required to have a storage. The 1.21 mixin calls it without a null check, so a worker without one would throw a null-pointer exception, which the model does not capture.

## Findings

| source | as written | input that shows it | evidently intended | confidence | as-written member | corrected member |
|---|---|---|---|---|---|---|
| common/src/main/kotlin/com/github/zly2006/xbackup/BackupDatabaseService.kt:398-414 | the blob of every entry no other backup links is deleted, even when another remaining row has the same hash | rows `a` at "a" and `c` at "c" with the same hash; backup 1 links `a`, backup 2 links both; deleting backup 2 removes the shared blob that `a` still needs | delete a blob only when no remaining row refers to its hash | not executed | CommonCatalog.DeleteAsWrittenBreaksOtherBackup | CommonCatalog.DeleteKeepsOtherBackupsValid |
| core/src/main/kotlin/com/github/zly2006/xbackup/BackupDatabaseService.kt:144-151 | when the path's row does not match, any row with the same hash is reused, whatever its path | a new file whose content is already stored under another path; any new directory once a directory row exists | reuse only rows of the same path, as the common service does | not executed | CoreService.CoreReuseDiscrepancy | CoreService.CoreBackupRestoreRoundTrip |
| src/main/kotlin/com/github/zly2006/xbackup/Commands.kt:311-314 | all four bounds come from `from.x` and `to.z` | corners (0, 0) and (1000, 0): the file of region 1 fails, though blocks 512..1000 are selected | x bounds from `from.x`/`to.x`, z bounds from `from.z`/`to.z` | not executed | Commands.SrcInRangeMixesAxes | Commands.InRangeMeansOverlap |
| core/src/main/kotlin/com/github/zly2006/xbackup/Commands.kt:117-126 | the file's coordinates, already in regions or chunks, are shifted again | both corners at block (0, 0): the file of region 1 passes, since `1 shr 9 == 0` | compare the file's coordinates with the shifted corners | not executed | Commands.CoreInRangeOvershifts | Commands.InRangeMeansOverlap |
| common/src/main/kotlin/com/github/zly2006/xbackup/BackupDatabaseService.kt:167-175 | for a packed entry, `use` closes the zip stream before it is returned | any entry with `compress` 2 whose archive exists | return the open member stream | not executed | CommonCatalog.PackedReadDiscrepancy | CommonCatalog.PackThenRead |
| common/src/main/kotlin/com/github/zly2006/xbackup/BackupDatabaseService.kt:357-380 | the recheck reads `backup.entries` of the object read right after the row insert, before any link exists, so it never fails | a linked entry whose blob has been overwritten with 5 bytes where 3 are recorded | recheck the entries as linked | not executed | CommonCatalog.RecheckAsWrittenNeverFails | CommonCatalog.RecheckFailures |

The corrected members are the ones the rest of the model uses. For example, `CommonService.Service.CreateBackup` rechecks with `RecheckFailures`, and `CoreService.Service.BackupFile` applies `CoreStep`. The corrected core step lets two rows of different paths share a hash. For that reason, the core `deleteBackup` uses the same checked blob deletion as the corrected common one. The unconditional delete of the core source is safe only under its as-written step.
