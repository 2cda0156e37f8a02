# Verified models of the storage service's core

A Dafny project that models the parts of the service where correctness is hard to see from one
function at a time, and proves what they promise:

* **Search and bulk delete** (`SqlText`, `Sql`, `SqlGrammar`, `Fragments`, `MetadataFilter`,
  `Conditions`, `Search`, `SearchPages`, `NameSearch`, `BulkDeleteClause`, `BulkDelete`,
  `BulkDeleteRaces`). The filter compiler and the clause builders emit real text, character by character.
  A small SQL front end (lexer, recursive descent with NOT over AND over OR, three-valued evaluation,
  ILIKE, jsonb containment, the ORDER BY, LIMIT and OFFSET tail) reads that text back, so the theorems are
  about the emitted string and the separately bound argument list together. Bulk deletes are also
  interleaved with uploads, statement by statement.
* **Sync queue** (`SyncQueue`, `SyncQueueRuns`, `SyncQueueSharing`). The statements of `sync_tasks` as
  methods, and a state machine of many workers in which a claim is a SELECT followed by one small
  transaction per row.
* **Content-addressed upload** (`Dedup`, `FileService`, `StoredContent`, `UploadOverlap`): the two upload
  paths with every way in which they can fail; any sequence of uploads; the file rows under any number of
  callers, and whole uploads (row, bytes, location, reference) interleaved.
* **Resumable upload** (`Uploads`, `UploadRaces`), the subset of tus 1.0.0 that the server speaks: one
  session driven in any division into PATCH bodies and blocks, and any number of PATCHes interleaved.
* **Tiering and bulk sync** (`Tiering`, `TierService`, `BulkSync`).
* **Quota and retention** (`SharedLinks`, `Backups`, `BackupRuns`).
* **Two string algorithms** (`ArchiveNames`; `Percent`, `Utf8`, `Propfind`, `PropfindListing`,
  `PropfindPaths`).

`Wrappers`, `Lists`, `Sums`, `Ascii`, `Decimal`, `Json` and `Tables` hold what several of these share. Tables
are sequences or maps of rows, and one SQL statement or small transaction is one atomic step. Code that
updates rows, counters or lists in loops is written as class methods or methods with loops, each proved
against a function or predicate of the old state; protocols with several actors are state machines whose
theorems quantify over every run. From the migrations the models take: `file_references.metadata` and
`created_at` are NOT NULL, `files.hash_sha256` and the pair (file, storage) of a location are unique, and
references and locations point at existing files.

Check the whole project with `dafny verify dfyconfig.toml`.

## Where the code does less than its documentation says

Unless a line says otherwise, each comes with a run or an input that shows it and with the exact
condition under which the promise does hold.

* The service's own README, line 454, says that advisory locks keep a sync task from being processed by two
  workers at once. They do not, in three ways: both workers select the row before either commits its claim
  (`SyncQueueSharing.TwoWorkersShareATask`); the row is taken for stale while its worker still has it
  (`SyncQueueSharing.ReclaimHandsOutTwice`), as can happen to the last of a batch that one worker goes
  through; or one of two workers that have it requeues it, which looks at the id alone, and a third gets it
  beside the other (`SyncQueueSharing.RequeueHandsOutThird`). `SyncQueueSharing.SharedInThreeWays`: in
  every run, a call that claims a row which another call's worker has does so in one of these ways.
  `SyncQueueSharing.SharedIffMayShare`: after one call's claim another can come to claim the row, by
  whatever steps, if and only if it has the row in its list, or has yet to select and the row can lose a
  retry; and in exactly these cases it can do so while the first worker has the row.
  `SyncQueueSharing.SharedIffSelected` is the case in which the row is not pending in between.
* src/db/models.rs:691-696 calls the name filter a substring test. `NameSearch.SubstringSearchIffClean`:
  it is one exactly for search strings without `%`, `_` and `\`, which ILIKE interprets.
* src/api/uploads.rs:288 keeps the temp file after a failed finalize "so the client can retry completion".
  If the content was new, the failed attempt has already inserted its file row, so the retry is taken for
  a duplicate, reports success and deletes the temp file. `StoredContent.RetryReportsSuccess`: whatever
  made the first attempt fail and whatever is uploaded in between, the retry succeeds if and only if there
  is a usable storage and the reference can be inserted, and the bytes are there if and only if the first
  attempt had a storage that took them and recorded the location. `StoredContent.IntactIffAllHarmless`
  has the condition for all files of a run, from what each upload is given and finds.
* The same can happen without a failure first: a second caller is told of success, as a duplicate, while
  the first has the bytes still to store, and may then fail to (`UploadOverlap.DuplicateToldTooEarly`).
  `UploadOverlap.StoredIffInserterLocated`: the bytes are there if and only if the caller that inserted
  the row has recorded their location.
* An upload reports success once its reference is inserted, yet a bulk delete under way may take the
  reference along: it looks for files without a reference, and removes them, in different statements, and
  the foreign key cascades (`BulkDeleteRaces.UploadVanishes`). `BulkDeleteRaces.LostIffListed`: a reference
  can disappear although nobody chooses it if and only if, when it is inserted, an open bulk delete has
  already found its file to be without one.
* A PATCH that breaks off after some bytes leaves them in the temp file, although the reported offset does
  not count them (src/api/uploads.rs:247-262). A client that resumes as tus tells it to gets a completed
  upload of different bytes: `UploadRaces.ResumedPatchSpoilsTheFile`; `UploadRaces.FinalizeSeesTextIff`
  has the condition.
* src/services/file_service.rs:130-165 reads the temp file twice, to hash it and to store it. A PATCH that
  is still open can write in between, and other bytes are stored than were hashed
  (`UploadRaces.StragglerSpoilsTheStore`); `UploadRaces.StoredIsHashedIff`: exactly if somebody does.
* src/services/backup_service.rs:346 and the comments around it aim never to orphan a backup file.
  Deleting a record whose job has yet to upload does orphan it, also after the record has been marked
  failed as stale (`BackupRuns.DeletingEarlyOrphans`, `BackupRuns.StaleStillWorking`); deleting any later
  never does (`BackupRuns.FilesStayNamed`), and retention clean-up is always late enough
  (`BackupRuns.CleanupDeletesLate`). By the status alone, which is what a caller sees, only a completed
  record is safe to delete (`BackupRuns.OrphanUnlessCompleted`).
* src/api/files.rs:745 numbers repeated names in an archive. The entry names are all different exactly if
  no file already has a numbered name: `ArchiveNames.DistinctIff`.
* src/db/models.rs:3460-3461 says that retention candidates come oldest first; the query orders them newest
  first, and the model follows the query. That breaks nothing: the outcome of a whole clean-up does not
  depend on the order (`Backups.OrderDoesNotMatter`).

## Model

| member | source | states |
|---|---|---|
| MetadataFilter.Compiler.Compile | src/db/models.rs:632-634 | succeeds if and only if no node is 32 or more levels deep; pushes one JSON parameter per leaf, left to right, and advances the next placeholder by as many |
| MetadataFilter.Compiler.CompileInner | src/db/models.rs:636-675 | the recursion with its running placeholder and parameter list, also on failure: what was pushed before the error stays pushed |
| MetadataFilter.ClauseIsUnit | src/db/models.rs:642-674 | the text for any tree lexes and parses, with SQL precedence, to that tree's expression wherever an operand of NOT or AND may stand, whatever follows |
| MetadataFilter.EvalMatchesHolds | src/db/models.rs:604-611 | evaluating the parsed expression under the bound JSON arguments is the direct, SQL-free meaning of the tree |
| MetadataFilter.OnlyMetadata | src/db/models.rs:636-675 | the expression of any tree names no column but `metadata` |
| MetadataFilter.PlaceholdersInOrder | src/db/models.rs:643-648 | the placeholders are consecutive from the start number, each used once, in the order in which parameters are pushed |
| MetadataFilter.FittingPushesLeaves | src/db/models.rs:636-648 | a tree within the depth limit pushes exactly its leaves |
| Conditions.WhereReads | src/db/models.rs:777-785 | conditions joined with AND read as their conjunction, with any tail that cannot extend it left over |
| Conditions.WhereMeans | src/db/models.rs:777-800 | under the concatenated arguments that conjunction is true of exactly the rows that meet every condition, never NULL or an error |
| Conditions.ConditionPlaceholders | src/db/models.rs:704-725 | placeholders of a list of conditions are consecutive, one per argument |
| Conditions.EvalStale | src/db/models.rs:1072-1078 | the NOT EXISTS subquery is true exactly if every location of the file was accessed, and before the given time |
| Search.ExtrasClause | src/db/models.rs:704-725 | the optional conditions as text from any start placeholder, and the next free one |
| Search.BindExtras | src/db/models.rs:727-742 | binds exactly the arguments that the extras' placeholders stand for, in order |
| Search.BindSearch | src/db/models.rs:789-795 | the separately built argument list is the one that the text was numbered for |
| Search.SearchWhere | src/db/models.rs:757-780 | the whole WHERE text and the LIMIT placeholder: one past the last argument |
| Search.SearchByMetadata | src/db/models.rs:747-819 | fails exactly for filters too deep; otherwise count and data query select exactly the rows with that project, tree and extras, every `$n` naming the n-th bound argument; the data query's tail reads as newest first with 1 to 100 rows, as many as asked for where that is in range, behind those of the pages before, the first page starting at the first match; page and size are reported back |
| Search.QueriesAnswer | src/db/models.rs:777-813 | the same for any queries with that text and those arguments, the tail being read by a small reader of ORDER BY, LIMIT and OFFSET |
| SearchPages.PagesJoin | src/db/models.rs:755-756 | of any list of matching rows the pages 1 to n together are its first n times limit, none left out and none twice, until the offset would leave 64 bits |
| SearchPages.FirstPage | src/db/models.rs:755-756 | page 1, and any number below it, starts at the first match |
| NameSearch.SubstringSearchIffClean | src/db/models.rs:690-731 | `%x%` finds exactly the names containing x, for all names, if and only if x has no wildcard or escape |
| BulkDeleteClause.BuildBulkDeleteClause | src/db/models.rs:1032-1087 | which filters compile, the clause for the conditions given, the join flag, the next free placeholder |
| BulkDeleteClause.BindBulkDeleteArgs | src/db/models.rs:1090-1124 | project, JSON parameters and values in the order of their placeholders |
| BulkDeleteClause.ClauseSelects | src/db/models.rs:1136-1187 | for every combination of filters the WHERE text, at the end or before a closing parenthesis, selects exactly the chosen references, uses placeholders 1 to the number of arguments once each, in order, and names the files alias exactly if the join is requested |
| BulkDeleteClause.AliasIffJoin | src/db/models.rs:1060-1070 | the expression that the WHERE text reads back as names a column of the files alias exactly when the join is requested |
| BulkDelete.Database.PreviewBulkDelete | src/db/models.rs:1128-1157 | counts exactly the chosen references; the total is the sum of their files' sizes, one term a reference |
| BulkDelete.Database.ExecuteBulkDelete | src/db/models.rs:1160-1196 | removes exactly the chosen references, keeps the others in order, returns the file of each one removed |
| BulkDelete.Database.FindOrphanedFromIds | src/db/models.rs:1201-1221 | exactly the given files without a reference in any project, each once |
| BulkDelete.Database.BulkDelete | src/services/file_service.rs:504-597 | removes exactly the project's matching references, exactly the files that thereby lost their last one and exactly their locations; referential integrity is kept; total size before is total size after plus the bytes reported freed |
| BulkDelete.Database.RemoveFiles | src/services/file_service.rs:559-572 | removing files one by one conserves bytes and takes exactly their locations along |
| BulkDelete.Database.PreviewThenDelete | src/services/file_service.rs:494-512 | a preview announces the number of references that the deletion removes, and at least as many bytes as it frees |
| BulkDeleteRaces.LostIffListed | src/services/file_service.rs:504-597 | under every interleaving of bulk deletes, uploads and single deletions: a reference just inserted can be lost without being chosen if and only if an open bulk delete lists its file for removal |
| BulkDeleteRaces.SafeStep | src/services/file_service.rs:528-572 | a reference to a file that no open bulk delete lists, and that none has deleted, is so after every step that does not choose it |
| BulkDeleteRaces.UploadVanishes | src/services/file_service.rs:528-574 | for any file, a run in which an upload's reference and its file are gone after its success |
| BulkDeleteRaces.ReferencesKeepFiles | migrations/001_initial_schema.sql:40-50 | every reference that is committed names a file, in every interleaving |
| SyncQueue.TaskTable.ClaimPending | src/db/models.rs:1494-1580 | without interference, row by row: in progress for too long costs a retry, pending without a retry left becomes failed, a claimed row is in progress, every other row and column stays; what is picked is due, and nothing older that is due is left out unless the list is full |
| SyncQueue.TaskTable.SelectClaimable | src/db/models.rs:1527-1537 | oldest first, each once, eligible, and nothing older left out below the limit |
| SyncQueue.TaskTable.ClaimEach | src/db/models.rs:1539-1577 | one transaction a row; the claimed are the listed ones minus the locked ones |
| SyncQueue.TaskTable.RequeueForRetry | src/db/models.rs:1595-1619 | back to pending with one retry more and the capped power of two as delay, at least a second and at most five minutes; no other row changes |
| SyncQueue.TaskTable.UpdateStatus | src/db/models.rs:1433-1453 | sets the status and keeps the delay, raising retries exactly for failures; an unknown id changes nothing |
| SyncQueue.TaskTable.SupersedeFailedFor | src/db/models.rs:1462-1482 | completes exactly the other failed rows for the same file and target, and counts them; no other row and no other column changes |
| SyncQueueRuns.HandoutBound | src/db/models.rs:1494-1580 | in every run with at most W claims in flight, one row is handed out at most W * max_retries times |
| SyncQueueRuns.CompletedIsReported | src/db/models.rs:1433-1580 | in no run does a row come to be completed but by a report of a worker that has it, or as failed row of a file and target for which another row succeeded |
| SyncQueueSharing.ClaimsOverlap | src/db/models.rs:1527-1577 | a second claim of a row not pending since the first selected it before the first committed |
| SyncQueueSharing.SharedIffSelected | src/db/models.rs:1527-1577 | after a claim, another call can still claim the row before it is pending again if and only if it already had it in its list |
| SyncQueueSharing.TwoWorkersShareATask | src/db/models.rs:1539-1577 | a run in which two workers are handed one row and both have it |
| SyncQueueSharing.HandedOutAgain | src/db/models.rs:1494-1619 | of two claims of one row the second is another call's, which had the row in its list when the first committed, or the row was reclaimed as stale or requeued in between |
| SyncQueueSharing.SharedInThreeWays | src/db/models.rs:1494-1619 | if the first claimer's worker still has the row, the requeue was that of a third worker which had it too |
| SyncQueueSharing.SharedIffMayShare | src/db/models.rs:1527-1577 | after a claim, another call can come to claim the row, by any continuation, if and only if it has it in its list, or has yet to select and the row has a retry to lose; and if and only if it can do so while the first worker has it |
| SyncQueueSharing.ReclaimHandsOutTwice | src/db/models.rs:1504-1513 | a run in which the second call begins after the first one's claim has committed, and both workers have the row |
| SyncQueueSharing.RequeueHandsOutThird | src/db/models.rs:1595-1619 | a run without a reclaim in which a call that begins after both claims gets the row beside one of the two workers |
| SyncQueueRuns.BackoffTotal | src/db/models.rs:1595-1619 | delays scheduled by n requeues sum to 2^n - 1 seconds up to nine, then to 511 + 300(n - 9) |
| SyncQueueRuns.NotBeforeRetryAfter | src/db/models.rs:1527-1537 | no SELECT picks a requeued row before its delay is over |
| Dedup.FileTable.CreateOrFind | src/db/models.rs:415-431 | returns the row of the hash, inserting it with the size and type given exactly if it was absent; uniqueness kept |
| Dedup.FileTable.Create | src/db/models.rs:381-393 | conflicts exactly on a known hash |
| Dedup.CallersAgree | src/db/models.rs:381-432 | under every interleaving of find, insert and find again: one row a hash, one file id for its callers, at most one told it is new, exactly one if the hash was absent, and nobody loses the row after a conflict |
| FileService.HashFile | src/services/file_service.rs:609-629 | the digest and size of the whole file for whatever sizes the block reads return |
| FileService.ContentPathInjective | src/services/file_service.rs:634-639 | different hashes have different storage paths |
| FileService.SameDirectory | src/services/file_service.rs:634-639 | the path ends in the hash, behind two directories of two digits each; two contents share them exactly if their hashes begin alike |
| FileService.FindPrimaryStorage | src/services/file_service.rs:475-492 | the first registered hot storage, else the first registered one; an error exactly if none is registered |
| FileService.FindSource | src/services/file_service.rs:242-261 | the loop with its early exit finds the preferred source |
| FileService.EveryStorageIsServed | src/services/file_service.rs:225-288 | each registered project storage has a location, is the source, or is the target of exactly one new copy, unless inserting that fails; a duplicate's source is a registered synced location, a project storage if possible, whenever there is one |
| FileService.Service.ScheduleCopies | src/services/file_service.rs:264-288 | appends one row for each storage that wants a copy and whose insertion works, in order, and counts them |
| FileService.Service.RecordReferencesAndSync | src/services/file_service.rs:204-297 | exactly the reference and the copies, nothing else changed; nothing at all if the reference cannot be inserted |
| FileService.Service.CreatePrimaryLocation | src/services/file_service.rs:182-200 | a synced location, unless the pair is taken, which is no error, or the insertion fails |
| FileService.Service.UploadFile | src/services/file_service.rs:70-126 | rows, bytes, copies and result of an upload, for every step that may fail: finding or inserting the row, no usable storage, storing, recording the location, inserting the reference, reading the locations, inserting a copy; in fields, the reference links the request's project to a file with the digest, under the name and with the metadata given, and the copies, counted, go to the project's storages that need one |
| FileService.Service.FinalizeUpload | src/services/file_service.rs:130-179 | the same outcome from a streamed file, which may also be unreadable |
| FileService.OutcomeIs | src/services/file_service.rs:204-297 | of every upload, on either path: the reference's file, project, name, metadata and time; a new row's size and type; which storages get a copy, each one, and from where: the newest synced location on a project storage, else on any with a backend, else the primary storage; nothing of this on failure |
| FileService.SameOutcome | src/services/file_service.rs:70-179 | the outcome is determined: both upload paths leave the same tables and backends and return the same for the same bytes |
| StoredContent.SucceedsIff | src/services/file_service.rs:70-126 | an upload succeeds if and only if the content is there with its row, a storage is usable, the reference can be inserted, and the hash is known or the content can be stored and located |
| StoredContent.UploadKeepsOthers | src/services/file_service.rs:70-126 | an upload neither damages nor repairs the stored bytes of any other file |
| StoredContent.AddedFile | src/services/file_service.rs:77-110 | new content gets a file row in any case, with its bytes behind it if and only if a storage took them and the location was recorded |
| StoredContent.UploadLinks | src/services/file_service.rs:204-223 | references are only added, one by each success, and all of them name file rows; a success links the project to a file with the digest of the content |
| StoredContent.LinkedForGood | src/services/file_service.rs:70-126 | in every run of uploads it stays linked |
| StoredContent.UploadKeepsAllIntact | src/services/file_service.rs:70-126 | after an upload every file row has bytes with its digest behind a synced location if and only if that was so before and the hash was known, or no row was made, or the content could be stored |
| StoredContent.IntactIffAllHarmless | src/services/file_service.rs:70-126 | in every run of uploads all files are intact at the end if and only if they were at the start and each upload met that condition |
| StoredContent.NeverRepaired | src/services/file_service.rs:70-126 | in every run a file stays as intact or as broken as the upload that added it left it |
| StoredContent.RetryReportsSuccess | src/api/uploads.rs:287-292 | a later upload of content whose first upload got as far as its row succeeds, as a duplicate, if and only if it has a usable storage and its reference is inserted; the bytes are there if and only if the first one could store them |
| UploadOverlap.StoredIffInserterLocated | src/services/file_service.rs:84-126 | under every interleaving of whole uploads an added file has its bytes stored and recorded if and only if the caller that inserted its row has recorded them |
| UploadOverlap.DuplicateToldTooEarly | src/services/file_service.rs:84-126 | for any content, a run in which a duplicate is told of success and nothing is ever stored |
| Uploads.Create | src/api/uploads.rs:111-188 | a session exactly for a positive length within the limit, starting empty at offset 0 |
| Uploads.UploadSession.WriteBlocks | src/api/uploads.rs:246-262 | appends whole blocks up to the first that would overrun the length; the three outcomes |
| Uploads.FittingIs | src/api/uploads.rs:246-262 | what is written of a body is its longest run of whole blocks for which there is room |
| Uploads.UploadSession.AdvanceOffset | src/db/models.rs:2610-2628 | the compare-and-set on offset and status |
| Uploads.UploadSession.Patch | src/api/uploads.rs:209-300 | each refusal with its cause leaves everything as it was; an overrun or broken body leaves the offset but not the file; otherwise the offset grows by the body, and finalizing happens exactly at the full length |
| Uploads.UploadSession.Terminate | src/api/uploads.rs:303-315 | removes row and temp file, once |
| Uploads.UploadInParts | src/api/uploads.rs:209-300 | any division of the bytes into PATCH bodies and blocks ends in what one upload of the whole string could have left: same rows, bytes, copies, result |
| UploadRaces.OffsetCountsWonBytes | src/api/uploads.rs:218-272 | over every interleaving the offset never falls, never exceeds the length, equals the bytes of the PATCHes that advanced it, and the file is at least that long |
| UploadRaces.AcceptedIsPrefix | src/db/models.rs:2610-2628 | what the winners sent is the client's string up to the offset |
| UploadRaces.FinalizeSeesTextIff | src/api/uploads.rs:271-283 | finalizing starts at exactly the declared length, and the temp file is then the client's string if and only if no other PATCH has written a byte |
| UploadRaces.StoredIsHashedIff | src/services/file_service.rs:130-165 | the bytes stored are the bytes hashed by the same PATCH if and only if nobody has written a byte in between |
| UploadRaces.StragglerSpoilsTheStore | src/services/file_service.rs:130-165 | for every string and every non-empty part of it, a run in which other bytes are stored than were hashed |
| UploadRaces.ResumedPatchSpoilsTheFile | src/api/uploads.rs:246-270 | for every string and every broken-off part of it, a run whose completed file is not the string |
| Tiering.ArchivingKeepsReadable | src/services/tier_service.rs:125-171 | marking copies whose file has a synced cold one leaves every readable file readable |
| Tiering.ReadableForever | src/services/tier_service.rs:125-237 | under any interleaving of scans on several nodes, archiving, restores and copies, a file with a synced copy on an enabled storage always keeps one |
| TierService.TierService.FindArchivableFiles | src/services/tier_service.rs:49-81 | one qualifying row a file, for its least recently accessed copy, by ascending file; at most the limit, and only files behind a full page are missing |
| TierService.OneTaskPerFile | src/services/tier_service.rs:85-121 | exactly one copy for each scanned file whose first cold, enabled storage that is shared or of one of its projects has a backend, none for the others |
| TierService.CopiesGoToCold | src/services/tier_service.rs:85-121 | every copy is of a scanned file, to an enabled cold storage, never onto its source |
| TierService.TierService.CreateArchiveTasks | src/services/tier_service.rs:85-121 | for one scan appends and counts, in fields, one copy for each file whose first suitable storage has a backend: from the scanned location's storage to that one, for the row's project; at most 100 |
| TierService.TierService.ProcessCompletedArchives | src/services/tier_service.rs:125-171 | marks only ripe hot copies, all of them below the limit of 100, counts them, changes nothing else, and keeps every readable file readable |
| TierService.TierService.RestoreFile | src/services/tier_service.rs:178-237 | succeeds exactly if there is a cold copy and an enabled hot storage; copies from the most recently synced cold copy to the oldest enabled hot storage, marks exactly the archived rows, changes nothing on error |
| BulkSync.BulkService.SyncAll | src/services/bulk_service.rs:62-140 | exactly one new row for each file with a synced copy on an enabled storage, none synced or pending on the target and none under way, source never the target and hot if possible; none for other files |
| BulkSync.BulkService.SyncAllTwice | src/services/bulk_service.rs:62-140 | an immediate second call creates none |
| BulkSync.NothingLeft | src/services/bulk_service.rs:72-91 | what one pass adds disqualifies every file that a second pass would serve |
| SharedLinks.LinkRow.IncrementDownloadCount | src/db/models.rs:2493-2503 | counts up exactly below the limit and says whether it did |
| SharedLinks.LinkRow.DownloadViaLink | src/services/shared_link_service.rs:167-255 | each refusal with its cause, in the order of the checks on the link as read, else the data of the first backend that answers, and the count grows by one exactly when data is returned |
| SharedLinks.ServedWithinLimit | src/services/shared_link_service.rs:188-235 | over every interleaving of stale reads: responses with data are the count, never more than the limit, and nobody is refused for the limit while some is left |
| Backups.History.CleanupOldBackups | src/services/backup_service.rs:326-363 | by position: removes exactly the completed records of the config with at least retention_count newer ones whose storage has a backend that deletes the file, and exactly those files |
| Backups.RetentionHolds | src/db/models.rs:3462-3478 | afterwards the config's completed records are its newest retention_count and exactly those older ones whose deletion failed, in order |
| Backups.History.DeleteBackup | src/services/backup_service.rs:372-419 | each outcome with its cause, a failing lookup of the storage included, and what it removes |
| Backups.History.DeleteAllBackupsForConfig | src/services/backup_service.rs:424-448 | by position: removes exactly the config's records without a file or with a deleted one, and exactly those files |
| Backups.OrderDoesNotMatter | src/db/models.rs:3460-3478 | a clean-up removes the same rows and files and counts as many, in whatever order it takes the candidates |
| Backups.RemovingKeepsNamed | src/services/backup_service.rs:341-351 | removing records together with their files leaves every other file named by a row |
| Backups.RowOnlyOrphansIff | src/services/backup_service.rs:395-405 | removing only a row leaves all files named if and only if its file is gone or another row names it |
| BackupRuns.FilesStayNamed | src/services/backup_service.rs:116-198 | in every run whose deletions come after the job's upload or its end, each stored file has a row naming it |
| BackupRuns.CleanupDeletesLate | src/services/backup_service.rs:331-333 | in every run, a completed record's job is over when clean-up picks it |
| BackupRuns.DeletingEarlyOrphans | src/services/backup_service.rs:372-419 | from any reachable state, deleting a record whose job has yet to upload leads to a file without a row |
| BackupRuns.OrphanUnlessCompleted | src/services/backup_service.rs:372-419 | a status admits a run in which deleting a record that shows it leaves a file without a row if and only if it is not completed |
| BackupRuns.StaleStillWorking | src/db/models.rs:3406-3423 | a record marked failed as stale may still have a job about to upload |
| ArchiveNames.ArchiveEntries | src/api/files.rs:723-759 | the loop with its counters gives each fetched file its own name the first time, and after that the number of earlier files of that name in parentheses before the last dot, or at the end if there is none |
| ArchiveNames.NumberedInjective | src/api/files.rs:752-758 | numbered names are different for different names or numbers |
| ArchiveNames.DistinctIff | src/api/files.rs:723-759 | all entry names are different if and only if no file already has a generated one |
| ArchiveNames.NumberedNameTaken | src/api/files.rs:752-758 | for every name, three files whose last two entries collide |
| Utf8.ValidIff | src/storage/hetzner.rs:524-525 | a decoded string is kept exactly if it is the UTF-8 encoding of some sequence of code points |
| Percent.DecodeEncode | src/storage/hetzner.rs:524-525 | decoding undoes encoding, for every byte string |
| Propfind.ScanLoop | src/storage/hetzner.rs:496-540 | the loop terminates with indices in range and gathers each span's contribution in order |
| Propfind.ParsePropfindHrefs | src/storage/hetzner.rs:491-543 | the paths of the scanned hrefs: directories and the base skipped, decoded, base stripped |
| Propfind.ScanFindsBetween | src/storage/hetzner.rs:496-517 | in a document with one tag style the scan finds exactly the text between tags, left to right |
| PropfindListing.ScanFindsElements | src/storage/hetzner.rs:496-517 | for documents put together from elements, tags in any case, and other text, the scan returns the elements' texts |
| PropfindPaths.PathOfHref | src/storage/hetzner.rs:516-539 | an item's encoded href under a base reads back as its path, a directory's and the base's own as nothing |
| PropfindPaths.PathOutsideBase | src/storage/hetzner.rs:527-535 | an encoded href that is not under the base reads back as its whole path |
| PropfindPaths.PathKeptIfInvalid | src/storage/hetzner.rs:524-525 | an href whose escapes give no valid text is taken as it is |
| PropfindPaths.ListingRoundTrip | src/storage/hetzner.rs:491-543 | scanning a server's listing, which may contain directories and the base itself, with either of the two tag styles in any case and white space around the hrefs, returns exactly the paths of its files, in order |

## Left out

- HTTP routing, extractors, token signing, password hashes and error mapping.
- Cloud, FTP and Samba clients; a backend is a map from path to bytes, or an outcome given from outside. Per-project containers of one storage are not told apart.
- SHA-256 itself: a digest is a fold that absorbs bytes. No lemma needs it to be free of collisions.
- SELECT lists, ORDER BY in `search_by_metadata` and line breaks in query text; the WHERE text, its tail and the arguments are modelled. `search_all_for_filter` builds the same text and is not repeated.
- ILIKE folds ASCII letters only; PostgreSQL's depends on the locale.
- MetadataFilter.Compiler.Compile: placeholders and sizes are unbounded integers; PostgreSQL's limit of 65535 arguments is not modelled.
- Search.SearchByMetadata: the page offset saturates as in the source, page numbers beyond 64 bits do not arise.
- BulkDelete.Database.BulkDelete: one transaction; sync tasks and shared links that go with a deleted file, and the best-effort removal of stored bytes afterwards, are not modelled.
- BulkDeleteRaces.LostIffListed: a statement sees what is committed when it starts and waits for no lock halfway; file rows appear and disappear as a whole, without their locations and bytes; which references a bulk delete chooses is left open.
- SyncQueue.TaskTable.ClaimPending: `updated_at` and its fifteen minutes become a free choice of stale rows; two rows whose lock keys collide are not told apart from locked ones; the overflow of POWER for dozens of retries is not modelled.
- FileService.Service.UploadFile: a backend that fails leaves nothing of the bytes in the model; a partial object would lie under the path of its hash, where nothing refers to it.
- TierService.TierService.RestoreFile: an unknown file is refused like one without a cold copy; failing inserts are not modelled, here and in the other tiering and bulk operations.
- Tiering.ReadableForever: hot and enabled flags stay as they are and nothing is deleted.
- UploadRaces.StoredIsHashedIff: hashing and storing each read the temp file at one moment, although both stream it; the moment between storing and marking the session completed is not modelled. Expiry of sessions and parsing of the tus headers are left out.
- UploadOverlap.StoredIffInserterLocated: files, bytes and locations are not removed, and copies to other storages are not part of the interleaving.
- SharedLinks.ServedWithinLimit: links are not deleted and their limit does not change; deactivation is modelled.
- Backups.History.CleanupOldBackups: a completed record has a non-empty path, as marking it completed sets it; a row deleted by someone else during the loop, which ends the clean-up with an error, is not modelled.
- BackupRuns.FilesStayNamed: records of backups that never started have neither file nor job and are left out.
- Propfind.ParsePropfindHrefs: documents are ASCII; for others the lower-cased text may have other offsets than the original. Entities in hrefs are not decoded, as in the source.
- pg_dump, compression, export archives, dashboards, configuration and the front end.
