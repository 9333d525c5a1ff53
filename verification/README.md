# RecordDrive: verified models of its protocols and parsers

RecordDrive is a self-hosted file server. This project models the parts of it that carry state from
one request to the next, or that read untrusted input, and proves what they keep:

- **SMB reconciler** (`Text`, `Names`, `Sorting`, `ParentChains` and the modules whose names begin with
  `Smb`). `SmbSync.SyncProjection` is one projection pass as a function of the tables and the scan;
  `SmbAgreement`, `SmbOrphans`, `SmbParentCycles`, `SmbRejections` and `SmbCycles` say what passes and runs
  of passes achieve, `SmbNested`, `SmbSwaps` and `SmbSelfParent` hold the inputs on which they fail.
  `SmbRepository.Repository` is the same pass as it runs: fields updated in place, transactions that roll
  back, loops, and the Maps `mappingByPath`, `folderByIdentity` and `fileByIdentity` rebuilt only where the
  service rebuilds them. Each method is proved equal to the function it runs.
- **Quota** (`QuotaLimits`, `Totals`, `ServerQuota`, `UploadQuota`, `QuotaInterleaving`, `QuotaSharing`,
  `QuotaCoordinator`). `ServerQuota` runs whole passes of many repositories, upload commits and deletions in
  any order; `UploadQuota` has reservations and cached usage; `QuotaInterleaving` and `QuotaSharing` mix
  them with SMB changes.
- **Sessions** (`Sessions`, `SessionPruning`, `SessionStore`).
- **Rate limiter** (`RateLimit`, `RateLimitRuns`, `RateLimiter`).
- **7z metadata** (`Crc32`, `SevenZipNumbers`, `SevenZipHeader`, `SevenZipReader`, `SevenZipArchive`).
- **Protected streams** (`ProtectedStreams`, `ProtectedStream`).
- **Folders, archive trees, text and columns** (`RepositoryFolders`, `ArchiveNames`, `ArchiveTree`,
  `Utf8Truncation`, `Columns`).

SQL tables are maps (the mapping table is a sequence of rows), every SQL statement or synchronous block
is one atomic step, time is a non-decreasing natural number, names are ASCII strings, and a random
identifier is one that was never used before. `dafny verify dfyconfig.toml` checks the whole project.

## Findings

**A pass can lose a folder that it keeps.** One would expect that a projection pass that returns without
a rejection leaves the mappings one-to-one with the scanned entries, each mapped object in the folder
that is mapped at its parent path. That is not always so, because keeping a folder runs
`UPDATE folders ... WHERE id = ?` without looking at the number of changed rows (lines 869-905 of
`src/smb-sync-service.js`).

- Failing input: `SmbNested.NestedMoveBreaksAgreement`. A folder was moved below its own old path, and a
  folder that had been inside it was moved below a folder that was replaced by a new one of its name. The
  first folder's database row then hangs below the replaced folder, `ON DELETE CASCADE` takes it along,
  and its mapping stays behind.
- Exact condition: `SmbAgreement.CleanPassAgrees`. Agreement holds if and only if not
  `SmbOrphans.OrphansFolder(db, scan)`. That predicate looks at the tables and the scan alone: after the
  folder moves, some folder that is mapped at its scanned path by its inode has, among its database
  ancestors, a folder whose path is scanned earlier with another inode, and no folder in between is
  scanned in its place even earlier. It can be evaluated before the folder loop runs.
- Simple sufficient condition: `SmbAgreement.AnchoredPassAgrees`. Agreement holds whenever every scanned
  folder above a moved folder is at its mapped path with its mapped inode, or is new by path and inode.

**A pass can ask for the tree of a folder that is its own ancestor.** The recursive query of
`filesInFolderTree` (lines 665-680, `UNION ALL`) does not end then, and neither does the pass.

- Failing input: `SmbSelfParent.SelfParentStopsPass`. Mapped are `a` and `a/b`; on disk the old `b` lies at
  `a/b/c` inside new folders `a` and `a/b`, and the old `a` inside the old `b`. The move makes the old `b` its
  own parent, the second move drags its mapping away, and the last loop of the pass deletes it.
- Exact condition: `SmbParentCycles.CycleForeseen(db, scan)`: after the folder moves, a mapped folder that
  the pass will delete by itself is on a cycle of parents, with the folders taken out that the pass keeps
  before. With room for every scanned folder a pass that returns was not bound to meet a cycle, and one that
  meets a cycle was (`CyclesAreForeseen`); among the passes that do not throw it is an equivalence
  (`MeetsExactlyForeseen`), and without files no pass throws after its moves, unless a kept folder is lost
  (`FolderScanMeetsExactly`).
- Simple sufficient condition: `SmbParentCycles.AnchoredPassMeetsNoCycle`. No cycle is met, whatever the
  limits, when every scanned folder above a moved one is in its place or new.

**Two folders that swap names stop the pass.** `SmbSwaps.SwappedFoldersThrow`: whichever is visited first
meets the mapping of the other, the UNIQUE index rejects the move, and the pass does not return;
`SmbSwaps.SwapThrows` is an input. `SmbBlockedMoves.MoveThrowsExactly` says of every folder move exactly
when the index rejects it.

**Uploads and SMB changes can promise the same bytes twice.** Recorded usage never exceeds a quota, but
stored plus reserved usage can, and the commit of the upload is then turned away.

- Failing inputs: `QuotaSharing.ImportIgnoresReservations` (an import is checked against stored files only)
  and `QuotaSharing.GrowTrustsStaleUsage` (the import fits beside everything reserved, and a later grow is
  checked against usage that was read before the import).
- Exact condition: `QuotaSharing.RunFitsExactly`. Stored and reserved usage fits in every state of a run if
  and only if every admitted import, replacement, resize and grow fits beside what is stored and reserved, in
  its repository and in the server. No commit of live reservations is turned away then
  (`MixedCommitsAccepted`). Grows do so by themselves while the usage they read covers the table
  (`CoveredGrowFits`), as it does after each new reservation in the repository (`RefreshCovers`).

**A short tombstone lets a session come back.** `Sessions.ShortTombstoneFails` and
`Sessions.NoAbsoluteLifetimeFails`: the guarantee needs a tombstone of at least the absolute lifetime.

## Model

| member | source | states |
|---|---|---|
| SmbAgreement.CleanPassAgrees | src/smb-sync-service.js:820-1028 | From consistent tables and a scan of distinct paths inside scanned folders, a pass that returns with nothing rejected ends in agreement (mappings one-to-one with entries by type, path and inode; names, sizes and database parents right) if and only if no folder that is kept is taken along by an earlier replacement, a condition on the tables and the scan |
| SmbOrphans.HitsUnlessOrphaned | src/smb-sync-service.js:865-921 | The folder loop finds the database row of every folder it keeps exactly when none of them lies, in the tables before the loop, in the cascade of a replacement that comes first |
| SmbOrphans.GoneAsForeseen | src/smb-sync-service.js:682-704 | At each replacement in the loop the cascade takes, of the folders still there, exactly those that the condition foresees |
| SmbAgreement.AnchoredPassFindsFolders | src/smb-sync-service.js:842-905 | When every scanned folder above a moved one is in its place or new, every kept folder's UPDATE finds its row |
| SmbAnchors.AnchoredMovesAreNotNested | src/smb-sync-service.js:842-863 | In that case no folder is moved below its own mapped path, whatever earlier moves dragged along |
| SmbAgreement.AnchoredPassAgrees | src/smb-sync-service.js:820-1028 | Such a pass, if it returns with nothing rejected, ends in agreement |
| SmbAgreement.AgreementIsForest | src/smb-sync-service.js:869-905 | In agreement no mapped folder is its own ancestor, and its chain of database parents reaches the root in as many steps as its path has components |
| SmbNested.NestedMoveBreaksAgreement | src/smb-sync-service.js:820-1028 | Consistent tables and a well-formed scan for which a pass returns with nothing rejected, agreement fails, and the condition names a lost folder |
| SmbParentCycles.CyclesAreForeseen | src/smb-sync-service.js:665-704 | With room for every scanned folder, a pass that meets a cycle of parents was bound to by the tables and the scan, and a pass that returns was not |
| SmbParentCycles.MeetsExactlyForeseen | src/smb-sync-service.js:820-1028 | Among passes that return or meet a cycle, exactly those meet one of which the tables and the scan say so beforehand |
| SmbParentCycles.FolderScanMeetsExactly | src/smb-sync-service.js:865-921 | For a scan without files, with room and no kept folder lost, a pass whose moves succeed returns if and only if no cycle is foreseen |
| SmbParentCycles.AnchoredPassMeetsNoCycle | src/smb-sync-service.js:682-704 | When every scanned folder above a moved one is in its place or new, no pass meets a cycle, whatever the limits |
| SmbSelfParent.SelfParentStopsPass | src/smb-sync-service.js:665-680 | Consistent tables and a well-formed scan, far from every limit, for which the pass meets a cycle |
| SmbSwaps.SwappedFoldersThrow | src/smb-sync-service.js:706-751 | When two mapped folders swapped names below folders that stayed, the pass does not return |
| SmbSwaps.SwapThrows | src/smb-sync-service.js:706-751 | Such tables and such a scan |
| SmbBlockedMoves.MoveThrowsExactly | src/smb-sync-service.js:721-750 | A folder move throws if and only if another mapping holds the new path, or the path that some descendant is to get at the time it is rewritten |
| SmbCycles.EveryCycleAgrees | src/smb-sync-service.js:1083-1089 | In every run of reconciliation cycles with web uploads, folder creations, deletions and renamed projections between them, as long as no pass loses a kept folder or runs out of room for folders: every pass starts from and leaves consistent tables, also when it rejects files, and after each that rejects nothing the tables agree with the scan |
| SmbCycles.RunKeepsConstraints | src/smb-schema.js:25-36 | In every state of every such run, whatever its passes reject or lose, keys and paths are unique and no row is there twice |
| SmbRejections.RejectionsKeepConsistent | src/smb-sync-service.js:534-563 | A pass that returns with room for its folders and loses none of them leaves consistent tables whatever files it rejects |
| SmbCycles.FolderReprojected | src/smb-sync-service.js:326-369 | Renaming the projection of a folder below the mapping of its parent keeps what the next cycle needs |
| SmbCycles.RemovedIsConsistent | src/smb-sync-service.js:303-324 | Whatever was deleted from the web, removing the mappings of deleted objects leaves consistent tables for the pass |
| SmbCycles.Projected | src/smb-sync-service.js:1030-1081 | Mapping a new object below the mapping of its folder keeps what the next cycle needs |
| SmbRuns.PassKeepsConstraints | src/smb-schema.js:25-36 | Whatever the scan, a pass that returns leaves unique keys, paths unique ignoring case, no row twice and no identifier ahead of its time |
| SmbRuns.OnlyTheLimitRejectsFolders | src/smb-sync-service.js:906-918 | The UNIQUE error that is swallowed cannot occur; only the folder limit turns a scanned folder away |
| SmbQuota.PassKeepsQuota | src/smb-sync-service.js:504-643 | Imports, inode replacements, moves with growth, growth in place and deletions: a pass that returns keeps recorded bytes and counts of repository and server within limits that held before |
| ServerQuota.EveryStateIsWithinQuota | src/routes/repositories.js:164-198 | In every state of every run of upload commits, whole passes of any repositories, deletions, and creations and deletions of repositories, the recorded bytes and counts of each repository and of the server are within quota |
| ServerQuota.StepKeepsQuota | src/routes/repositories.js:777-800 | Each of these steps, checked against what all repositories use at that time, keeps the quota of all |
| SmbMoves.MoveMappingsResult | src/smb-sync-service.js:273-301 | A moved folder rewrites exactly its own row and the rows below its old path, keeping their tails, kinds, objects and inodes; every other row stays |
| SmbMoves.MoveMappingsSucceeds | src/smb-sync-service.js:721-744 | If nothing is mapped at or under the new path, no intermediate update breaks path uniqueness |
| SmbMoves.DistinctRebased | src/smb-sync-service.js:721-744 | A move keeps every row distinct |
| Text.LikeMatchesDescendants | src/smb-sync-service.js:275-283 | The escaped LIKE pattern matches exactly the strings that begin with the path and a slash, also for paths with %, _ and backslash |
| Names.SuffixNameInjective | src/smb-sync-service.js:98-104 | Different indices give names that differ even ignoring case and even when the stem is cut |
| Names.AllocationSucceeds | src/smb-sync-service.js:430-437 | The search for a name cannot fail while fewer than 9,999 of the taken names are among those it tries, however many others are taken |
| SmbTables.FolderNameIsFound | src/smb-sync-service.js:418-438 | A folder name is found while fewer than 9,999 siblings have one of the names that are tried |
| Names.AllocationFailsExactly | src/smb-sync-service.js:430-437 | It fails exactly when all 10,000 candidates are taken |
| SmbAllocation.AllocateRelativePath | src/smb-sync-service.js:161-181 | The result is the first candidate that conflicts with no mapping and no directory entry; None means all conflict; fewer than 9,999 conflicting candidates mean success |
| SmbAllocation.AllocatedIsFree | src/smb-sync-service.js:137-159 | The chosen path belongs to no other mapping and to no other directory entry, ignoring case |
| SmbAllocation.ConflictIsTaken | src/smb-sync-service.js:137-159 | A candidate conflicts exactly when its name is among the taken names of the directory and the mappings in it |
| SmbTables.RowAt | src/smb-sync-service.js:137-143 | The lookup by path ignores case and misses no row |
| SmbTables.RelocateMembers | src/smb-sync-service.js:128-135 | After the update of a mapping paths and keys are unique as before, every other row is still there and no other was added, and the mapped object is at its new path |
| SmbTables.UniqueFolderName | src/smb-sync-service.js:418-438 | The name differs from that of every sibling but the excluded folder |
| SmbTables.UniqueNameIsCandidate | src/smb-sync-service.js:418-438 | The name is the last component of the path, possibly cut and with an index |
| SmbTables.Cascade | src/database.js:153-162 | The cascade contains the deleted folders and is closed under children |
| SmbTables.CascadeWithin | src/database.js:153-162 | It is the least such set |
| SmbTables.RemoveTree | src/smb-sync-service.js:698-704 | Exactly the rows at the path and below it are deleted |
| SmbSync.LastAt | src/smb-sync-service.js:833 | The Map of scanned entries by path yields the last entry of that path, and nothing only if there is none |
| SmbLinks.RebasedParentRow | src/smb-sync-service.js:706-751 | Across a move the row at a row's parent path stays the row of the same object |
| SmbLinks.MoveFoldersKeepLinks | src/smb-sync-service.js:842-863 | Folder moves that are not nested keep every mapped object in the folder mapped at its parent path |
| SmbFolders.ReconcileFoldersSettle | src/smb-sync-service.js:865-921 | The folder loop of a clean pass leaves each scanned folder mapped by path and inode under its mapped parent |
| SmbFolders.ReconcileFoldersHit | src/smb-sync-service.js:865-905 | From linked tables every kept folder is found |
| SmbFolders.CascadeStaysBelow | src/smb-sync-service.js:682-704 | From linked tables the cascade of a folder reaches only objects mapped at or below its path |
| SmbFiles.MoveFilesKeep | src/smb-sync-service.js:938-949 | File moves leave settled folders alone |
| SmbFiles.ReconcileFilesSettle | src/smb-sync-service.js:951-1012 | The file loop of a clean pass leaves each scanned file mapped by path and inode, with its size and name, in its mapped folder |
| SmbIndexes.IndexStillTrusted | src/smb-sync-service.js:865-921 | The path index is right for every entry still to be visited although it is not rebuilt after every change |
| SmbIndexes.IndexAfterRemoval | src/smb-sync-service.js:951-958 | That includes a stale folder removed for a file whose import is then rejected |
| SmbRepository.Repository.SyncProjectionToDatabase | src/smb-sync-service.js:820-1028 | The pass with its cached indexes computes the function, and so ends in agreement exactly when no kept folder is taken along |
| SmbRepository.Repository.UniqueDatabaseFolderName | src/smb-sync-service.js:418-438 | The loop returns the first name that no sibling has |
| SmbRepository.Repository.UpdateFolderMappingPrefix | src/smb-sync-service.js:273-301 | The folder's row and then each descendant, or, after an error, none of them |
| SmbRepository.Repository.MoveFolderFromSmb | src/smb-sync-service.js:706-751 | Folder row and mappings together, or nothing |
| SmbRepository.Repository.CreateSmbFolderRecord | src/smb-sync-service.js:447-490 | A folder with its mapping, nothing at the limit or without a mapped parent |
| SmbRepository.Repository.DeleteFolderObject | src/smb-sync-service.js:682-704 | The folder's cascade and the mappings at or below its path |
| SmbRepository.Repository.DeleteFileObject | src/smb-sync-service.js:645-663 | The file row and its mapping |
| SmbRepository.Repository.EnforceSmbFileQuota | src/smb-sync-service.js:504-532 | The first limit that the change would break, over sums of the table |
| SmbRepository.Repository.ImportSmbFile | src/smb-sync-service.js:565-606 | A file with its mapping; nothing if a quota rejects it |
| SmbRepository.Repository.ReplaceMappedFile | src/smb-sync-service.js:608-643 | The new inode, or the stored one linked back when a quota rejects it |
| SmbRepository.Repository.MoveFileFromSmb | src/smb-sync-service.js:753-818 | The file follows its inode; rejected growth is cut back to the recorded size |
| SmbRepository.Repository.ApplyFolderMoves | src/smb-sync-service.js:842-863 | All inode-preserving folder moves, with the identity index rebuilt after each |
| SmbRepository.Repository.SyncFolders | src/smb-sync-service.js:865-921 | The folder loop with its cached path index equals the loop that looks up every row afresh |
| SmbRepository.Repository.SyncFiles | src/smb-sync-service.js:951-1012 | The same for the file loop and its snapshot of the files table |
| UploadQuota.UploadsStayWithinQuota | src/upload-storage.js:62-173 | Under any interleaving of uploads and deletions, stored plus reserved bytes and counts stay within every limit, per repository and for the server |
| UploadQuota.RunCommitsAccepted | src/routes/repositories.js:164-198 | In every such run the re-check at commit time accepts a batch of live reservations |
| UploadQuota.CommitNeverRejected | src/routes/repositories.js:777-795 | The same for any state that keeps the invariant |
| UploadQuota.StoreAllConserves | src/routes/repositories.js:777-795 | A commit moves its bytes and counts from the reservations to the table, in every scope |
| UploadQuota.BatchWithin | src/upload-storage.js:86-102 | A batch is no larger than the reservations it comes from |
| UploadQuota.EventKeepsInvariant | src/upload-storage.js:105-172 | Every step keeps the cached usage at or above the table and the charges within the limits |
| QuotaInterleaving.RecordedUsageStaysWithinQuota | src/routes/repositories.js:164-198 | Upload commits, SMB imports, replacements, growth and deletions in any order keep recorded usage within quota |
| QuotaSharing.StepFitsExactly | src/smb-sync-service.js:504-532 | From a state in which stored and reserved usage fits, it fits after an event if and only if what the event adds fits beside it, in its repository and in the server |
| QuotaSharing.RunFitsExactly | src/upload-storage.js:132-154 | In every run of uploads and SMB changes stored and reserved usage fits throughout if and only if every event fits beside it |
| QuotaSharing.MixedCommitsAccepted | src/routes/repositories.js:777-795 | In such a run every commit of live reservations is accepted |
| QuotaSharing.CoveredGrowFits | src/upload-storage.js:132-154 | A grow that is checked against usage covering the table fits beside everything |
| QuotaSharing.ImportIgnoresReservations | src/smb-sync-service.js:504-532 | An import is admitted that does not fit beside a reservation, and the commit is turned away |
| QuotaSharing.GrowTrustsStaleUsage | src/upload-storage.js:132-154 | After an import that fits beside everything a grow is admitted against older usage that does not, and the commit is turned away |
| QuotaCoordinator.SumUsage | src/upload-storage.js:67-103 | The loops and sums give the count and size in scope |
| QuotaCoordinator.Coordinator.Reserve | src/upload-storage.js:105-130 | Refreshes the cache, and reserves unless a count would be exceeded |
| QuotaCoordinator.Coordinator.Grow | src/upload-storage.js:132-154 | Adds the bytes unless a size limit would be exceeded by cached plus reserved bytes |
| QuotaCoordinator.Coordinator.CommitUploads | src/routes/repositories.js:777-800 | One row per upload, the reservations gone, the cache refreshed; after a rejection only the reservations are gone; without SMB changes it is never rejected |
| QuotaCoordinator.IncomingFile.OnChunk | src/upload-storage.js:191-211 | The counted size is always the reserved size |
| Sessions.RevokedNeverReturns | src/session-store.js:193-220 | A session revoked with a tombstone of the absolute lifetime is never returned again, whatever follows, if copies written later were created no later |
| Sessions.DestroyedNeverReturns | src/session-store.js:404-425 | The store's own destroy is such a revocation |
| Sessions.ShortTombstoneFails | src/session-store.js:271-275 | A tombstone shorter than the absolute lifetime lets a copy come back |
| Sessions.NoAbsoluteLifetimeFails | src/session-store.js:326-330 | Without an absolute lifetime every tombstone does |
| Sessions.RevocationExpiry | src/session-store.js:169-181 | The tombstone outlasts the minimum, the given lifetime and the stored expiry |
| Sessions.CreatedAt | src/session-store.js:183-191 | The creation time is one of the times that the session claims |
| Sessions.DeadStays | src/session-store.js:332-450 | Every operation of the store keeps a revoked id dead |
| SessionPruning.PrunedCount | src/session-store.js:505-536 | At most limit live sessions of the user stay, and exactly limit if there were more |
| SessionPruning.PrunedKeepsCurrent | src/session-store.js:521-525 | The current session stays if it was live |
| SessionPruning.PrunedKeepsBest | src/session-store.js:521-525 | Every session that stays ranks at or above every one that went |
| SessionPruning.PrunedNeverReturns | src/session-store.js:527-533 | A dropped session never comes back |
| SessionPruning.PurgedNeverReturns | src/session-store.js:538-575 | Nor does a purged one |
| SessionPruning.RankIsPosition | src/session-store.js:521-525 | The number of sessions ahead of one is its place in the sorted list |
| SessionStore.SQLiteSessionStore.Get | src/session-store.js:332-376 | Tombstone, expiry and corrupt payload each end the session; plaintext is re-encrypted |
| SessionStore.SQLiteSessionStore.Set | src/session-store.js:378-402 | Over-age sessions are revoked, tombstoned ones refused |
| SessionStore.SQLiteSessionStore.Touch | src/session-store.js:427-450 | The same for touch, which creates no row |
| SessionStore.SQLiteSessionStore.Destroy | src/session-store.js:404-425 | Tombstone and deletion |
| SessionStore.SQLiteSessionStore.PruneUserSessions | src/session-store.js:486-536 | Collects, sorts and revokes: exactly the expired rows and the lowest-ranked sessions go, each with a tombstone |
| SessionStore.SQLiteSessionStore.PurgeUserSessions | src/session-store.js:538-575 | All live sessions of the user but the excepted one go, each with a tombstone |
| RateLimitRuns.AttemptsAreBounded | src/middleware/login-rate-limit.js:101-151 | In every run a key holds at most maximum failures and live attempts, and inFlight is the number of its live reservations |
| RateLimitRuns.NeverReplaced | src/middleware/login-rate-limit.js:133-138 | The record of a live reservation is never replaced |
| RateLimitRuns.FailuresAreBounded | src/middleware/login-rate-limit.js:44-58 | Between two clears or evictions of a key, at most 2 * maximum failures fall in any window |
| RateLimitRuns.AttemptIsReserve | src/middleware/login-rate-limit.js:101-126 | Both checks and the reservation of an admitted request leave the map of the run's step |
| RateLimit.EvictKeeps | src/middleware/login-rate-limit.js:64-72 | Eviction drops idle records only |
| RateLimit.EvictBounds | src/middleware/login-rate-limit.js:64-72 | Beyond the limit only records with attempts in flight are left |
| RateLimit.RetrySecondsSuffice | src/middleware/login-rate-limit.js:84-93 | After the announced delay the window has run out, and not a whole second earlier |
| RateLimiter.AttemptLimiter.ReserveAttempts | src/middleware/login-rate-limit.js:95-126 | Both maps have room and count the attempt, or neither counts it; the delay is at least that of each blocked key |
| RateLimiter.AttemptLimiter.CompleteReservation | src/middleware/login-rate-limit.js:128-151 | Only the first completion has an effect, on both maps |
| RateLimiter.FailureMap.ActiveRecord | src/middleware/login-rate-limit.js:44-58 | Expired records restart or go |
| RateLimiter.FailureMap.EnforceMapLimit | src/middleware/login-rate-limit.js:64-72 | The loop over the live map is the eviction |
| RateLimiter.FailureMap.CompleteAttempt | src/middleware/login-rate-limit.js:133-148 | The completion of one entry |
| Crc32.Crc32 | src/seven-zip-parser-worker.js:66-82 | The table-driven loop computes the bit-at-a-time CRC-32 of section 8 of RFC 1952 for every byte string |
| Crc32.BuildTable | src/seven-zip-parser-worker.js:66-76 | Entry i is i after eight shifts |
| Crc32.ShiftsAreLinear | src/seven-zip-parser-worker.js:66-76 | Shifting is linear over xor |
| Crc32.EightShiftsByTable | src/seven-zip-parser-worker.js:78-82 | Eight shifts of a word are the table entry of its low byte xor its upper bytes |
| Crc32.BitsAreShifts | src/seven-zip-parser-worker.js:66-82 | Feeding message bits one at a time is shifting the register with the message added |
| SevenZipNumbers.NumberRoundTrip | src/seven-zip-parser-worker.js:146-178 | Reading inverts the canonical encoding of every value up to 2^53 - 1, takes exactly its bytes and ignores what follows |
| SevenZipNumbers.ReadNumber | src/seven-zip-parser-worker.js:146-178 | A number that is accepted consumed input inside the buffer and respects the maximum |
| SevenZipHeader.HeaderRoundTrip | src/seven-zip-parser-worker.js:405-461 | A header written for one packed stream and one coder is read back exactly |
| SevenZipHeader.PlainHeaderIsBounded | src/seven-zip-parser-worker.js:405-461 | An accepted plain header has one packed stream of bounded size, one supported coder, and an unpacked size between 1 and the limit |
| SevenZipHeader.ReadPackInfo | src/seven-zip-parser-worker.js:325-356 | Accepted pack information has a size per stream, within the limit in total |
| SevenZipHeader.ReadUnpackInfo | src/seven-zip-parser-worker.js:358-403 | Accepted unpack information has a size per output stream of every folder |
| SevenZipHeader.ReadFolder | src/seven-zip-parser-worker.js:272-323 | An accepted folder has a coder and an output stream, and consumed input |
| SevenZipArchive.AcceptedGeometry | src/seven-zip-parser-worker.js:463-496 | The packed metadata lies between the signature header and the next header, the next header lies in the file, and cumulative reads stay within the limit |
| SevenZipArchive.BoundedRead | src/seven-zip-parser-worker.js:215-240 | A read stays within its limit, the cumulative limit and the file |
| SevenZipArchive.BoundedFileSource.Read | src/seven-zip-parser-worker.js:215-240 | However the reads are split, the result is what the file holds in the range |
| SevenZipArchive.InspectSignatureAndHeader | src/seven-zip-parser-worker.js:463-496 | The inspection as it runs, with its reads counted |
| SevenZipReader.Cursor.ReadNumber | src/seven-zip-parser-worker.js:146-178 | The marker and byte loops read the number; the cursor stays in the buffer |
| SevenZipReader.ReadDefinedVector | src/seven-zip-parser-worker.js:257-266 | The loop counts the defined entries |
| SevenZipReader.ParseFolder | src/seven-zip-parser-worker.js:272-323 | The folder grammar |
| SevenZipReader.ParsePackInfo | src/seven-zip-parser-worker.js:325-356 | The property loop of PackInfo, which consumes input in every round |
| SevenZipReader.ParseUnpackInfo | src/seven-zip-parser-worker.js:358-403 | The property loop of UnpackInfo |
| SevenZipReader.InspectHeader | src/seven-zip-parser-worker.js:405-461 | The encoded header as a whole |
| ProtectedStreams.OutputIsPrefix | src/protected-file-stream.js:161-204 | In every run the output is a prefix of the first size bytes, complete when the destination was ended, and finalize takes effect exactly once |
| ProtectedStreams.WritesAreAuthorized | src/protected-file-stream.js:180-188 | Every chunk left under a positive answer of the same step, or one less than an interval old where a buffer permits it |
| ProtectedStreams.OutputNeedsAuthorization | src/protected-file-stream.js:121-141 | Bytes leave only in a step of the pump that is not stopped, and only after a yes |
| ProtectedStreams.StoppedStaysSilent | src/protected-file-stream.js:107-119 | Once stopped, revoked or finalized, no byte leaves for the rest of the run |
| ProtectedStreams.WithdrawnStaysSilent | src/protected-file-stream.js:121-141 | Once the callback no longer says yes, no byte leaves |
| ProtectedStreams.StepKeepsInvariant | src/protected-file-stream.js:66-212 | Every read, tick, drain, close, error and revocation keeps the invariant |
| ProtectedStreams.ContinueNeedsYes | src/protected-file-stream.js:315-332 | The buffer variant sends only under a fresh or a still valid answer |
| ProtectedStream.Stream.VerifyAuthorization | src/protected-file-stream.js:121-141 | The cached and the forced check |
| ProtectedStream.Stream.OnRead | src/protected-file-stream.js:172-194 | What happens when a read comes back |
| ProtectedStream.Stream.PumpOn | src/protected-file-stream.js:165-171 | From the loop test to the next await |
| RepositoryFolders.CreateKeepsForest | src/repository-folders.js:151-210 | A created folder is one level below its parent; depth at most 32 and distinct sibling names are kept |
| RepositoryFolders.DeleteKeepsForest | src/repository-folders.js:233-259 | So they are by a deletion |
| RepositoryFolders.FolderDepthIsExact | src/repository-folders.js:130-149 | In a forest the capped query gives the true depth |
| RepositoryFolders.BreadcrumbsAreComplete | src/repository-folders.js:67-89 | Breadcrumbs are the complete chain from the root |
| RepositoryFolders.Repository.CreateFolder | src/repository-folders.js:151-210 | The checks in their order, and the new row |
| RepositoryFolders.Repository.FolderTree | src/repository-folders.js:212-231 | The recursive query, level by level, ends and finds exactly the cascade |
| RepositoryFolders.Repository.UploadFile | src/routes/repositories.js:747-795 | A row in an existing folder, and a stored file of its own |
| RepositoryFolders.Repository.DeleteFolder | src/repository-folders.js:233-259 | The stored files of exactly the removed file rows are removed |
| RepositoryFolders.Repository.GetBreadcrumbs | src/repository-folders.js:67-89 | The climbing loop |
| ArchiveNames.NormalizeRoundTrip | src/archive-preview-security.js:6-30 | An emitted name parses to the components it was made from |
| ArchiveNames.JoinInjective | src/archive-preview-security.js:47-50 | Joined prefixes are distinct for distinct component lists |
| ArchiveTree.TreeBudget.Reserve | src/archive-preview-security.js:32-56 | The set is exactly the prefixes of the accepted lists, never beyond its limit; a list that does not fit changes nothing |
| ArchiveTree.ZipPreview.OnEntry | src/file-preview.js:388-425 | Every emitted entry has its prefixes in the budget; entries, name bytes and scanned entries stay within their limits |
| ArchiveTree.ClientTreeIsComplete | public/js/app.js:794-832 | The client builds one node per distinct prefix of the emitted entries, and its node limit is never felt |
| ArchiveTree.BuildArchiveTree | public/js/app.js:794-832 | The loops over entries and parts build that tree and count its nodes |
| ArchiveTree.PreviewTree | src/file-preview.js:388-425 | Whatever entries an archive reports, the client's tree has one node per distinct prefix of the emitted names, within its limit, and every emitted name stems from the archive |
| Utf8Truncation.PrefixMonotone | src/file-preview.js:136-151 | Longer prefixes take no fewer bytes, also where a surrogate pair is split |
| Utf8Truncation.TruncateUtf8 | src/file-preview.js:136-151 | The binary search finds the longest prefix that fits |
| Utf8Truncation.TruncateTwice | src/file-preview.js:290-293 | Truncating to a and then to b is truncating to the smaller |
| Utf8Truncation.BuildGrid | src/file-preview.js:282-297 | Every cell is cut to a prefix, and the whole grid stays within the response budget |
| Columns.NumberOfLabel | public/js/app.js:555-564 | Every column number survives printing and parsing |
| Columns.LabelOfNumber | src/file-preview.js:248-252 | Every label of letters A to Z survives parsing and printing |
| Columns.ColumnLabel | public/js/app.js:555-564 | The loop prints the label, and A for anything below 1 |
| Columns.ToColumnNumber | src/file-preview.js:248-252 | The loop parses letters of either case |

## Left out

- The direction from database to disk: `ensureProjectionState`; of `removeWebDeletedProjectionEntries`,
  `applyDatabaseChangesToMappedEntries` and `ensureUnmappedDatabaseProjection` what they do to the mapping
  table, one object at a time, and the allocation of names.
- SmbCycles.EveryCycleAgrees: after a pass that loses a kept folder, or that turns a folder away at the limit,
  only the constraints of the tables are promised (`RunKeepsConstraints`).
- SmbParentCycles.CyclesAreForeseen: when the limit on folders turns scanned folders away, the exact condition
  is not given; `AnchoredPassMeetsNoCycle` covers that case one way.
- Effects on disk: removal of rejected entries, truncation, links and modes. A file is its path, inode and
  size; a rejected file's truncation appears as the size that remains.
- The scan itself (its limits, links and special files); a scan is any list of paths distinct ignoring
  case, every entry inside a scanned folder.
- SmbAgreement.CleanPassAgrees: the names of folders and files agree with their paths for names that
  `uniqueDatabaseFolderName` and `safeOriginalName` leave as they are; trimming of blanks, control
  characters and Unicode normalization are not modelled.
- The states a pass leaves when it throws (statements that were committed before the error stay). For the
  quota, `QuotaInterleaving` covers them: there every import, replacement and resize is a step of its own.
- Swallowed `EEXIST` and `ENOENT` errors of file imports: an import links successfully or the pass throws.
- `windowsSafeComponent`, Unicode normalization and case folding outside ASCII: names are safe ASCII strings.
- Activity logs, access times, MIME types and creators.
- SmbAgreement.CleanPassAgrees: the stored inode of a file row is not compared with the mapped one, because
  whether both are one hard link is a fact of the disk.
- UploadQuota.UploadsStayWithinQuota: limits are fixed during a run; changes of settings are not modelled.
- Encryption of payloads (a payload decrypts or does not) and the keyed hash of session identifiers
  (injective); the legacy migration job.
- SessionStore.SQLiteSessionStore.PruneUserSessions: stored identifiers that are keyed hashes are in lower
  case, as the store writes them.
- RateLimitRuns.FailuresAreBounded: failures recorded without a reservation (a request that never passed the
  limiter) are not steps of a run.
- Record objects of the rate limiter are values with a serial number for their identity; the node objects of
  the client's tree are entries of one map keyed by path.
- ProtectedStreams.OutputIsPrefix: the content of the file does not change while it is streamed, except
  that it may be shorter than its recorded size; errors of the clean-up callbacks are not modelled.
- The entry listing of 7z archives behind the header (decoded by a library), worker life cycle, ExcelJS and
  yauzl; the ZIP preview starts from the entries that the library reports.
- Name bytes in archive previews are counted for ASCII names.
- Web folder names are taken as already trimmed and normalized.
- Express routing, views, translations, WebAuthn, TOTP, storage relocation and configuration parsing.
