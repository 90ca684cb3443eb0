# fvfs: a verified model of the tiered store

fvfs keeps files on three tiers (a local disk, a NAS and S3) behind one tree of paths. A SQLite index
holds a row per path with a digest and a bitmask of the tiers that have a copy; a write-ahead log
(`wal_pending`) holds the copies still to be made; a queue holds files to bring back to the local disk.
This project models that protocol, the metadata store under it, the background work around it, and the
smaller algorithms that compose with it (path algebra, key encodings, watermark eviction, migration, the
client's cache, the FUSE splice and paging), and proves what they keep. `dafny verify dfyconfig.toml`
checks everything.

## What is proved

- **Interleavings** (`interleaving.dfy`). Any number of reads, evictions, promotions, replications and
  uploads advance one backend call or SQL statement at a time, in any order, and may stop anywhere. The
  current version of every file stays physically on the local disk or on S3, and a read that finishes has
  that version. The proof is a rely-guarantee argument over the rows and the bitmask snapshots the tasks
  carry. A write, mkdir or delete runs while no task is under way on its own path. `solo_tasks.dfy` joins the
  two grains: a task left alone until it ends is its serialised operation.
- **Serialised runs** (`protocol.dfy`, `serial_runs.dfy`). Under every pattern of backend failures the
  store refines one plain map from paths to directories and file bytes.
- **Effects** (`effects.dfy`). For every operation and every pattern of failures, exactly when it succeeds and
  what it then does to each object, row and entry, with everything else left alone; and that no WAL entry of a
  file leaves without the copy it stands for, unless the file is deleted.
- **The WAL** (`wal_properties.dfy`, `write_results.dfy`, `replay_confluence.dfy`, `crash_replay.dfy`,
  `background.dfy`, `interleaved_wal.dfy`). Which files it covers and when a write is refused (both exactly);
  that replay under interruption at any statement is idempotent, and confluent from every state a crash can
  leave exactly when no file is torn, so after every serialised run; that the replay loop with healthy
  backends reaches that one outcome; that a flush tries each live upload exactly once; that in every
  serialised run entries never reach another file although row ids are reused; and bounds on attempts and
  sleeping.
- **Promotion** (`promotion_drain.dfy`): the queue drains although promotion's own read may refill it.
- **Eviction** (`eviction.dfy`): exact byte accounting whatever fails, and an exact description of the
  files chosen.
- **Paths and encodings** (`paths.dfy`, `like_query.dfy`, `object_keys.dfy`, `tree_index.dfy`).
- **Migration, client cache, FUSE** (`migration.dfy`, `client_cache.dfy`, `fuse.dfy`).

`store.dfy`, `router.dfy`, `background.dfy`, `eviction.dfy`, `migration.dfy`, `client_cache.dfy` and
`fuse.dfy` hold the imperative form: classes and loops, each proved equal to a function on values
(`Protocol.Write`, `EvictList`, `UploadAll`, `SweepAll`, ...); the theorems are about those functions.

## What the code turned out not to do

Each is a lemma with the exact condition under which the code does what is expected of it, and a lemma with
inputs or a run in which it does not; the runs, from an empty store and for every path, are in
`scenarios.dfy`.

- `upsert` documents "returns the row id" and returns `last_insert_rowid()`. On the update branch that is
  whatever was inserted last, in either table (`Store.UpsertAnswersRowId`, if and only if). So an overwrite
  queues its two WAL entries under another row's id, or is refused by the foreign key although the disk and the
  index already hold the new bytes.
  - A write is accepted exactly under `WriteResults.WriteSucceedsIff`. After a restart, until a new path is
    written, every overwrite is refused (`WriteResults.RestartRefusesOverwrites`; for every path,
    `WriteResults.OverwriteRefused`).
  - A write keeps every file covered exactly when `WriteGuard` holds (`WalProperties.WriteCoverage`); a file
    written, uploaded and written again has no upload pending (`WalProperties.OverwriteLosesUpload`).
- A daemon that stops between the delete and the bitmask update of a NAS eviction leaves a file that S3
  holds and no read can serve again, because a failed NAS read does not fall through to S3. A read succeeds
  exactly under `Interleaving.HealthyReadSucceedsIff`; the file stays unreadable until a user changes the path
  itself (`BlockedReads.StalledEvictionBlocksReads`), and this can happen to every path
  (`Scenarios.StalledEvictionHappens`).
- Replay is not confluent from every state a crash leaves. A file is torn when its bytes are on the local disk
  unmarked, its bitmask sends readers to a NAS object that is gone, and both its entries are live: replicating
  first lets the upload succeed, uploading first uses up its attempts. Replays agree exactly when no file is
  torn (`CrashReplay.CrashReplayConfluentIff`), and every file can be (`CrashReplay.TornHappens`).
- WAL entry ids are reused too. A task that stands before the removal of its entry while its file is deleted and
  another is written removes the new file's upload. A removal keeps every file covered exactly under
  `WalProperties.CompleteCoverage`; the run is `InterleavedWal.LateRemovalUncovers`.
- `safe_to_evict_from` documents "all colder tiers" and asks for S3: the two agree on the NAS, never on S3,
  and on the local disk exactly when a file on S3 is on the NAS too (`Tiers.SafeToEvictMeetsDoc`). A file the
  NAS never held loses its local copy (`Scenarios.EvictedWithoutNas`).
- `files_on_tier` documents an order by eviction score and orders by access time: that is the score order
  under every policy without negative weights exactly when access counts never fall along the list
  (`Eviction.AccessOrderIsScoreOrder`); with the default weights it can differ (`Eviction.AccessOrderDiffers`).
  The cycle sorts again, so access time only breaks its ties.
- `delete` takes non-empty directories; the index stays a tree exactly when the row was childless
  (`TreeIndex.DeleteStepKeepsTree`, `Scenarios.DeleteOrphans`).
- SQLite's `LIKE` folds ASCII case, so listing a directory can show another's children, and the root's
  listing shows the root's own row (`LikeQuery.ListDirExact`, `LikeQuery.ListDirCrossesCase`).
- With an S3 prefix of two or more bare slashes, listing the root selects nothing; every other listing is
  exact (`ObjectKeys.ListingExact`, if and only if; `ObjectKeys.BareSlashesListNothing`).
- Migration gives a path only to the first file of each content: when nothing fails, a path is in the bucket
  and the index exactly when it has such a file (`Migration.OnlyFirstsIndexed`,
  `Migration.DuplicatePathVanishes`). It adds no rows for parent directories: the index is a tree exactly when
  the uploads provide them (`Migration.MigrationTreeIff`), and without a source for the root it never is
  (`Migration.MigrationIndexesNoRoot`).
- A FUSE write of no bytes past the end grows the file (`Fuse.SpliceMatchesPosix`, if and only if;
  `Fuse.EmptyWriteExtends`), and a write after a failed read drops the file's bytes
  (`Fuse.FailedReadLosesBytes`, exactly when that is harmless; `Scenarios.FailedReadRun`).

## Assumptions

- A failed `put` leaves the store unchanged (the disk backend really truncates first,
  fvfs-core/src/backend/local.rs:44-46), and so does a failed cache write.
- SQL statements succeed, other than the foreign-key check, which is modelled.
- SHA-256 is collision-free: a digest is a constructor applied to the content.
- Which calls fail, the schedule of interleaved tasks, the clock, the order of WAL entries queued at the same
  time and the room in a directory reply are parameters, and the theorems hold for all of them. One reading
  of the clock serves a whole sort. Scores are real numbers.
- Row columns that no modelled decision reads (`created_at`, `modified_at`, `mime_type`, `last_error`) and the
  promotion signal's `from` tier, which is only logged, are dropped.
- `evict_if_needed` documents "until below `max_bytes`" and stops at three quarters of what was used if that
  is less. The model follows the code.
- The branches for a WAL entry whose file is gone are kept in `Protocol.Attempt` and
  `Interleaving.Advance`. `Background.TryEntry` has no such branch: the foreign key it proves from makes it
  unreachable.

## Model

| member | source | states |
|---|---|---|
| `Interleaving.AdvanceOk` | fvfsd/src/router.rs:144-223 | One backend call or SQL statement of any read, eviction, replication, upload or promotion keeps every file safe and every remembered bitmask truthful enough to be written back |
| `Interleaving.UserChangeSafe` | fvfsd/src/router.rs:46-137 | A write, mkdir or delete of a path no task is working on keeps every file safe |
| `Interleaving.ExecInvariant` | fvfsd/src/wal_replay.rs:85-118 | The invariant over rows, copies and in-flight bitmask snapshots holds after every interleaving, including tasks that stop anywhere |
| `Interleaving.CurrentVersionSurvives` | fvfsd/src/router.rs:299-328 | In every interleaving the tables stand for the map the users built, and each file's current version is on the local disk or on S3; local is never stale |
| `Interleaving.ReadsReturnCurrent` | fvfsd/src/router.rs:144-223 | In every interleaving, a read that finishes with bytes has the file's current version |
| `Interleaving.HealthyReadSucceedsIff` | fvfsd/src/router.rs:157-188 | With healthy backends a read succeeds exactly when the first tier its bitmask leads to has the object |
| `BlockedReads.StalledEvictionBlocksReads` | fvfsd/src/router.rs:316-325 | From any reachable state with the file on the NAS and S3, not on local, and no task on it: once a NAS eviction has stopped between the delete and the bitmask update, no read succeeds again, through any further moves and restarts, until a user changes the path; S3 holds the bytes all along |
| `BlockedReads.StaysBlocked` | fvfsd/src/router.rs:165-201 | No read, eviction, replication, upload, promotion, restart or change of another path ends the blockage |
| `Scenarios.StalledEvictionHappens` | fvfsd/src/router.rs:299-328 | For every path and content: write, replicate, upload, evict from local, stall, and the file is unreadable |
| `SoloTasks.SoloRead` | fvfsd/src/router.rs:144-223 | A read run alone, call by call, is the serialised read: same state, same bytes or failure |
| `SoloTasks.SoloEvict` | fvfsd/src/router.rs:299-328 | An eviction run alone is the serialised eviction |
| `SoloTasks.SoloEntry` | fvfsd/src/wal_replay.rs:58-144 | A replication or an upload run alone is one serialised attempt at its entry |
| `SoloTasks.SoloPromote` | fvfsd/src/main.rs:133-155 | A promotion run alone is one serialised turn of the promotion task |
| `SerialRuns.WriteRefines` | fvfsd/src/router.rs:46-100 | A write keeps every copy rule and does to the plain map what its specification says, whether or not the put fails or the entries are refused |
| `SerialRuns.MkdirRefines` | fvfsd/src/router.rs:103-137 | mkdir puts a directory and its missing ancestors into the plain map |
| `SerialRuns.DeleteRefines` | fvfsd/src/router.rs:229-266 | delete removes the path from the plain map whatever backend deletes fail |
| `SerialRuns.ReadCurrent` | fvfsd/src/router.rs:144-197 | A read answers with the current content or an error; with healthy backends it answers |
| `SerialRuns.EvictRefines` | fvfsd/src/router.rs:299-328 | An eviction, successful or not, leaves the plain map and the truth of every bitmask alone |
| `SerialRuns.PromoteRefines` | fvfsd/src/main.rs:133-155 | So does a promotion, under any failures |
| `SerialRuns.AttemptRefines` | fvfsd/src/wal_replay.rs:58-144 | So does one attempt at a WAL entry, by replay or by the uploader, with its completion or failure record |
| `SerialRuns.StepRefines` | fvfsd/src/router.rs:46-328 | Every operation keeps the invariant and matches its step on the plain map |
| `SerialRuns.SerialRefinement` | fvfsd/src/router.rs:46-328 | After every serialised run a successful read returns what the plain map holds, healthy reads of files succeed, missing paths and directories give their errors |
| `SerialRuns.CopiesAreCurrent` | fvfsd/src/router.rs:157-188 | After every run a file's bitmask is not empty, every tier it names holds the current bytes, and local holds them or nothing |
| `SerialRuns.WriteLeavesColdCopies` | fvfsd/src/router.rs:55-76 | A write leaves the NAS and S3 as they were, so they may hold the old version; the bitmask then names local alone |
| `Effects.ReadSucceedsIff` | fvfsd/src/router.rs:144-223 | Under any failures a read succeeds if and only if some tier answers it (local if it serves, else the NAS if it is named, else S3), with that tier's bytes; it counts the access, asks for a promotion exactly when the tier was not local, and changes nothing when it fails |
| `Effects.WriteEffect` | fvfsd/src/router.rs:55-76 | A write that reaches the disk puts its bytes there, gives the row their size and digest, the local tier alone, the time of the write and a count of zero, and touches no other object or row; a failed put changes nothing |
| `Effects.WriteQueues` | fvfsd/src/router.rs:88-97 | An accepted write adds exactly two untried WAL entries, a replication and an upload |
| `Effects.MkdirEffect` | fvfsd/src/router.rs:103-111 | mkdir writes a directory row that names every tier and touches no object |
| `Effects.DeleteEffect` | fvfsd/src/router.rs:229-266 | delete succeeds if and only if the path has a row; for every failure pattern, tier and path, the object goes exactly where the row named the tier and the call did not fail, and everything else stays |
| `Effects.EvictEffect` | fvfsd/src/router.rs:299-328 | An eviction succeeds if and only if S3 is named, the tier is not S3, it has the object and the call does not fail; then that object and that bit go and nothing else |
| `Effects.PromoteEffect` | fvfsd/src/main.rs:133-155 | Under any failures: the bytes of the tier that answers come to the local disk and the row is marked, if the put does not fail; if no tier answers only the signal goes |
| `Effects.RestartEffect` | fvfsd/src/main.rs:114-131 | A restart loses the promotion signals and the connection's last inserted id, and nothing that is stored |
| `Effects.ObjectsChangeOnlyWhereTouched` | fvfsd/src/router.rs:46-328 | For every event, tier and path: the object changes only where that event's own call, if it does not fail, reaches it; reads, mkdir and restarts change none |
| `Scenarios.StaleCopy` | fvfsd/src/router.rs:55-76 | Write, upload, write again: S3 holds the first version of a file that is the second, and only the bitmask hides it |
| `Router.TierRouter.Write` | fvfsd/src/router.rs:46-100 | Result and whole new state of `write`: the local put, the row, the ancestors and the two WAL entries under the id `upsert` returned |
| `Router.TierRouter.Mkdir` | fvfsd/src/router.rs:103-111 | Whole new state of `mkdir` |
| `Router.TierRouter.EnsureParentDirs` | fvfsd/src/router.rs:114-137 | The loop up to the root terminates and indexes exactly the ancestors that had no row |
| `Router.TierRouter.Read` | fvfsd/src/router.rs:144-197 | Result, access statistics and promotion signal of `read` |
| `Router.TierRouter.ReadFromNasOrS3` | fvfsd/src/router.rs:199-223 | The fallback takes the first colder tier the bitmask names, without falling through on failure |
| `Router.TierRouter.Delete` | fvfsd/src/router.rs:229-266 | Result and whole new state of `delete`, whose effect on every tier under every failure is `Effects.DeleteEffect` |
| `Router.TierRouter.EvictFromTier` | fvfsd/src/router.rs:299-328 | Result and whole new state of `evict_from_tier`, with each of its refusals |
| `Store.NextRowId` | fvfs-core/src/metadata.rs:368-370 | A new id is one above the largest in use, and 1 in an empty table |
| `Scenarios.RowIdReused` | fvfs-core/src/metadata.rs:368-370 | Two children of the root, one written after the other was deleted, get the same row id |
| `Store.Upserted` | fvfs-core/src/metadata.rs:54-90 | An insert takes a fresh id and makes it the last inserted one; an update keeps the id and the last inserted one; other rows and the WAL stay |
| `WriteResults.WriteSucceedsIff` | fvfsd/src/router.rs:78-99 | A write whose put succeeds reports success if and only if the path is new, some row has the id inserted last, or a directory row it adds gets that id; whatever it reports, disk and index hold the new bytes |
| `WriteResults.EnsureParentIds` | fvfsd/src/router.rs:114-137 | Indexing the missing ancestors hands out the next row ids, one for each |
| `WriteResults.RestartRefusesOverwrites` | fvfs-core/src/metadata.rs:89 | After any run and a restart, until something new is inserted, every overwrite gets the foreign-key error with the new bytes on disk and in the index |
| `WriteResults.OverwriteRefused` | fvfsd/src/router.rs:88-96 | For every path: written, restarted, written again, refused, and changed all the same |
| `Store.UpsertAnswersRowId` | fvfs-core/src/metadata.rs:53-90 | The returned id is the row's own exactly when the path was new or its row was the last insert |
| `Store.SetBitmask` | fvfs-core/src/metadata.rs:149-156 | Changes the bitmask of the row with the id and nothing else |
| `Store.Accessed` | fvfs-core/src/metadata.rs:159-167 | Changes the access time and count of the row with the id and nothing else |
| `Store.DeleteRow` | fvfs-core/src/metadata.rs:170-174 | Removes the row and, by the cascade, exactly the WAL entries that reference it |
| `Store.PathOfId` | fvfs-core/src/metadata.rs:108-120 | Finds the row with the id exactly when there is one |
| `Store.Enqueue` | fvfs-core/src/metadata.rs:231-239 | Adds a fresh entry with no attempts, or is refused exactly when no row has the id |
| `Store.RecordFailure` | fvfs-core/src/metadata.rs:249-256 | Adds one to the attempts of that entry only |
| `Store.EnsureParents` | fvfsd/src/router.rs:114-137 | The index gains exactly the missing ancestors, as directories; existing rows stay |
| `Store.MetadataStore.Upsert` | fvfs-core/src/metadata.rs:54-90 | The table update of `upsert` in place, and the last inserted id as its answer |
| `Store.MetadataStore.GetById` | fvfs-core/src/metadata.rs:108-120 | The search by id answers as `PathOfId` |
| `Store.MetadataStore.SetTierBitmask` | fvfs-core/src/metadata.rs:149-156 | The in-place bitmask update keeps the schema |
| `Store.MetadataStore.RecordAccess` | fvfs-core/src/metadata.rs:159-167 | The in-place statistics update keeps the schema |
| `Store.MetadataStore.Delete` | fvfs-core/src/metadata.rs:170-174 | The in-place delete with its cascade keeps the foreign key |
| `Store.MetadataStore.WalEnqueue` | fvfs-core/src/metadata.rs:231-239 | The in-place insert, or the foreign-key error with nothing changed |
| `Store.MetadataStore.WalComplete` | fvfs-core/src/metadata.rs:242-246 | Removes that entry |
| `Store.MetadataStore.WalRecordFailure` | fvfs-core/src/metadata.rs:249-256 | Counts that failure |
| `Store.MetadataStore.WalPending` | fvfs-core/src/metadata.rs:259-290 | Lists every pending entry exactly once, earlier queued first |
| `WalProperties.WriteCoverage` | fvfsd/src/router.rs:78-96 | A write keeps every file on S3 or with an upload pending if and only if the path is new, its row is the last insert, or its upload is pending already |
| `WalProperties.GuardedRunsCovered` | fvfsd/src/s3_uploader.rs:104-137 | Runs whose writes meet that guard keep every file row marked on S3 or with a pending upload, exhausted entries included |
| `WalProperties.WalCoverage` | fvfsd/src/router.rs:78-96 | In such a run every file's current bytes are on S3 or its upload is pending |
| `WalProperties.CompleteCoverage` | fvfs-core/src/metadata.rs:242-246 | Removing an entry keeps every file covered if and only if it is no upload, its file is on S3, or another upload of the file is pending |
| `InterleavedWal.LateRemovalUncovers` | fvfsd/src/s3_uploader.rs:119-125 | A task that removes its entry after its file was deleted and another written takes the new file's upload, for every two paths |
| `WalProperties.FreshWritesAreGuarded` | fvfs-core/src/metadata.rs:53-90 | Runs that write only paths without a row meet the guard |
| `WalProperties.OverwriteLosesUpload` | fvfs-core/src/metadata.rs:89 | For every path: written, uploaded and written again, it has no upload pending |
| `WalProperties.StepKeepsIdentity` | fvfs-core/src/metadata.rs:386-393 | Every operation keeps rows' ids and entries' files, and a row disappears only with its entries |
| `WalProperties.AttemptsStayBounded` | fvfsd/src/wal_replay.rs:47-56 | Over all restarts, replays and flushes no stored count exceeds ten |
| `WalProperties.EntriesKeepTheirFile` | fvfs-core/src/metadata.rs:367-393 | In every serialised run each pending entry denotes the row, and the incarnation of it, that it was queued for, so the deleted-file branches never run |
| `ReplayConfluence.RunEntryEffect` | fvfsd/src/wal_replay.rs:85-118 | With healthy backends a replication succeeds exactly when the local copy exists, an upload exactly when the file can be read; it then puts the current bytes and adds one bit |
| `ReplayConfluence.ReplayOneStable` | fvfsd/src/wal_replay.rs:43-146 | A whole attempt, one cut after an upload's read, after the put or after the bitmask, or a restart leaves the final outcome where it was |
| `ReplayConfluence.ReplayConfluent` | fvfsd/src/wal_replay.rs:43-146 | From any state whose bitmasks tell no lies and no file is torn, two replays in any orders, interrupted and restarted anywhere, end with the same NAS, S3, bitmasks and remaining WAL, computed from the start state alone |
| `ReplayConfluence.SerialReplayConfluent` | fvfsd/src/wal_replay.rs:43-146 | After every serialised run replays agree, and every file can be read |
| `ReplayConfluence.ReplayUploadsEverything` | fvfsd/src/wal_replay.rs:102-126 | From the same states, a finished replay has removed every live upload of a readable file, with the bit set and S3 current |
| `CrashReplay.ConfluentIffUntorn` | fvfsd/src/wal_replay.rs:43-146 | Where bitmasks tell no lies, all finished replays agree if and only if no file is torn |
| `CrashReplay.CrashReplayConfluentIff` | fvfsd/src/wal_replay.rs:43-146 | After every interleaving with tasks stopped anywhere, all finished replays agree if and only if no file is torn |
| `CrashReplay.CrashReplayUploads` | fvfsd/src/wal_replay.rs:102-126 | And then every live upload of a readable file is done |
| `CrashReplay.TornHappens` | fvfsd/src/router.rs:316-325 | For every path and content there is an interleaving that leaves the file torn and its replays at odds |
| `ReplayConfluence.FinishedReplayIdle` | fvfsd/src/wal_replay.rs:48-56 | Replaying again after the end changes nothing |
| `Background.DoublingCapped` | fvfsd/src/wal_replay.rs:142 | The doubling-and-cap update computes the next of min(500*2^k, 30000) |
| `Background.TenBackoffs` | fvfsd/src/wal_replay.rs:15-16 | Ten sleeps come to 151500 ms |
| `Background.RunOperation` | fvfsd/src/wal_replay.rs:85-118 | The two operations on the router: result and whole new state, whose effect under every failure is `Effects.AttemptEffect` |
| `Effects.AttemptEffect` | fvfsd/src/wal_replay.rs:85-140 | Under any failures an attempt removes its entry if and only if the source can be read and the put does not fail; then the bytes are on its tier and the row is marked there; otherwise no object or bitmask changes and the entry has one more attempt; other entries stay |
| `Effects.AttemptDelivers` | fvfsd/src/wal_replay.rs:85-140 | Where bitmasks tell the truth, under any failures: an attempt that removes a file's entry has put the file's content on its tier and marked it; one that keeps it has changed nothing but its count |
| `Effects.EntriesLeaveDelivered` | fvfsd/src/wal_replay.rs:120-140 | In every serialised run, under every failure pattern, an entry for a file leaves the WAL only when the file is deleted or its current bytes are on the entry's tier and marked |
| `Effects.TenAttempts` | fvfsd/src/wal_replay.rs:15-56 | An attempt is made exactly while at most nine failures are stored; from ten on it changes nothing |
| `Background.TryEntry` | fvfsd/src/wal_replay.rs:58-144 | One attempt on the router is one step of a serialised run, and it reports success exactly when the entry is gone |
| `Background.AttemptCounts` | fvfsd/src/wal_replay.rs:136-140 | An attempt that leaves its entry adds exactly one to its count; other entries stay |
| `Background.ReplayEntry` | fvfsd/src/wal_replay.rs:44-145 | The retry loop ends with the entry gone or exhausted, stored attempts follow the counter, the k-th attempt meets the k-th scheduled failures, the k-th sleep is the k-th backoff, the total at most 151500 ms |
| `Background.ReplayWal` | fvfsd/src/wal_replay.rs:43-146 | Replay is a serialised run in which the k-th attempt at each entry meets its k-th scheduled failures; it leaves no live entry and sleeps after each failed attempt the backoff of its number, at most 151500 ms per entry; with no failures, from states as above, it ends with exactly the outcome computed from the start |
| `Background.HealthyRunIsReplay` | fvfsd/src/wal_replay.rs:43-146 | A run of healthy attempts is a replay of whole steps |
| `Background.ReplaySettles` | fvfsd/src/wal_replay.rs:47-56 | From any state and any interruption, whole attempts bring a replay to its end |
| `Background.InterruptedReplayFinishes` | fvfsd/src/wal_replay.rs:43-146 | From those states, however a replay was interrupted, going on healthily can bring it to its end, and that end is the one outcome |
| `Background.FlushPending` | fvfsd/src/s3_uploader.rs:66-139 | Exactly the live uploads are tried, once each with their scheduled failures: each is then gone or has exactly one more attempt, other entries stay; with no failures every upload of a file is gone, marked and current on S3 |
| `Background.ServeSignal` | fvfsd/src/main.rs:133-155 | One turn of the promotion task |
| `Background.DrainQueue` | fvfsd/src/main.rs:133-155 | Serving signals empties the queue within twice its length and leaves the plain map alone |
| `PromotionDrain.PromoteDecreases` | fvfsd/src/main.rs:133-155 | Queue length plus queued files not readable locally strictly decreases, although promotion's read may requeue |
| `PromotionDrain.QueueDrains` | fvfsd/src/router.rs:157-183 | After any run, twice the queue's length in steps empties it with every queued file on the local disk |
| `Eviction.BytesOnTier` | fvfs-core/src/metadata.rs:196-204 | The loop computes the sum of the sizes of the files on the tier |
| `Eviction.ClearLowersBytes` | fvfs-core/src/metadata.rs:196-204 | Clearing one file's bit takes exactly its size off that sum |
| `Eviction.FilesOnTier` | fvfs-core/src/metadata.rs:177-193 | Lists the files whose row names the tier, each once with its row, older access first |
| `Collections.SortRanks` | fvfs-core/src/eviction.rs:40-50 | A stable sort by one key of a list in the order of another ranks by the first, ties by the second |
| `Eviction.RankFiles` | fvfsd/src/eviction_task.rs:99-104 | The ranked list holds the tier's files once each, by score (as the next rows pin it), then by older access |
| `Eviction.RecencyScore` | fvfs-core/src/eviction.rs:30-36 | On recency alone a score is one over the seconds since the access, at least one second |
| `Eviction.ScoreIsWeightedSum` | fvfs-core/src/eviction.rs:30-36 | Every score is the weighted sum of the recency score and the access count |
| `Eviction.LaterAccessWins` | fvfs-core/src/eviction.rs:30-36 | With equal counts and a positive recency weight, the later access scores strictly higher if and only if the other was more than a second ago |
| `Eviction.MoreAccessesWin` | fvfs-core/src/eviction.rs:30-36 | With equal times and a positive frequency weight, the higher count scores strictly higher, and only that |
| `Eviction.RankedColderFirst` | fvfs-core/src/eviction.rs:40-50 | No file ranks before one accessed no later and counted no more often, unless they agree in both or only in the time and frequency has no weight |
| `Eviction.RecencyDecides` | fvfs-core/src/eviction.rs:20-27 | With the default weights a file just read once outscores one read twice long ago |
| `Eviction.AccessOrderIsScoreOrder` | fvfs-core/src/metadata.rs:176-187 | Access order is score order under every policy without negative weights if and only if access counts never fall along the list |
| `Eviction.AccessOrderDiffers` | fvfs-core/src/eviction.rs:29-37 | With the default weights a file read ten times long ago outscores one read once lately |
| `Eviction.EvictUntil` | fvfsd/src/eviction_task.rs:106-132 | The loop with its early exit leaves what trying every ranked file would leave |
| `Eviction.EvictionPass` | fvfsd/src/eviction_task.rs:106-132 | Whatever evictions fail: bits change for exactly the evicted files, bytes drop by exactly what was freed, and enough is freed or every file left lacks S3 or failed; with no failure the shortest sufficient prefix of the S3-backed files goes |
| `Eviction.EvictListKeepsTree` | fvfsd/src/router.rs:299-328 | From any reachable state the cycle keeps the plain map, and an eviction fails only if the backend did |
| `Eviction.RunEvictionCycle` | fvfsd/src/eviction_task.rs:56-132 | A cycle does nothing at or below the high watermark; above it the tier ends at or below the low one or every file left lacks S3 or failed, with exact accounting and the coldest files gone first |
| `Eviction.LastEvictionNeeded` | fvfsd/src/eviction_task.rs:106-112 | No eviction is needless: before the last one the tier was above the low watermark |
| `Eviction.EvictedAreColdest` | fvfsd/src/eviction_task.rs:99-132 | Whatever fails: no file left on the tier with the S3 bit, unless its own eviction failed, ranks before one that went, and the overshoot is less than the last file evicted |
| `Eviction.ShortestPrefixUnique` | fvfsd/src/eviction_task.rs:106-132 | The ranking and the target determine the files chosen |
| `Paths.NormalizePath` | fvfs-core/src/types.rs:65-100 | The loop over components computes the normal form, or the error; the next rows say which |
| `Paths.NormalizeIsJoin` | fvfs-core/src/types.rs:65-74 | Normalising a text is joining it to the root |
| `Paths.JoinPiece` | fvfs-core/src/types.rs:76-93 | Joining one piece: "" and "." stay, ".." goes to the parent and stays at the root, NUL is refused, any other piece goes below; with `JoinJoin` this gives every join and so every normal form |
| `Paths.NormalizeTotal` | fvfs-core/src/types.rs:65-100 | Normalising succeeds exactly on non-empty strings without NUL, and yields canonical paths |
| `Paths.NormalizeFixesCanonical` | fvfs-core/src/metadata.rs:341 | A stored path reads back as itself |
| `Paths.NormalizeIdempotent` | fvfs-core/src/types.rs:65-100 | Normalising twice is normalising once |
| `Paths.JoinJoin` | fvfs-core/src/types.rs:56-63 | Joining a then b is joining a/b, errors included |
| `Paths.SegmentsOfParent` | fvfs-core/src/types.rs:25-43 | `parent` drops the last segment and `file_name` is that segment |
| `Paths.JoinParentFileName` | fvfs-core/src/types.rs:25-63 | Joining the parent and the name restores the path |
| `Paths.IsPrefixOfIffAncestor` | fvfs-core/src/types.rs:46-53 | `is_prefix_of` holds exactly when repeated `parent` leads from one to the other |
| `Paths.AncestorsExact` | fvfsd/src/router.rs:114-137 | The ancestors the loop visits are exactly the strict ones |
| `TreeIndex.DeleteKeepsClosed` | fvfsd/src/router.rs:229-266 | Deleting a row keeps every parent indexed exactly when it had no children |
| `TreeIndex.DeleteStepKeepsTree` | fvfsd/src/router.rs:229-266 | The same of a delete after any run, whatever backend calls fail |
| `Scenarios.DeleteOrphans` | fvfsd/src/router.rs:229-266 | Writing a path and deleting its parent leaves the path indexed without it |
| `TreeIndex.AncestorsStayIndexed` | fvfsd/src/router.rs:103-137 | Every run that deletes only childless rows keeps all ancestors of every row indexed |
| `LikeQuery.EscapeLikeIsCharwise` | fvfs-core/src/metadata.rs:358-362 | The three replacements in sequence escape each special character once |
| `LikeQuery.LikeEscaped` | fvfs-core/src/metadata.rs:135-141 | An escaped text in a LIKE pattern matches itself up to ASCII case and nothing else |
| `LikeQuery.ListDirExact` | fvfs-core/src/metadata.rs:123-146 | A listing is exactly the stored paths whose parent is the directory up to ASCII case, plus the root row for the root |
| `LikeQuery.ListDirectory` | fvfs-core/src/metadata.rs:123-146 | The query lists exactly those rows, in the order of their paths, none twice |
| `LikeQuery.TextOrderDecided` | fvfs-core/src/metadata.rs:135-141 | The order of paths is decided where two texts first part: the one that ends there or has the smaller character comes first |
| `LikeQuery.ListDirCrossesCase` | fvfs-core/src/metadata.rs:131-141 | A listing can show a child of a directory that differs in case |
| `ObjectKeys.KeyRoundTrip` | fvfs-core/src/backend/s3.rs:158-167 | Stripping the key of a path gives the path back, for every prefix |
| `ObjectKeys.KeysInjective` | fvfs-core/src/backend/s3.rs:34-41 | Different paths have different keys |
| `ObjectKeys.KeyOfNonRoot` | fvfs-core/src/backend/s3.rs:34-41 | The key of a path is the prefix without its trailing slashes, then the path |
| `ObjectKeys.TrimEndTakesSlashes` | fvfs-core/src/backend/s3.rs:39 | Trimming a prefix takes its trailing slashes and nothing else |
| `ObjectKeys.TrimStartTakesSlashes` | fvfs-core/src/backend/s3.rs:35 | Trimming a path takes its leading slashes and nothing else |
| `ObjectKeys.ListingExact` | fvfs-core/src/backend/s3.rs:131-136 | The listing prefix selects exactly the strict descendants, except for the root under two or more bare slashes |
| `ObjectKeys.BareSlashesListNothing` | fvfs-core/src/backend/s3.rs:131-136 | With the prefix "//" the listing of the root misses every object |
| `ObjectKeys.FsPathUnderRoot` | fvfs-core/src/backend/local.rs:29-33 | A disk path is the root followed by good segments only |
| `ObjectKeys.FsPathInjective` | fvfs-core/src/backend/local.rs:29-33 | Different paths have different disk paths |
| `ObjectKeys.FsPathResolves` | fvfs-core/src/backend/local.rs:29-33 | Under a canonical root the disk path resolves to the root's segments followed by the path's |
| `Tiers.SafeToEvictMeetsDoc` | fvfs-core/src/types.rs:181-188 | The documented "all colder tiers" holds for the NAS always, for S3 never, for local exactly when S3 implies the NAS |
| `Scenarios.EvictedWithoutNas` | fvfs-core/src/types.rs:182-188 | A file the NAS never held is evicted from local and is then on S3 alone |
| `Tiers.BitmaskEncoding` | fvfs-core/src/types.rs:161-193 | The byte operations are the set operations on bits 1, 2 and 4, and storing a bitmask loses nothing |
| `Migration.Deduplicate` | fvfsd/src/migrate.rs:96-112 | The loop keeps one file per digest and total = unique + duplicates |
| `Migration.FirstsExact` | fvfsd/src/migrate.rs:96-112 | The files kept have distinct contents, cover all contents, and are exactly those first with theirs, in crawl order |
| `Migration.MigrationAgrees` | fvfsd/src/migrate.rs:121-182 | From empty, under any failures: bucket and index agree on every path, both hold the last successful upload there with its digest, size, tier and time, unique = uploaded + errors |
| `Migration.UploadedExactly` | fvfsd/src/migrate.rs:121-182 | Under any failures a path is in bucket and index exactly when some source that belongs there could be read and put |
| `Migration.OnlyFirstsIndexed` | fvfsd/src/migrate.rs:105-110 | Under any failures an indexed path has a file first with its content; when nothing fails, a path is in bucket and index exactly when it has one |
| `Migration.DuplicatePathVanishes` | fvfsd/src/migrate.rs:105-110 | Two files side by side with one content: the second one's path is in neither, although nothing fails |
| `Migration.MigrationTreeIff` | fvfsd/src/migrate.rs:159-181 | The migrated index has every parent if and only if the successful uploads include them |
| `Migration.MigrationIndexesNoRoot` | fvfsd/src/migrate.rs:159-181 | With an upload below the root and no source for the root, the migrated index is not a tree |
| `Migration.HashAll` | fvfsd/src/migrate.rs:83-100 | Files that cannot be hashed drop out, the others keep their order |
| `Migration.HashedExact` | fvfsd/src/migrate.rs:83-100 | Exactly the files whose hashing does not fail are kept, in crawl order |
| `Migration.VfsPathNested` | fvfsd/src/migrate.rs:123-135 | A crawled path goes where joining its pieces to the root one by one leads, at slashes and backslashes alike |
| `Migration.VfsPathSegments` | fvfsd/src/migrate.rs:123-135 | Good pieces separated by any mixture of slashes and backslashes are the segments of the path |
| `Migration.UploadCounts` | fvfsd/src/migrate.rs:121-157 | The report's uploads, bytes and errors are those of the uploads that succeed and of the others |
| `Migration.SizeOfConcat` | fvfsd/src/migrate.rs:100-103 | The total of bytes is the sum over the files |
| `Migration.RunMigration` | fvfsd/src/migrate.rs:83-201 | The whole command: bucket, index and every count of the report, bytes and errors as the sums they stand for |
| `ClientCache.LocalCache.GetByHash` | fvfsc/src/local_cache.rs:32-44 | A hit returns bytes with that digest |
| `ClientCache.LocalCache.Put` | fvfsc/src/local_cache.rs:47-78 | After a put that does not fail the bytes are cached under their digest; a failing put changes nothing |
| `ClientCache.StoredExactly` | fvfsc/src/local_cache.rs:47-78 | The same of the cache as a value, which stays addressed by digest, with every other file as it was |
| `ClientCache.LocalCache.TotalBytes` | fvfsc/src/local_cache.rs:81-83 | The sum of the sizes of the cache files |
| `ClientCache.LocalCache.RemoveUntil` | fvfsc/src/local_cache.rs:102-110 | The removal loop with its early exit leaves what trying every entry would leave |
| `ClientCache.LocalCache.EvictIfNeeded` | fvfsc/src/local_cache.rs:86-111 | Use drops by exactly what was freed; if removals succeed it ends at most at the limit, and at most at three quarters when it was over; nothing is removed needlessly |
| `ClientCache.SweepMeetsTarget` | fvfsc/src/local_cache.rs:99-110 | The same for the loop alone, and nothing removed is younger than anything kept |
| `ClientCache.SweepWhateverFails` | fvfsc/src/local_cache.rs:99-110 | Whatever removals fail: files that fail stay, the cache meets its target or everything left failed to go, and with one of the removed files back it would be over three quarters or over its limit |
| `ClientCache.Stat` | fvfsc/src/fuse_handler.rs:219-220 | The digest reported is that of the file's content, none for a missing path or a directory |
| `ClientCache.CachedRead` | fvfsc/src/fuse_handler.rs:221-247 | After a stat at any earlier time: a hit answers with the slice of the content with the reported digest, a miss with the slice of the file as the daemon holds it now, and the tree is untouched |
| `ClientCache.ClientReadCurrent` | fvfsc/src/fuse_handler.rs:217-243 | Over every run of daemon operations, cache writes and sweeps, with the stat and the rest of the read at different times: a hit is the file the tree held at the stat and a healthy daemon would have served; what a miss gets is the file the tree holds then |
| `Fuse.SpliceBuffer` | fvfsd/src/fuse_handler.rs:310-316 | Each byte of the buffer is the write's, else the old one, else zero |
| `Fuse.SpliceAllBytes` | fvfsd/src/fuse_handler.rs:302-316 | Over any sequence of writes each byte is the latest write covering it, else the initial one, else zero |
| `Fuse.SpliceMatchesPosix` | fvfsd/src/fuse_handler.rs:302-316 | The result is what POSIX pwrite leaves if and only if every empty write lies within that file |
| `Fuse.EmptyWriteExtends` | fvfsd/src/fuse_handler.rs:312-315 | An empty write one past the end of an empty file grows it |
| `Fuse.HandleWrite` | fvfsd/src/fuse_handler.rs:302-326 | The handler on the router: the read, the splice, the write and its reply |
| `Fuse.FuseWritesMatchPosix` | fvfsd/src/fuse_handler.rs:302-326 | After any run, handled writes whose reads succeed leave in the tree the POSIX file of those that were put, under the same exact condition |
| `Fuse.FailedReadLosesBytes` | fvfsd/src/fuse_handler.rs:306-308 | Splicing into nothing equals splicing into the file exactly when the file ends within the write and is zero before it |
| `Scenarios.FailedReadRun` | fvfsd/src/fuse_handler.rs:302-326 | For every file, a write whose read fails leaves the tree with the splice into nothing, equal to the right one exactly under that condition |
| `Fuse.SliceExact` | fvfsd/src/fuse_handler.rs:268-271 | A read gets as many bytes as asked for and as there are from the offset on, byte k being byte offset + k of the file; a negative offset gets none |
| `Fuse.SliceOfSplice` | fvfsd/src/fuse_handler.rs:268-316 | Reading where a write went gives the bytes written |
| `Fuse.HandleRead` | fvfsd/src/fuse_handler.rs:265-277 | The read handler on the router: the slice of what the router reads, or its error |
| `Fuse.WrittenIsReadBack` | fvfsd/src/fuse_handler.rs:265-326 | After any run, a handled write whose read and put succeed is read back byte for byte |
| `Fuse.SlicesJoin` | fvfsd/src/fuse_handler.rs:268-271 | Reads at consecutive offsets join without loss or repetition |
| `Fuse.ReadDir` | fvfsd/src/fuse_handler.rs:550-590 | The reply holds the entries from the offset on, as many as fit, each with its name, kind and continuation offset |
| `Fuse.ListingParts` | fvfsd/src/fuse_handler.rs:553-590 | The listing is ".", "..", then every entry in order by its file name and kind |
| `Fuse.PagesConcatenate` | fvfsd/src/fuse_handler.rs:550-590 | Pages of any sizes give a prefix of the listing, each entry once, and come back empty only at its end |
| `Fuse.PagesComplete` | fvfsc/src/fuse_handler.rs:378-405 | Enough pages with room for one entry give the whole listing |

## Left out

- HTTP API and client, CLI, configuration, logging, mDNS and the device registry: plumbing without a deep property.
- AWS SDK, tokio, rusqlite and fuser internals: backends are maps, calls and statements are atomic, tables are maps.
- S3 pagination over the network and crawling directories on disk: foreign calls.
- Partial writes inside a `put`, failing SQL statements, and crashes in the middle of `write` or `delete`: the code has no recovery for them.
- A write, mkdir or delete overlapping a task on the same file: the code has no lock for it, and an upload can then mark S3 for the old version.
- Floating-point rounding and NaN in scores, file attributes and timestamps.
- The inode tables of both FUSE handlers, `setattr` (which ignores truncation to a non-zero size) and the other FUSE calls.
- The nightly decay of access counts, `count_on_tier` and the statistics they feed.
- The uploader's unused flush-size threshold and its timer.
- Interleaving.CurrentVersionSurvives: claims the version survives, not that it can be read; `HealthyReadSucceedsIff` says when it can.
- Migration.MigrationAgrees: claims agreement for S3; the source tier's bit is set from the root a file was found under, which the local and NAS backends may or may not serve.
- Fuse.ReadDir: takes the entries `list` returned; it does not model the inode numbers in the reply, since the tables that hand them out are left out.
