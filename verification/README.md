# LevelDB and nanopb, modelled and proved

The application's vendored storage engine (LevelDB, an LSM-tree key-value store) and its protocol-buffer codec (nanopb)
as a Dafny project: one module per source file or component, with the code's own branches, constants and error paths,
and proofs of what the two libraries exist to promise. Paths below are relative to the repository's root.

Check the whole project with `dafny verify dfyconfig.toml` (Dafny 4.11).

## What is modelled

**One meaning for reads.** `Keys` defines entries (user key, sequence number, type, value) and what reading a key at a
snapshot means for a set of entries. Every layer of the store refines that one definition. A user key is modelled by its
rank in the comparator's order; `ByteKeys` proves that ranks embed the bytewise order, so nothing is lost.

**The store** (`db/db_impl.cc`, `db/version_set.cc`). `CompactionRules` says which entries a compaction drops and proves
the exact condition under which that is invisible; `CompactionWork` is the compaction loop with its forward-only
base-level scan; `InputSelection` chooses the inputs; `Installation`, `VersionBuilder` and `Levels` install edits, replay
them and look keys up.
`Database` puts them together as a state machine of writes, memtable switches, flushes, compactions, trivial moves and
snapshots, whose structural invariant holds in every reachable state; a lookup returns what all stored entries together
say. `SnapshotReads` says what compactions do to reads: a compaction is invisible to every live snapshot if and only if
no tombstone it drops lies over a readable value left at the next level (`CompactionIsInvisibleIff`). So live snapshots
read the full write history over every run whose compactions leave nothing older of a merged key at their next level
(`SnapshotsReadHistory`), and over every run whose compactions never cut their outputs between two versions of a key
(`CleanRunsReadHistory`). Without such a condition they need not: `CompactionGap` is a run that brings a deleted key
back. `ClientView` tells the same from the client's operations alone: the store is a map that every batch updates, and a
snapshot keeps the map as it was when it was taken (`ClientView.SnapshotIsolation`).

**Crashes** (`Durability`, `Recovery`). Log appends and syncs, MANIFEST records, CURRENT, obsolete-file removal, crashes
that keep any prefix of unsynced data, and recovery, as single steps. In every reachable state recovery restores every
synced or flushed batch (`Durability.SyncedWritesSurvive`, `FlushedWritesSurvive`); `SurvivesCrashesIff` says exactly
which batches a crash can take. If only the process crashes, recovery restores every logged batch. With the
background thread free, flushes, compactions and the removal of obsolete files can be completed, and after a crash so can
recovery (`Durability.RecoveryCompletes`). What recovery
replays is in the order of writing and newer than the tables it starts from (`LogOrder`).

**Reads after crashes** (`Restart`, `CrashReads`). The store of `Database` and the disk of `Durability` run together,
step by step. The tables alone always read like everything ever flushed; so after any number of crashes and recoveries,
every live snapshot reads the history of exactly the batches that are still restorable (`CrashReads.SurvivorsAreRead`),
and a recovery never gets stuck (`CrashReads.RecoveryNeverStuck`).

**Concurrent writers** (`WriterQueue`, `WriteBatch`). Every interleaving of queued writers, group commit, log, sync and
one-at-a-time memtable inserts with the mutex released; after a failed sync nothing is written any more
(`WriterQueue.SyncErrorStopsWrites`).

**Iterators** (`DbIter`, `Merger`, `TwoLevel`). Classes with the source's fields and direction flags, each proved to be
a plain cursor on a mathematical sequence: the sorted map of live keys, the sorted union, the concatenation of blocks.

**Structures** (`SkipList`, `HandleList`, `HandleTable`, `LruCache`). The skip list as interleaved atomic pointer steps;
the cache on real heap objects, with its circular lists threaded through the handles, its chained hash table and its
reference counts. `LruCache.Cache.Valid` says: the table holds exactly the cached handles, a cached handle is on the idle
list exactly when only the cache refers to it and otherwise on the busy list, `refs` is the number of outstanding handles
plus one if cached, `usage` is the sum of the cached charges, and a deleted handle is never live again.

**Formats** (`Coding`, `LogFormat`, `LogReader`, `LogDamage`, `BlockFormat`, `BlockIterator`, `SortedTable`, `FilterBlock`,
`Bloom`, `VersionEditFormat`, `Crc32c`). Writers proved against functions on byte sequences, readers proved against what they
compute on arbitrary bytes, and the round trips between the two. `LogDamage` says what the log reader returns from
damaged files: only what intact chunks spell out, and from a written log every record that does not touch the block from
the damage on.

**nanopb** (`PbMessages`, `PbEncode`, `PbDecode`, `PbDecoder`, `PbRoundTrip`, `PbExchange`, `PbFits`). Schemas and
messages as recursive values; the encoder as it writes to a bounded or a counting stream; the decoder on any bytes; the
round trip over every schema of static fields (`PbExchange.MessageComesBack`); the exchange between programs whose
schemas differ (`PbExchange.MessageExchanged`); and the bounds that decoding keeps on any input (`PbFits.MessageFits`).

## Findings

Places where the code does less than its comments or its callers suggest. The model follows the code.

- A compaction can bring a deleted key back. Boundary files are added at the input level only
  (`db/version_set.cc:1384`, `:1399`), so a tombstone at the end of a parent file can be compacted away while an older
  value of its key stays at the start of the next parent. `CompactionGap.DeletedKeyComesBack` is a run from the empty
  database that does so; `SnapshotReads.CompactionIsInvisibleIff` is the exact condition, and
  `SnapshotReads.RecentRemainderIsEnough`, `UnsplitLevelIsEnough` and `CleanRunsReadHistory` turn it into conditions
  that can be checked on files, on file boundaries and on cut points.
- The comment beside the tombstone rule (`db/db_impl.cc:962-968`) overlooks entries that do not parse: such an entry
  makes the loop forget its key, so versions below it survive a dropped tombstone
  (`CompactionRules.UnparsableEntryResurfaces`; `CompactionRules.DropsAreInvisibleIff` is the exact condition).
- A lookup can report corruption for a key that has nothing to do with it: the saver (`db/version_set.cc:262-275`)
  checks that the entry a table hands over parses before it checks whose it is. The contract of `Levels.Get` says exactly
  when, for any tables that keep the promise of `Table::InternalGet`; which entries a table hands over depends on where
  its blocks end (`SortedTable.NothingDeliveredIff`), so the same lookup in the same file is corrupt with one layout
  (`SortedTable.OneBlockGoesAstray`) and not with another (`SortedTable.BlockEndShields`).
- `VersionEdit::Clear` keeps the compaction pointers, so decoding is a round trip if and only if the receiving edit had
  none (`VersionEditFormat.RoundTripIff`).
- The filter block cuts its offsets to 32 bits and the number of keys of a filter to an int. Below 4 GiB of filter data
  and 2^31 keys in a 2 KiB slot no key is denied (`FilterBlock.ReaderFinds`). Any key count and bits per key that make
  one filter reach 4 GiB allow a filter block that denies a key it was made from (`FilterBlock.OversizedFilterDenies`).
  From 2^32 keys on, a count that is cut to a smaller number leaves keys out (`FilterBlock.CountCutDenies`), and one
  that is cut to a negative number asks for more memory than there is (`FilterBlock.NegativeCountAsksTooMuch`).
- The log reader's own events share their numbers with the fragment types: an intact fragment of type 5, which no writer
  emits, ends the reading without a report (`LogDamage.EofTypeEndsReading`; `db/log_reader.h:65-73`), although unknown
  types are to be reported (`db/log_reader.cc:161`).

## Model

| member | source | states |
|---|---|---|
| Keys.ReadIsNewest | ios/Pods/leveldb-library/db/version_set.cc:262-275 | The reference meaning of a lookup: reading a key at a snapshot gives the outcome (value, absent, corrupt) of the one newest visible version, wherever it is stored |
| Keys.ReadAgrees | ios/Pods/leveldb-library/db/version_set.cc:262-275 | Two stores that show the same visible versions of a key read the same, even at different snapshots |
| CompactionRules.DropsAreInvisibleIff | ios/Pods/leveldb-library/db/db_impl.cc:939-973 | Dropping by rule (A) and the tombstone rule leaves every read at every snapshot from the oldest live one on unchanged if and only if nothing resurfaces under a dropped newest tombstone |
| CompactionRules.ReadAfterDrops | ios/Pods/leveldb-library/db/db_impl.cc:939-973 | For one key and one snapshot: the newest visible version is the same before and after the drops |
| CompactionRules.ReadUnderDroppedTombstone | ios/Pods/leveldb-library/db/db_impl.cc:959-970 | Exactly what a read finds once the newest tombstone is dropped: what is left outside the inputs, plus the entries that do not parse |
| CompactionRules.RecencyPreventsResurfacing | ios/Pods/leveldb-library/db/db_impl.cc:959-970 | The comment beside the tombstone rule, as a theorem: if everything outside the inputs is newer or keeps its key off the base level, nothing resurfaces |
| CompactionRules.ShieldedSurvivor | ios/Pods/leveldb-library/db/db_impl.cc:941-945 | An older version survives beside a visible newer one of its key only directly under an entry that does not parse |
| CompactionRules.UnparsableEntryResurfaces | ios/Pods/leveldb-library/db/db_impl.cc:941-945 | A concrete input on which an unparsable entry below a dropped tombstone turns an absent key into a corrupt one |
| CompactionWork.Compaction.IsBaseLevelForKey | ios/Pods/leveldb-library/db/version_set.cc:1510-1529 | Answers whether any file two or more levels down covers the key, although its scan pointers only ever move forward; valid for any ascending sequence of questions |
| CompactionWork.Compaction.AdvancePointer | ios/Pods/leveldb-library/db/version_set.cc:1510-1529 | One level of that scan: skipped files can never cover a later key |
| CompactionWork.Compaction.DecideDrop | ios/Pods/leveldb-library/db/db_impl.cc:939-973 | The loop-carried state (current key, last sequence for it) decides the drop: hidden by a version at or below the oldest snapshot, or a tombstone at its base level |
| CompactionWork.Compaction.AddToOutput | ios/Pods/leveldb-library/db/db_impl.cc:984-1006 | The entry becomes the last one of the outputs, which stay well-formed, consecutively numbered files |
| CompactionWork.Compaction.DoCompactionWork | ios/Pods/leveldb-library/db/db_impl.cc:887-1048 | Wherever the outputs are cut, their entries are exactly the survivors of the drop rules, and the output files are sorted, pairwise disjoint and consecutively numbered |
| CompactionWork.KeptPrefixMeaning | ios/Pods/leveldb-library/db/db_impl.cc:887-1048 | What the loop keeps is the sorted sequence of exactly the entries not dropped |
| CompactionWork.CutsAreDisjoint | ios/Pods/leveldb-library/db/db_impl.cc:984-1006 | Any way of cutting one sorted sequence into files, even between versions of one key, gives disjoint files with the same entries |
| Levels.FindFile | ios/Pods/leveldb-library/db/version_set.cc:87-105 | The binary search returns the first file whose largest key is at or after the target |
| Levels.SomeFileOverlapsRange | ios/Pods/leveldb-library/db/version_set.cc:121-156 | The binary-search answer on disjoint levels and the scan on level 0 both equal: some file overlaps the range |
| Levels.PickLevelForMemTableOutput | ios/Pods/leveldb-library/db/version_set.cc:470-496 | Below the chosen level, and in it, no file meets the table; the search stops only at an overlap or where the grandparent level is crowded |
| Levels.Get | ios/Pods/leveldb-library/db/version_set.cc:324-400 | Level 0 newest file first, then one file per level: the answer is the globally newest version at or below the lookup sequence, unless a table that the search reaches before any version of the key hands over an unparsable entry of another user key; then and only then it is corrupt instead |
| Levels.LookupGoesAstray | ios/Pods/leveldb-library/db/version_set.cc:262-275 | A sound version and a lookup of an absent key that comes out corrupt exactly when the table hands the next entry over, because the saver checks that the entry parses before it checks whose it is |
| Levels.GetLevel0 | ios/Pods/leveldb-library/db/version_set.cc:281-301 | The first answer, newest file first, is the newest version of the whole store; corruption means a stray entry handed over or a corrupt newest version; otherwise level 0 shows neither the key nor a stray entry |
| Levels.GetDisjointLevel | ios/Pods/leveldb-library/db/version_set.cc:303-321 | One file of a disjoint level is enough, also when versions of the key continue in the next file, and it is the only one where the search can go astray |
| Levels.GetFromFile | ios/Pods/leveldb-library/db/version_set.cc:341-372 | One table: its newest visible version, a proof that there is none, or corruption, exactly when the table hands over an unparsable entry, of any user key |
| Levels.NewestFirst | ios/Pods/leveldb-library/db/version_set.cc:277-279 | The same files, each as often, newest first |
| InputSelection.GetOverlappingInputs | ios/Pods/leveldb-library/db/version_set.cc:498-538 | Terminates although it restarts; at level 0 the result is the files overlapping a widened range, every one of them within it, and each widening is forced: any overlap-closed set of files contains the result |
| InputSelection.FindLargestKey | ios/Pods/leveldb-library/db/version_set.cc:1303-1316 | The greatest largest-key of the files, none exactly for no files |
| InputSelection.FindSmallestBoundaryFile | ios/Pods/leveldb-library/db/version_set.cc:1321-1339 | The first file that starts after the key under the same user key, none exactly when no file does |
| InputSelection.AddBoundaryInputs | ios/Pods/leveldb-library/db/version_set.cc:1355-1378 | Terminates, keeps the given files, and leaves no file of the level starting after the last chosen key under its user key |
| InputSelection.GetRange | ios/Pods/leveldb-library/db/version_set.cc:1182-1204 | The tightest user-key range of the files, and bounds on all their internal keys |
| InputSelection.PickCompaction | ios/Pods/leveldb-library/db/version_set.cc:1247-1300 | The seed file ends up in a choice with no overlapping level-0 file left out |
| InputSelection.CompactRangeInputs | ios/Pods/leveldb-library/db/version_set.cc:1441-1472 | A manual range yields an eligible choice: every overlapping file at level 0, an initial part of the overlapping files above, nothing exactly when nothing overlaps |
| InputSelection.SetupOtherInputs | ios/Pods/leveldb-library/db/version_set.cc:1380-1439 | The picked files are among the inputs, no boundary file is left at the input level, and the parents are all files of the next level that overlap. The choice grows to everything in its level that meets the first choice or its parents exactly when that has more files, stays under the size limit and meets as many parents, and then it meets the same ones. The grandparents are the files that overlap it all, and the next compaction starts at the greatest chosen key |
| InputSelection.RemainderIsNewer | ios/Pods/leveldb-library/db/version_set.cc:1341-1378 | A file left at the input level holds only newer versions of any key it shares with a chosen file, which is what boundary files are for |
| InputSelection.ParentsStandAside | ios/Pods/leveldb-library/db/version_set.cc:1380-1439 | A file left at the next level lies entirely before or entirely after all inputs |
| Installation.SelectionIsClear | ios/Pods/leveldb-library/db/version_set.cc:1380-1439 | The selection gives all that installing the outputs needs of the files left behind |
| Installation.ReplaceKeepsVersionOk | ios/Pods/leveldb-library/db/version_set.cc:629-730 | Replacing the inputs by the outputs keeps levels sorted and disjoint, shallower levels newer and every (key, sequence) unique |
| Installation.AddKeepsVersionOk | ios/Pods/leveldb-library/db/version_set.cc:470-496 | Adding a flushed table at the chosen level keeps the same invariants and adds exactly its entries |
| CompactionGap.DeletedKeyComesBack | ios/Pods/leveldb-library/db/version_set.cc:1380-1439 | A run of the store, from the empty database, at whose end a deleted key reads its old value again: one compaction cuts between two versions of the key under a snapshot, and a later one takes the tombstone alone, because boundary files are added at one level only |
| SnapshotReads.CompactionIsInvisibleIff | ios/Pods/leveldb-library/db/db_impl.cc:887-1048 | In every state that satisfies the invariant and reads like the history, a compaction keeps every live snapshot reading the history if and only if no tombstone it drops, newest of its key, lies over a readable value in a file left at the next level |
| SnapshotReads.OnlyTheNextLevelResurfaces | ios/Pods/leveldb-library/db/db_impl.cc:959-970 | Of everything outside the inputs, only files left at the next level can resurface |
| SnapshotReads.RecentRemainderIsEnough | ios/Pods/leveldb-library/db/db_impl.cc:959-970 | So a compaction is invisible as soon as no file left at the next level holds an older version of a merged key |
| SnapshotReads.UnsplitLevelIsEnough | ios/Pods/leveldb-library/db/version_set.cc:1380-1439 | That holds whenever no user key of the next level runs from one file into the next |
| SnapshotReads.RunsReadHistory | ios/Pods/leveldb-library/db/db_impl.cc:697-776 | Over any run in which every compaction leaves no older version of a merged key at its next level, what is stored reads like everything ever written |
| SnapshotReads.NextKeepsUnsplit | ios/Pods/leveldb-library/db/db_impl.cc:984-1006 | If compactions do not cut their outputs between two versions of a key, no key of a level above 0 ever runs from one file into the next, through flushes, compactions and moves |
| SnapshotReads.CleanRunsReadHistory | ios/Pods/leveldb-library/db/db_impl.cc:984-1006 | Over any run whose compactions never cut between two versions of a key, every live snapshot reads the full write history |
| ClientView.LatestReadsFollowWrites | ios/Pods/leveldb-library/db/db_impl.cc:1110-1155 | The store is a map: over every run whose compactions leave nothing older at their next level, a read of the latest sequence finds what the client last wrote, told from its batches alone |
| ClientView.SnapshotIsolation | ios/Pods/leveldb-library/db/db_impl.cc:1176-1184 | A snapshot that is taken and not released reads, in every later state, what the map was when it was taken, whatever is written, flushed and compacted meanwhile |
| ClientView.WriteIsUpdate | ios/Pods/leveldb-library/db/db_impl.cc:1214-1217 | A batch changes what a key reads to its last operation on the key, and leaves every earlier snapshot alone |
| Database.MemTableGet | ios/Pods/leveldb-library/db/memtable.cc:101-135 | One seek in a memtable yields its newest visible version; a miss means there is none, or that the newest is of unknown type |
| Database.Get | ios/Pods/leveldb-library/db/db_impl.cc:1110-1155 | Memtable, immutable memtable and tables in this order return what all stored entries together say, at any snapshot; and so what the history says whenever the store reads like the history |
| Database.WriteKeepsInv | ios/Pods/leveldb-library/db/db_impl.cc:1195-1266 | A write, numbered after everything before it, keeps the store invariant, and what is stored keeps reading like the history |
| Database.FlushKeepsInv | ios/Pods/leveldb-library/db/db_impl.cc:500-575 | So does flushing the immutable memtable at any level the placement rule allows |
| Database.CompactKeepsInv | ios/Pods/leveldb-library/db/db_impl.cc:887-1048 | Any compaction of selected inputs keeps the structure of the store: files, recency order, numbers, snapshots, and the oldest live snapshot as the new horizon; what it does to reads is in SnapshotReads |
| Database.MoveKeepsInv | ios/Pods/leveldb-library/db/db_impl.cc:719-737 | A trivial move keeps the invariant and every read |
| Database.CompactionEditReplaces | ios/Pods/leveldb-library/db/version_set.cc:1502-1508 | Deleting the inputs by number and adding the outputs in one edit is exactly the replacement, in both directions, even when a moved file is deleted and added |
| Database.NextKeepsInv | ios/Pods/leveldb-library/db/db_impl.cc:697-776 | Every step of the store keeps the structural invariant, and every step but a compaction keeps reads |
| Database.RunsKeepInv | ios/Pods/leveldb-library/db/db_impl.cc:697-776 | The structural invariant holds in every state of every run of writes, switches, flushes, compactions, moves and snapshots |
| SnapshotReads.SnapshotsReadHistory | ios/Pods/leveldb-library/db/db_impl.cc:1176-1184 | In every state of a run whose compactions leave nothing older at their next level, every live snapshot, and the latest sequence, reads for every key exactly what the full write history holds at it |
| VersionBuilder.Builder.Apply | ios/Pods/leveldb-library/db/version_set.cc:629-669 | The compaction pointers take the last value set for their level, and every level takes the edit: its deletions, and its additions which revive a deleted number |
| VersionBuilder.LastPointerWins | ios/Pods/leveldb-library/db/version_set.cc:630-635 | The last compaction pointer set for a level is the one that stays, and one that is not set does not change |
| VersionBuilder.Builder.SaveTo | ios/Pods/leveldb-library/db/version_set.cc:672-715 | Merging base and added files gives, per level, the live files in smallest-key order |
| VersionBuilder.AddFilesMeaning | ios/Pods/leveldb-library/db/version_set.cc:643-668 | With fresh numbers, adding files is set union, and they are no longer deleted |
| VersionBuilder.FoldStep | ios/Pods/leveldb-library/db/version_set.cc:629-669 | One more edit on the running builder does what that edit alone does to the version reached so far |
| VersionBuilder.OrderedFilesUnique | ios/Pods/leveldb-library/db/version_set.cc:579-592 | A sorted file list is determined by its set of files |
| VersionBuilder.ReplayIsStepwise | ios/Pods/leveldb-library/db/version_set.cc:862-987 | One builder fed all edits of a MANIFEST and saved once equals installing a version after every edit |
| VersionBuilder.RecoverVersion | ios/Pods/leveldb-library/db/version_set.cc:862-987 | The recovery loop computes that fold, and leaves the compaction pointers that the edits set in order |
| VersionBuilder.InstallEdit | ios/Pods/leveldb-library/db/version_set.cc:777-860 | LogAndApply installs one edit on the current version, with its compaction pointers |
| Durability.AddRecordKeepsInv | ios/Pods/leveldb-library/db/db_impl.cc:1219-1233 | Logging a batch keeps every crash outcome recoverable |
| Durability.SwitchKeepsInv | ios/Pods/leveldb-library/db/db_impl.cc:1346-1377 | Switching logs and memtables keeps it; the guard that there is no immutable memtable is what makes it so |
| Durability.FlushViewOk | ios/Pods/leveldb-library/db/db_impl.cc:544-575 | The edit that ends a flush, with the new log number, describes a state that still restores every live batch, already before it is synced |
| Durability.CompactionViewOk | ios/Pods/leveldb-library/db/db_impl.cc:869-885 | So does the edit of a compaction or of a trivial move, which keep the old log number |
| Durability.InstallKeepsInv | ios/Pods/leveldb-library/db/version_set.cc:777-860 | Syncing the MANIFEST record, pointing CURRENT at it and installing the version keep the invariant |
| Durability.RemoveFileKeepsInv | ios/Pods/leveldb-library/db/db_impl.cc:222-287 | Removing any file chosen as obsolete, one at a time and at any later moment, keeps it |
| Durability.CrashKeepsInv | ios/Pods/leveldb-library/db/db_impl.cc:289-378 | A crash at any moment, keeping any prefix of what was not synced, leaves a disk that can be recovered |
| Durability.FinishRecoveryKeepsInv | ios/Pods/leveldb-library/db/db_impl.cc:289-378 | Replaying the logs, reusing the last one or starting a new one, keeps it |
| Durability.NextKeepsInv | ios/Pods/leveldb-library/db/db_impl.cc:1478-1519 | Every step keeps the invariant |
| Durability.RunsKeepInv | ios/Pods/leveldb-library/db/db_impl.cc:1478-1519 | The invariant holds in every state of every run, over any number of crashes |
| Durability.Durable | ios/Pods/leveldb-library/db/db_impl.cc:289-378 | In every reachable state every promised batch is in a table of the synced MANIFEST or in the synced part of a log it still needs; every live batch is restored by recovery; an open database serves exactly the live batches; logged is live plus lost |
| Durability.SyncedWritesSurvive | ios/Pods/leveldb-library/db/db_impl.cc:1226-1233 | What WriteOptions::sync promises: once the log has been synced, the batch being written and every other batch of that log survive, in every later state of every run over any crashes |
| Durability.FlushedWritesSurvive | ios/Pods/leveldb-library/db/db_impl.cc:544-575 | So does every batch of a memtable whose flush has been installed, synced or not |
| Durability.SurvivesCrashesIff | ios/Pods/leveldb-library/db/db_impl.cc:289-378 | Which batches a crash can take: in any state with the invariant, a batch survives every possible crash if and only if it is in a table or a synced record under each MANIFEST the crash can leave; any other batch is lost by some crash |
| Durability.FlushCompletes | ios/Pods/leveldb-library/db/db_impl.cc:544-575 | Whenever the background thread is free, an immutable memtable can be flushed by three steps, after which its batches are promised and older logs are no longer needed |
| Durability.CompactionCompletes | ios/Pods/leveldb-library/db/db_impl.cc:869-885 | So can any tables of the version be compacted into one |
| Durability.ObsoleteFilesGo | ios/Pods/leveldb-library/db/db_impl.cc:222-287 | Removing obsolete files one by one leaves on the disk exactly the logs, tables and MANIFESTs that the source keeps |
| Durability.RecoveryCompletes | ios/Pods/leveldb-library/db/db_impl.cc:289-378 | After any crash the database can be opened, and then it serves exactly the live batches |
| Durability.ServedIsLive | ios/Pods/leveldb-library/db/db_impl.cc:1110-1155 | What memtables and installed tables hold, with the batch being written, is exactly what recovery would restore |
| Durability.ProcessCrashesLoseNothing | ios/Pods/leveldb-library/db/db_impl.cc:1195-1266 | If only the process crashes and the files keep their bytes, no logged batch is ever lost |
| Durability.FreshSequence | ios/Pods/leveldb-library/db/db_impl.cc:1214-1217 | A new batch is numbered after every live batch, also after recoveries |
| Recovery.RecoverLogFile | ios/Pods/leveldb-library/db/db_impl.cc:380-498 | One log is replayed completely into tables, or kept open with its memtable only when that is allowed and no table was written; the highest sequence is found |
| Recovery.RecoverLogs | ios/Pods/leveldb-library/db/db_impl.cc:324-376 | All logs from the MANIFEST number on are replayed in order and exactly once, which is what the recovery step of the state machine asks |
| LogOrder.NextKeepsOrder | ios/Pods/leveldb-library/db/db_impl.cc:289-378 | Every step of the crash machine keeps the batches of the tables before those of the logs still needed, and the logs in the order of writing, for the installed MANIFEST and for the record on its way to it |
| LogOrder.RunsKeepOrder | ios/Pods/leveldb-library/db/db_impl.cc:289-378 | So it is in every reachable state, over any number of crashes |
| LogOrder.RecoveryReplaysInOrder | ios/Pods/leveldb-library/db/db_impl.cc:324-376 | What recovery replays, log after log, is ascending in sequence numbers and comes after everything in the tables it starts from |
| Restart.NextKeepsSturdy | ios/Pods/leveldb-library/db/db_impl.cc:887-1056 | Every step keeps the tables alone, without the memtables, reading like everything ever flushed, as long as compactions leave nothing older at their next level |
| Restart.CrashKeepsSturdy | ios/Pods/leveldb-library/db/db_impl.cc:289-322 | The store without its memtables, under the last sequence number of the MANIFEST, reads the history of what was flushed |
| Restart.RecoveryKeepsSturdy | ios/Pods/leveldb-library/db/db_impl.cc:380-498 | Replaying chunks of the logs into level-0 tables and the rest into the memtable gives a store that reads the history of what was flushed and replayed |
| Restart.RecoveryExists | ios/Pods/leveldb-library/db/db_impl.cc:380-498 | Records in the order of writing and newer than the tables can always be replayed: recovery does not get stuck |
| CrashReads.NextKeepsJoint | ios/Pods/leveldb-library/db/db_impl.cc:1478-1519 | The store and the disk take every step together: the tables hold what the installed version accounts for, and the memtables the entries of their batches |
| CrashReads.RunsKeepJoint | ios/Pods/leveldb-library/db/db_impl.cc:1478-1519 | They agree in every state of every run, over any number of crashes and recoveries |
| CrashReads.HistoryIsRestorable | ios/Pods/leveldb-library/db/db_impl.cc:1110-1155 | The write history that a running store serves is what its restorable batches wrote |
| CrashReads.SurvivorsAreRead | ios/Pods/leveldb-library/db/db_impl.cc:1110-1155 | After any crashes and recoveries every live snapshot, and the latest sequence, read for every key the history of exactly the restorable batches: all that were promised, and of the others those that no crash dropped |
| CrashReads.RecoveryNeverStuck | ios/Pods/leveldb-library/db/db_impl.cc:289-378 | Whenever the process can finish opening the database, a store that it recovers exists |
| WriterQueue.BuildBatchGroup | ios/Pods/leveldb-library/db/db_impl.cc:1270-1316 | The group is the longest run of the queue allowed, its batches concatenated in order; writers with a null batch join it, and only the size limit or a sync writer behind a non-sync leader stops it |
| WriterQueue.GroupLimits | ios/Pods/leveldb-library/db/db_impl.cc:1276-1310 | What such a group may be: at most 1 MiB, or 128 KiB more than a small first batch; no sync writer behind a leader that does not sync; and the next in line has to wait |
| WriterQueue.GroupIsConsecutive | ios/Pods/leveldb-library/db/db_impl.cc:1214-1217 | The batches of a group take consecutive, never reused sequence numbers |
| WriterQueue.GroupIsWritten | ios/Pods/leveldb-library/db/db_impl.cc:1219-1244 | What a group writes is the queue-order concatenation of its batches |
| WriterQueue.NextKeepsInv | ios/Pods/leveldb-library/db/db_impl.cc:1195-1266 | Every interleaved step keeps the queue invariant |
| WriterQueue.RunsKeepInv | ios/Pods/leveldb-library/db/db_impl.cc:1195-1266 | It holds in every state of every interleaving |
| WriterQueue.WritersCompleteInOrder | ios/Pods/leveldb-library/db/db_impl.cc:1195-1266 | In every interleaving no writer completes twice and writers complete in queue order, log and memtable hold exactly the completed batches in that order, and a successful sync write is in the synced part of the log |
| WriterQueue.SyncErrorStopsWrites | ios/Pods/leveldb-library/db/db_impl.cc:1226-1242 | After a failed sync no later write succeeds: nothing more reaches the log or the memtable, and every writer still to complete fails, the group of the failed sync included |
| WriterQueue.WritesAreInTheirRecords | ios/Pods/leveldb-library/db/db_impl.cc:1215-1225 | A completed writer whose group was logged finds its operations in the log record it names, under its own numbers |
| WriterQueue.StepsGetNearer | ios/Pods/leveldb-library/db/db_impl.cc:1195-1266 | Every step other than the arrival of a writer brings the queue nearer to its end, so there are only finitely many of them between arrivals |
| WriterQueue.EveryWriterCompletes | ios/Pods/leveldb-library/db/db_impl.cc:1195-1266 | From every reachable state some continuation without new arrivals empties the queue, and then every writer that ever arrived has completed |
| WriterQueue.SnapshotSeesWholeBatches | ios/Pods/leveldb-library/db/db_impl.cc:1110-1155 | A reader that takes the last sequence sees all of each batch completed by then and nothing of any other, however long it reads |
| WriteBatch.Batch.Put | ios/Pods/leveldb-library/db/write_batch.cc:98-103 | The bytes stay the encoding of the operations, now with one more, and the count is patched |
| WriteBatch.Batch.Delete | ios/Pods/leveldb-library/db/write_batch.cc:105-109 | The same for a deletion |
| WriteBatch.Batch.Append | ios/Pods/leveldb-library/db/write_batch.cc:144-148 | The operations of both batches in order, under the first one's sequence number |
| WriteBatch.Batch.SetSequence | ios/Pods/leveldb-library/db/write_batch.cc:94-96 | Patches the sequence and nothing else |
| WriteBatch.InsertInto | ios/Pods/leveldb-library/db/write_batch.cc:132-137 | Inserts the operations with consecutive numbers from the header's, also those before a malformed one |
| WriteBatch.BatchRoundTrip | ios/Pods/leveldb-library/db/write_batch.cc:42-80 | Iterating a batch gives back its operations and its sequence number |
| DbIter.ViewIsSortedMap | ios/Pods/leveldb-library/db/db_iter.cc:177-207 | The entries the iterator may stop on are the sorted map of live keys at its sequence: strictly increasing user keys, each with the value a read finds, and every readable key among them |
| DbIter.DBIter.FindNextUserEntry | ios/Pods/leveldb-library/db/db_iter.cc:177-207 | Stops on the first live entry, past tombstones, overwritten and too-new versions |
| DbIter.DBIter.FindPrevUserEntry | ios/Pods/leveldb-library/db/db_iter.cc:236-276 | Going back, stops with the newest visible version of the nearest earlier live key |
| DbIter.DBIter.Next | ios/Pods/leveldb-library/db/db_iter.cc:141-175 | Moves one forward in the map, whichever direction came before |
| DbIter.DBIter.Prev | ios/Pods/leveldb-library/db/db_iter.cc:209-234 | Moves one back in the map, whichever direction came before |
| DbIter.DBIter.Seek | ios/Pods/leveldb-library/db/db_iter.cc:278-290 | Lands on the first live key at or after the target |
| DbIter.DBIter.SeekToFirst | ios/Pods/leveldb-library/db/db_iter.cc:292-301 | Lands on the first live key |
| DbIter.DBIter.SeekToLast | ios/Pods/leveldb-library/db/db_iter.cc:303-309 | Lands on the last live key |
| DbIter.DBIter.Key | ios/Pods/leveldb-library/db/db_iter.cc:64-67 | The key is that of the map entry the iterator is at |
| DbIter.DBIter.Value | ios/Pods/leveldb-library/db/db_iter.cc:68-71 | So is the value, although in reverse it was saved earlier |
| Merger.MergingIterator.SeekToFirst | ios/Pods/leveldb-library/table/merger.cc:31-37 | Positions on the first entry of the sorted union |
| Merger.MergingIterator.SeekToLast | ios/Pods/leveldb-library/table/merger.cc:39-45 | Positions on the last one |
| Merger.MergingIterator.Seek | ios/Pods/leveldb-library/table/merger.cc:47-53 | Positions where a seek in the sorted union would |
| Merger.MergingIterator.Next | ios/Pods/leveldb-library/table/merger.cc:55-79 | One forward in the sorted union, also after moving backwards |
| Merger.MergingIterator.Prev | ios/Pods/leveldb-library/table/merger.cc:81-108 | One back in the sorted union, also after moving forwards |
| Merger.MergingIterator.FindSmallest | ios/Pods/leveldb-library/table/merger.cc:148-161 | When every child stands at the cut, the least child is on the entry after it |
| Merger.MergingIterator.FindLargest | ios/Pods/leveldb-library/table/merger.cc:163-176 | And the greatest is on the entry before it |
| Merger.MergingIterator.TurnForward | ios/Pods/leveldb-library/table/merger.cc:63-75 | Turning round brings every other child from before the current key to after it |
| Merger.MergingIterator.TurnBack | ios/Pods/leveldb-library/table/merger.cc:89-104 | And the other way |
| TwoLevel.TwoLevelIterator.Seek | ios/Pods/leveldb-library/table/two_level_iterator.cc:82-87 | Positions where a seek in the concatenation of all blocks would |
| TwoLevel.TwoLevelIterator.SeekToFirst | ios/Pods/leveldb-library/table/two_level_iterator.cc:89-94 | Positions on the first entry, past empty blocks |
| TwoLevel.TwoLevelIterator.SeekToLast | ios/Pods/leveldb-library/table/two_level_iterator.cc:96-101 | Positions on the last entry, before empty blocks |
| TwoLevel.TwoLevelIterator.Next | ios/Pods/leveldb-library/table/two_level_iterator.cc:103-107 | One forward in the concatenation, over empty blocks |
| TwoLevel.TwoLevelIterator.Prev | ios/Pods/leveldb-library/table/two_level_iterator.cc:109-113 | One back in the concatenation, over empty blocks |
| TwoLevel.TwoLevelIterator.SkipEmptyDataBlocksForward | ios/Pods/leveldb-library/table/two_level_iterator.cc:115-126 | Skipping changes the block but not the position |
| TwoLevel.TwoLevelIterator.SkipEmptyDataBlocksBackward | ios/Pods/leveldb-library/table/two_level_iterator.cc:128-139 | Going back over empty blocks arrives at the entry just before |
| TwoLevel.TwoLevelIterator.InitDataBlock | ios/Pods/leveldb-library/table/two_level_iterator.cc:146-161 | The block in hand is the one the index names, reused or opened |
| TwoLevel.SeekLands | ios/Pods/leveldb-library/table/two_level_iterator.cc:82-87 | Seeking the index by separators and then one block is seeking the concatenation |
| ByteKeys.RankIsOrderEmbedding | ios/Pods/leveldb-library/util/comparator.cc:27-29 | Ranks in the reals order byte strings exactly as the comparator does, so the ranked keys used elsewhere lose nothing |
| ByteKeys.FindShortestSeparator | ios/Pods/leveldb-library/util/comparator.cc:31-52 | Either unchanged or strictly between the two keys and no longer than the first |
| ByteKeys.FindShortSuccessor | ios/Pods/leveldb-library/util/comparator.cc:54-66 | Either strictly greater and no longer, or unchanged, which is so exactly for keys of only 0xff bytes |
| ByteKeys.ByteKeyOrder | ios/Pods/leveldb-library/db/dbformat.cc:47-63 | Internal keys compare by user key and then by descending tag |
| ByteKeys.InternalSeparator | ios/Pods/leveldb-library/db/dbformat.cc:65-82 | A shortened separator sorts before every entry of its new user key |
| ByteKeys.InternalSuccessor | ios/Pods/leveldb-library/db/dbformat.cc:84-97 | The same for the successor |
| SortedTable.TableBuilder.EmitPendingIndexEntry | ios/Pods/leveldb-library/table/table_builder.cc:102-109 | The delayed separator is at or after its block's last key and before the key about to be added |
| SortedTable.TableBuilder.Add | ios/Pods/leveldb-library/table/table_builder.cc:94-123 | The entry is added, and blocks and separators still cover exactly what was added |
| SortedTable.TableBuilder.Flush | ios/Pods/leveldb-library/table/table_builder.cc:125-139 | The open block is written and its index entry left pending |
| SortedTable.TableBuilder.Finish | ios/Pods/leveldb-library/table/table_builder.cc:198-253 | Index and blocks of the finished table cover the whole input |
| SortedTable.FinishedTableReplays | ios/Pods/leveldb-library/table/table.cc:208-212 | Iterating the finished table gives the input back, and its separators stand between their blocks |
| SortedTable.OneBlockIsEnough | ios/Pods/leveldb-library/table/table.cc:214-242 | Opening the one block the index picks delivers the first entry at or after the key whenever that entry has its user key, and never another entry |
| SortedTable.ShortenedSeparatorMiss | ios/Pods/leveldb-library/table/table.cc:214-242 | When that block has nothing at or after the key, the next entry belongs to another user key |
| SortedTable.InternalGet | ios/Pods/leveldb-library/table/table.cc:214-242 | On a finished table: what is delivered is the first entry at or after the key in the whole table, and it is delivered whenever it has the key's user key |
| SortedTable.NothingDeliveredIff | ios/Pods/leveldb-library/table/table.cc:214-242 | Exactly when nothing is delivered: the table ends before the key, or its first entry at or after the key starts a block and the key is not past the separator before it |
| SortedTable.OneBlockGoesAstray | ios/Pods/leveldb-library/db/version_set.cc:262-275 | The lookup of Levels.LookupGoesAstray is corrupt when the file keeps its two entries in one block |
| SortedTable.BlockEndShields | ios/Pods/leveldb-library/table/table.cc:214-242 | The same lookup in the same file is not corrupt when a block ends between the two entries under a shortened separator |
| BlockFormat.DecodesEntry | ios/Pods/leveldb-library/table/block.cc:55-75 | Decoding an entry gives back its shared length, key suffix and value, on the fast path and on the slow one |
| BlockFormat.BlockBuilder.ChooseShared | ios/Pods/leveldb-library/table/block_builder.cc:77-88 | Shares the longest common prefix, or nothing at a restart point |
| BlockFormat.BlockBuilder.Add | ios/Pods/leveldb-library/table/block_builder.cc:71-105 | The buffer still describes the entries, now with one more |
| BlockFormat.GrowsBy | ios/Pods/leveldb-library/table/block_builder.cc:71-105 | Appending an encoded entry extends what the bytes describe by exactly that entry |
| BlockFormat.BlockBuilder.Finish | ios/Pods/leveldb-library/table/block_builder.cc:61-69 | Appends the restart array and its length |
| BlockFormat.OpenFinished | ios/Pods/leveldb-library/table/block.cc:25-40 | Opening a finished block finds the data and the restart points |
| BlockIterator.Iter.ParseNextKey | ios/Pods/leveldb-library/table/block.cc:225-251 | On a built block, rebuilds the next key from its prefix; on damaged bytes it moves on or stops as corrupt |
| BlockIterator.Iter.SeekToFirst | ios/Pods/leveldb-library/table/block.cc:204-207 | At the first entry |
| BlockIterator.Iter.SeekToLast | ios/Pods/leveldb-library/table/block.cc:209-214 | At the last entry |
| BlockIterator.Iter.Next | ios/Pods/leveldb-library/table/block.cc:138-141 | One entry forward |
| BlockIterator.Iter.Prev | ios/Pods/leveldb-library/table/block.cc:143-162 | One entry back, by rescanning from a restart point; undoes Next |
| BlockIterator.Iter.FindRestart | ios/Pods/leveldb-library/table/block.cc:167-190 | The binary search ends at a restart point before which every key is below the target |
| BlockIterator.Iter.Seek | ios/Pods/leveldb-library/table/block.cc:164-202 | Lands on the first key at or after the target, as a linear scan would |
| BlockIterator.Reopen | ios/Pods/leveldb-library/table/block.cc:25-40 | The bytes of a finished block, opened again, are a good block with exactly the entries added |
| BlockIterator.Replay | ios/Pods/leveldb-library/table/block.cc:138-252 | Walking a finished block from its first entry gives back exactly what was added to the builder |
| FilterBlock.FilterBlockBuilder.StartBlock | ios/Pods/leveldb-library/table/filter_block.cc:21-27 | Filters are generated up to the new block's 2 KiB slot |
| FilterBlock.FilterBlockBuilder.AddKey | ios/Pods/leveldb-library/table/filter_block.cc:29-33 | The key is accounted to the current block offset |
| FilterBlock.FilterBlockBuilder.GenerateFilter | ios/Pods/leveldb-library/table/filter_block.cc:51-75 | The pending keys become one filter, possibly an empty one |
| FilterBlock.FilterBlockBuilder.Finish | ios/Pods/leveldb-library/table/filter_block.cc:35-49 | For every key added while the block at an offset was open, the reader of the finished filter block may not deny it at that offset, if filter data stays under 4 GiB and its 2 KiB slot has fewer than 2^31 keys |
| FilterBlock.ReaderFinds | ios/Pods/leveldb-library/table/filter_block.cc:77-104 | The index arithmetic and the offset array find the filter made from the key's group, for filter data under 4 GiB and every key that the group's count reaches when cut to an int |
| FilterBlock.DeniesOnlyIf | ios/Pods/leveldb-library/table/filter_block.cc:90-104 | The reader denies a key only for an offset it has a filter for, and only if that filter is empty or can be read and lacks a bit of the key: whatever is damaged counts as a match |
| FilterBlock.OversizedFilterDenies | ios/Pods/leveldb-library/table/filter_block.cc:40-48 | Whatever key count and bits per key make a filter reach 4 GiB, there is such a filter block that denies a key it was made from |
| FilterBlock.CountCutDenies | ios/Pods/leveldb-library/table/filter_block.cc:51-75 | For every group of 2^32 keys or more whose count as an int is not negative, there are keys and a filter block under 4 GiB that denies one of them |
| FilterBlock.NegativeCountAsksTooMuch | ios/Pods/leveldb-library/util/bloom.cc:28-40 | A count that turns negative as an int asks for 2^60 bytes of filter or more, unless its product with the bits per key is between -7 and 0 |
| Bloom.CreateFilter | ios/Pods/leveldb-library/util/bloom.cc:28-54 | A bit is set exactly when it is a probe of one of the first n keys, and the last byte is the probe count; n is an int, and sizes wrap at 64 bits |
| Bloom.FilterSize | ios/Pods/leveldb-library/util/bloom.cc:29-37 | Room for the bits asked for, at least 64, rounded up to whole bytes and no more |
| Bloom.KeyMayMatch | ios/Pods/leveldb-library/util/bloom.cc:56-80 | Answers yes exactly when every probe hits a set bit, or the filter uses more than 30 probes |
| Bloom.NoFalseNegatives | ios/Pods/leveldb-library/util/bloom.cc:28-80 | Every key that a filter's count reaches matches it, for any hash function |
| Bloom.FilterReadsExactly | ios/Pods/leveldb-library/util/bloom.cc:56-79 | A key matches a filter exactly if all its bits are set, with as many probes as the filter was made with |
| Bloom.PutBitMeans | ios/Pods/leveldb-library/util/bloom.cc:44-51 | Setting a bit sets that bit and no other |
| SkipList.FindGreaterOrEqual | ios/Pods/leveldb-library/db/skiplist.h:260-281 | The first node at or after the key, and on every level the last node before it |
| SkipList.ReaderHasLink | ios/Pods/leveldb-library/db/skiplist.h:260-281 | A concurrent reader never follows a link that is not there |
| SkipList.PublishKeepsInv | ios/Pods/leveldb-library/db/skiplist.h:361-367 | Publishing one link keeps every level sorted and a part of the level below |
| SkipList.AllocateKeepsInv | ios/Pods/leveldb-library/db/skiplist.h:346-361 | So does raising the height before any link is published |
| SkipList.NextKeepsInv | ios/Pods/leveldb-library/db/skiplist.h:336-368 | Every step of the writer and of any reader keeps the invariant, and no node ever leaves the list |
| SkipList.RunsKeepInv | ios/Pods/leveldb-library/db/skiplist.h:336-368 | It holds in every interleaving |
| SkipList.ListsUnique | ios/Pods/leveldb-library/db/skiplist.h:336-368 | The links alone determine the lists, so the theorems do not depend on the choice of a witness |
| SkipList.SearchMissesNothing | ios/Pods/leveldb-library/db/skiplist.h:260-281 | A search interleaved with insertions returns a node at or after its target, and no node present when it started lies in between |
| SkipList.FinishedInsertIsLinked | ios/Pods/leveldb-library/db/skiplist.h:336-368 | A finished insertion is linked on every one of its levels |
| SkipList.InsertCompletes | ios/Pods/leveldb-library/db/skiplist.h:337-368 | Whatever readers are under way, a new key can be inserted with any height from 1 to 12: the writer is never stuck and the node ends up on exactly the lowest levels |
| SkipList.ReaderGetsNearer | ios/Pods/leveldb-library/db/skiplist.h:260-281 | Every step of a reader moves it to the next node of its level, or down a level, or ends its search |
| HandleList.Remove | ios/Pods/leveldb-library/util/cache.cc:240-243 | Unlinking keeps the ring of the others |
| HandleList.Append | ios/Pods/leveldb-library/util/cache.cc:245-251 | The entry becomes the newest of the ring |
| HandleTables.HandleTable.FindPointer | ios/Pods/leveldb-library/util/cache.cc:115-121 | Finds the entry with the key and hash in its chain, or the end of the chain exactly when there is none |
| HandleTables.HandleTable.Lookup | ios/Pods/leveldb-library/util/cache.cc:75-77 | The chained table is a map: the entry of the key, or none |
| HandleTables.HandleTable.Insert | ios/Pods/leveldb-library/util/cache.cc:79-93 | Replaces the entry of the key or adds one, and grows the table when it is full |
| HandleTables.HandleTable.Remove | ios/Pods/leveldb-library/util/cache.cc:95-103 | Takes exactly the entry of the key |
| HandleTables.HandleTable.Resize | ios/Pods/leveldb-library/util/cache.cc:123-146 | Rehashing into twice the buckets loses and adds nothing |
| LruCache.Cache.Ref | ios/Pods/leveldb-library/util/cache.cc:218-224 | An idle entry moves to the busy list with its first client |
| LruCache.Cache.Unref | ios/Pods/leveldb-library/util/cache.cc:226-238 | The last client of a cached entry makes it the newest idle one; the last of an evicted entry runs its deleter |
| LruCache.Cache.Lookup | ios/Pods/leveldb-library/util/cache.cc:253-260 | Hands out the entry of the key, or nothing exactly when no cached entry has it |
| LruCache.Cache.Release | ios/Pods/leveldb-library/util/cache.cc:262-265 | Takes one handle back |
| LruCache.Cache.Insert | ios/Pods/leveldb-library/util/cache.cc:267-304 | Replaces the entry of the same key, then evicts idle entries oldest first, no more than needed: afterwards the usage fits or no entry is idle; capacity 0 caches nothing; every handle a client holds stays, and a handle that goes has been deleted |
| LruCache.Cache.FinishErase | ios/Pods/leveldb-library/util/cache.cc:308-317 | The entry leaves the cache and its charge is given back; its deleter runs now only if nobody holds it |
| LruCache.Cache.Erase | ios/Pods/leveldb-library/util/cache.cc:319-322 | Erases the entry of the key and nothing else |
| LruCache.Cache.Prune | ios/Pods/leveldb-library/util/cache.cc:324-334 | Deletes every idle entry and keeps every busy one |
| LruCache.Cache.EvictExcess | ios/Pods/leveldb-library/util/cache.cc:294-301 | Evicts the oldest idle entries, stopping as soon as the rest fits |
| Coding.FixedRoundTrip | ios/Pods/leveldb-library/util/coding.h:54-106 | Little-endian numbers decode to what was encoded |
| Coding.EncodeVarint32 | ios/Pods/leveldb-library/util/coding.cc:21-47 | The unrolled branches write the same bytes as the general varint |
| Coding.EncodeVarint64 | ios/Pods/leveldb-library/util/coding.cc:55-64 | The loop writes them too |
| Coding.Varint32RoundTrip | ios/Pods/leveldb-library/util/coding.cc:86-114 | Reading back a 32-bit varint gives the number and the rest of the input, in at most 5 bytes |
| Coding.Varint64RoundTrip | ios/Pods/leveldb-library/util/coding.cc:116-143 | The same for 64 bits, in at most 10 |
| Coding.DecodeVarint | ios/Pods/leveldb-library/util/coding.cc:116-131 | The decoding loop, on any bytes, computes the little-endian base-128 value, or fails when no byte ends it in time |
| Coding.SliceRoundTrip | ios/Pods/leveldb-library/util/coding.cc:145-163 | A length-prefixed slice comes back with the rest of the input |
| LogFormat.Writer.constructor | ios/Pods/leveldb-library/db/log_writer.cc:27-30 | A writer reopened on a file continues in the right place of its block |
| LogFormat.Writer.AddRecord | ios/Pods/leveldb-library/db/log_writer.cc:34-80 | Appends the record's encoding, whatever the position in the block and the length of the record |
| LogFormat.Writer.EmitPhysicalRecord | ios/Pods/leveldb-library/db/log_writer.cc:82-108 | Appends one fragment with checksum, length and type |
| LogFormat.EncodeAllAppend | ios/Pods/leveldb-library/db/log_writer.cc:34-80 | Adding a record to a file that holds some gives the file of all of them, so several writers compose |
| LogReader.Reader.ReadPhysicalRecord | ios/Pods/leveldb-library/db/log_reader.cc:189-271 | On any bytes: the next fragment, damage with the bytes dropped, or the end |
| LogReader.Reader.ReadRecord | ios/Pods/leveldb-library/db/log_reader.cc:56-174 | On any bytes: reassembles the next record and reports exactly the drops |
| LogReader.ReadsFragment | ios/Pods/leveldb-library/db/log_reader.cc:189-271 | A written fragment is read back if it is there in full, and otherwise the file ends quietly |
| LogReader.ReadsRecord | ios/Pods/leveldb-library/db/log_reader.cc:56-174 | A written record is read back if it is there in full, and otherwise nothing is returned or reported |
| LogReader.PrefixReadsBack | ios/Pods/leveldb-library/db/log_reader.cc:56-174 | Every byte prefix of a log reads back as exactly the records that are complete in it, with no corruption reported |
| LogReader.LogRoundTrip | ios/Pods/leveldb-library/db/log_reader.cc:56-174 | A log reads back as exactly the records written, empty ones included |
| LogDamage.FragmentsAreChecked | ios/Pods/leveldb-library/db/log_reader.cc:223-271 | On any bytes: a fragment is returned if and only if an intact chunk, with its checksum, stands where the reader looks for one |
| LogDamage.OnlyIntactRecords | ios/Pods/leveldb-library/db/log_reader.cc:56-174 | On any bytes: every record returned is the data of intact chunks of types FULL, or FIRST MIDDLE* LAST, that follow each other in the file, and no chunk serves two records |
| LogDamage.BytesAreAccounted | ios/Pods/leveldb-library/db/log_reader.cc:56-187 | On any bytes: every byte of an intact fragment or cut off at damage is in a record returned or in a drop reported, except those of a record the end of the file leaves unfinished |
| LogDamage.ChangedPayloadIsReported | ios/Pods/leveldb-library/db/log_reader.cc:243-257 | A chunk whose payload was changed so that the checksum shows it is not returned, and the rest of its block is reported |
| LogDamage.DamageIsContained | ios/Pods/leveldb-library/db/log_reader.cc:56-257 | If the reader finds a written log damaged at one of its fragments, it returns every record before the damaged one and every record that starts in a later block, in order and unchanged, and reports the rest of the block |
| LogDamage.ChangedPayloadIsContained | ios/Pods/leveldb-library/db/log_reader.cc:56-257 | The same from a changed payload alone |
| LogDamage.EofTypeEndsReading | ios/Pods/leveldb-library/db/log_reader.cc:143-151 | An intact chunk of type 5 passes for the end of the file: reading stops there without a report |
| VersionEditFormat.ItemRoundTrip | ios/Pods/leveldb-library/db/version_edit.cc:105-203 | Each kind of field decodes to itself and leaves the rest |
| VersionEditFormat.InsertKeepsAscending | ios/Pods/leveldb-library/db/version_edit.h:74-76 | The set of deleted files stays in the order of level and number, without doubles, and gains exactly the new pair |
| VersionEditFormat.BadLevelIsMalformed | ios/Pods/leveldb-library/db/version_edit.cc:95-103 | A level that does not exist makes the edit malformed, whatever follows it |
| VersionEditFormat.EditRoundTrip | ios/Pods/leveldb-library/db/version_edit.cc:41-203 | Decoding an encoded edit gives it back, on top of the compaction pointers that were there |
| VersionEditFormat.RoundTripIff | ios/Pods/leveldb-library/db/version_edit.cc:26-39 | So the round trip is exact if and only if the receiving edit had no compaction pointers, which Clear does not clear |
| VersionEditFormat.VersionEdit.Clear | ios/Pods/leveldb-library/db/version_edit.cc:26-39 | Clears everything but the compaction pointers |
| VersionEditFormat.VersionEdit.Decode | ios/Pods/leveldb-library/db/version_edit.cc:105-203 | The loop decodes fields until the input ends or is malformed |
| Crc32c.Extend | ios/Pods/leveldb-library/util/crc32c.cc:276-377 | For every start value, length and alignment the four-stride algorithm computes the bit-at-a-time CRC32C |
| Crc32c.LookupIsAdvance | ios/Pods/leveldb-library/util/crc32c.cc:20-63 | One byte-table lookup is eight shifts of the register |
| Crc32c.LookupsAreStride | ios/Pods/leveldb-library/util/crc32c.cc:65-244 | Four stride-table lookups advance a register by sixteen zero bytes |
| Crc32c.Swath | ios/Pods/leveldb-library/util/crc32c.cc:294-311 | One turn of the 16-byte loop absorbs sixteen bytes |
| Crc32c.Rotated | ios/Pods/leveldb-library/util/crc32c.cc:349-358 | A word rotated through the registers absorbs four bytes |
| Crc32c.Combined | ios/Pods/leveldb-library/util/crc32c.cc:313-366 | Recombining the four registers one word at a time gives their combined value |
| Crc32c.Linear | ios/Pods/leveldb-library/util/crc32c.cc:276-377 | Advancing the register is linear under exclusive or |
| Crc32c.ExtendConcat | ios/Pods/leveldb-library/util/crc32c.cc:276-377 | Extending over two pieces is extending over their concatenation |
| Crc32c.MaskRoundTrip | ios/Pods/leveldb-library/util/crc32c.h:29-38 | Masking and unmasking undo each other |
| PbEncode.OStream.Write | ios/Pods/nanopb/pb_encode.c:103-125 | Writes all the bytes or fails for want of room; a sizing stream only counts |
| PbEncode.VarintBytes | ios/Pods/nanopb/pb_encode.c:608-628 | The loop produces the varint of the number |
| PbEncode.Encode | ios/Pods/nanopb/pb_encode.c:769-911 | Each field encoder writes the value's encoding, on either kind of stream |
| PbEncode.EncodeSubmessage | ios/Pods/nanopb/pb_encode.c:717-765 | Sized first and then written through a bounded substream: the length written is the length of what follows |
| PbEncode.EncodeAnArray | ios/Pods/nanopb/pb_encode.c:147-236 | Packed or not, the array's encoding is written, with the packed size known before its first byte |
| PbEncode.PackedSize | ios/Pods/nanopb/pb_encode.c:169-189 | The sizing pass counts the bytes the elements will take |
| PbEncode.EncodeOneField | ios/Pods/nanopb/pb_encode.c:341-426 | A field is written exactly when it is required, present, not empty or, for a singular one, not zero; PbExchange.MessageComesBack says that this loses nothing |
| PbEncode.EncodeMessage | ios/Pods/nanopb/pb_encode.c:528-550 | All fields in order, on either kind of stream |
| PbEncode.EncodeTwice | ios/Pods/nanopb/pb_encode.c:567-576 | The size reported is the number of bytes encoding then writes, and encoding succeeds exactly when they fit |
| PbEncode.WroteBoth | ios/Pods/nanopb/pb_encode.c:103-125 | Two writes in a row are one write of the concatenation |
| PbDecoder.DecodeVarint32 | ios/Pods/nanopb/pb_decode.c:187-247 | The loop computes the decoder's reading of 32-bit varints, on any bytes |
| PbRoundTrip.Varint32Means | ios/Pods/nanopb/pb_decode.c:187-247 | What that reading means, canonical or not: an accepted varint of up to 37 bytes is its base-128 value modulo 2^32 |
| PbRoundTrip.Varint32AcceptsIff | ios/Pods/nanopb/pb_decode.c:187-247 | Exactly which varints of up to 37 bytes are accepted: those that fit 32 bits, and longer ones with zero padding or the sign extension of a negative number |
| PbDecoder.FieldIter.Next | ios/Pods/nanopb/pb_common.c:29-85 | Steps to the next field and wraps at the end |
| PbDecoder.FieldIter.FindTag | ios/Pods/nanopb/pb_common.c:87-106 | Going round once from anywhere finds the field of the tag, or comes back to where it was; without fields it finds the terminator, for the tag zero alone |
| PbDecoder.FieldIter.CountRequired | ios/Pods/nanopb/pb_decode.c:1040-1058 | Counts the required fields, up to the size of the mask |
| PbDecoder.MaskComplete | ios/Pods/nanopb/pb_decode.c:1060-1077 | Whole words and then the remaining bits: true exactly when every counted bit is set |
| PbDecoder.DecodeNoInit | ios/Pods/nanopb/pb_decode.c:934-1082 | The message loop computes the decoding of the bytes into the struct, on any bytes and for any schema, also one without fields |
| PbRoundTrip.Varint32Reads | ios/Pods/nanopb/pb_decode.c:187-247 | Every 32-bit number is read back from its varint |
| PbRoundTrip.NumberReads | ios/Pods/nanopb/pb_decode.c:1334-1445 | Every number of every scalar type and width is read back |
| PbRoundTrip.SignRoundTrip | ios/Pods/nanopb/pb_encode.c:776-797 | Sign extension to 64 bits and back loses nothing |
| PbRoundTrip.ZigzagRoundTrip | ios/Pods/nanopb/pb_encode.c:630-639 | Zigzag and back loses nothing |
| PbRoundTrip.ValueReads | ios/Pods/nanopb/pb_decode.c:1334-1570 | Every value is read back, submessages included |
| PbRoundTrip.FieldReads | ios/Pods/nanopb/pb_decode.c:406-483 | Decoding what one field encoded to takes that field and leaves the rest, whichever fields came before |
| PbRoundTrip.MessageReads | ios/Pods/nanopb/pb_decode.c:934-1096 | For every schema of static fields, with or without declared defaults, and every message that fits it, decoding the encoding succeeds and restores every slot that is sent, the others at their defaults, recursively |
| PbExchange.MessageComesBack | ios/Pods/nanopb/pb_decode.c:934-1096 | Round trip told on the message itself: decoding succeeds and every field comes back, required and singular values, presence of optional and oneof fields, every array element, submessages recursively; only a singular zero with a declared default turns into that default |
| PbExchange.SkipsValue | ios/Pods/nanopb/pb_decode.c:321-331 | The wire type alone tells where any encoded value ends |
| PbExchange.UnknownFieldSkipped | ios/Pods/nanopb/pb_decode.c:965-994 | Whatever a field of any kind was sent as, a receiver without it passes over it |
| PbExchange.ZeroFieldNumber | ios/Pods/nanopb/pb_decode.c:965-994 | The field number zero is passed over by its wire type, except that a message type without fields reads a varint there |
| PbExchange.MessageExchanged | ios/Pods/nanopb/pb_decode.c:934-1082 | Old and new programs: decoding under another schema gives the shared fields as sent, the receiver's own fields at their defaults, fields in any order, and fails exactly if one of its first 64 required fields is not among the sender's |
| PbExchange.EveryWordDecodes | ios/Pods/nanopb/pb_decode.c:1334-1420 | A 64-bit field takes any varint and a signed 32-bit one its low word, with its sign |
| PbExchange.FixedArrayReplaced | ios/Pods/nanopb/pb_decode.c:996-1020 | The first part of a packed array of fixed length replaces what the struct held |
| PbExchange.WireExamples | ios/Pods/nanopb/pb_encode.c:769-911 | Keys and values of each wire type, byte for byte |
| PbFits.MessageFits | ios/Pods/nanopb/pb_decode.c:934-1082 | On any bytes: what decoding stores fits the struct, numbers their width, strings and bytes their buffers, arrays their room, and arrays of fixed length are whole or empty |
| PbFits.AnyBytesFit | ios/Pods/nanopb/pb_decode.c:1084-1096 | Decoding any bytes into a fresh struct never stores what does not fit |

## Left out

Contracts that are weaker than the source's promise in some respect:

- Levels.Get: asks that no version at exactly the lookup sequence has an unknown type (such an entry sorts before the seek target); the tables are any that keep the promise of SortedTable.InternalGet, whatever their blocks and filters; seek charging and read errors are not modelled.
- Levels.PickLevelForMemTableOutput: whether a grandparent level is too crowded is an arbitrary answer, because file sizes are only a performance policy.
- CompactionRules.RecencyPreventsResurfacing: asks that all input entries parse; the exact condition without that is in CompactionRules.DropsAreInvisibleIff.
- CompactionWork.Compaction.DoCompactionWork: cut points are arbitrary inputs, the input iterator is a sorted sequence, and error statuses and shutdown are not modelled.
- InputSelection.PickCompaction: which level and seed file are picked is arbitrary, because scoring and seek charging are performance policy.
- Database.CompactKeepsInv: a compaction is one atomic step that starts from the current version; a flush between its start and its end, and a manual compaction with key gaps between its inputs, are not modelled.
- Database.MoveKeepsInv: a moved file is a selection of one input and no parents; the grandparent-overlap limit is a performance policy.
- SnapshotReads.SnapshotsReadHistory: for runs whose compactions leave nothing older at their next level, which the source does not check; CompactionGap shows that the condition is needed.
- Durability.Durable: a table is the set of batches it accounts for, a compaction accounts for its inputs, so one that drops every entry and writes no table is not a step, and failed log or MANIFEST writes and prev_log_number are not modelled.
- CrashReads.SurvivorsAreRead: for runs whose compactions leave nothing older at their next level, as in SnapshotReads.SnapshotsReadHistory, and whose sequence numbers do not run out; a compaction is chosen and installed in one step, as in Database.CompactKeepsInv.
- Recovery.RecoverLogFile: log records under 12 bytes and corrupt records, which the source skips or reports, are not modelled.
- WriterQueue.WritersCompleteInOrder: the order in which sleeping writers wake, and running out of sequence numbers, are not modelled.
- DbIter.ViewIsSortedMap: asks that all entries parse; for others the view is what the loops do with them, which is to pass over them.
- DbIter.DBIter.FindNextUserEntry: corruption statuses and read sampling are not modelled.
- Merger.MergingIterator.Seek: asks that no two children share an internal key, which unique sequence numbers guarantee; child errors are not modelled.
- TwoLevel.TwoLevelIterator.InitDataBlock: reading a block is a total map from handles to blocks, so read errors are not modelled.
- SortedTable.TableBuilder.Finish: the bytes of the footer and the meta blocks, compression and write errors are not modelled; handles are file offsets.
- SortedTable.InternalGet: for tables as TableBuilder leaves them; the filter check before the block read is not part of it, and FilterBlock shows that the check never denies a present key below 4 GiB of filter data and 2^31 keys in a slot.
- BlockIterator.Iter.ParseNextKey: on damaged blocks asks that lengths do not wrap around at 32 bits when added, which the source does not check.
- BlockFormat.OpenFinished: blocks of 4 GiB or more, where restart offsets are cut to 32 bits, are excluded.
- FilterBlock.FilterBlockBuilder.Finish: promises no false negatives only for filter data under 4 GiB and slots of fewer than 2^31 keys, because offsets are cut to 32 bits and counts to an int; a filter too big for memory, where the source throws, is just a long sequence.
- Bloom.CreateFilter: the number of probes is a parameter between 1 and 30 instead of 0.69 times the bits per key, and hash values are an arbitrary function.
- Crc32c.Extend: the tables are characterised by what a lookup advances, not listed number by number, and the hardware-accelerated path is not modelled.
- LogDamage.DamageIsContained: for damage within one block that the reader notices at a fragment's start; LogReader.PrefixReadsBack covers a missing end.
- LogReader.PrefixReadsBack: for a reader that starts at offset 0 of the file; initial offsets and LastRecordOffset are not modelled.
- VersionEditFormat.EditRoundTrip: for numbers in their 64-bit ranges, levels below 7 and non-empty file boundary keys, which is what the code writes.
- SkipList.SearchMissesNothing: pointer steps are sequentially consistent and heights arbitrary from 1 to 12; FindLessThan, FindLast and the backward iterator are left out.
- LruCache.Cache.Insert: covers one shard; sharding by hash bits, SetCapacity after use and the destructor are left out.
- PbRoundTrip.MessageReads: for messages whose encoding is under 4 GiB and whose struct contents fit their declared bounds; slots that are absent come back at their defaults.
- PbExchange.MessageExchanged: the two schemas may differ in their top-level fields; a submessage field they share has the same type on both sides.
- ClientView.SnapshotIsolation: for runs whose compactions leave nothing older at their next level, as in SnapshotReads.SnapshotsReadHistory.
- PbEncode.EncodeMessage: a struct that exceeds its declared bounds is excluded by precondition, where the source returns an error.
- PbDecoder.DecodeNoInit: the struct is a value returned at the end, so a partly written struct after an error is not described; the elements of a fixed-count array that were not sent have no value; the byte that a zero field number writes into a struct without fields is not modelled.
- PbRoundTrip.Varint32Means: says nothing about varints of more than 37 bytes, where the source's eight-bit position comes round.

Parts of the repository not modelled:

- Files, memory maps, locks, threads, clocks and log messages: foreign calls; a file is a byte sequence and a critical section is one step.
- The byte encoding of memtable entries and the arena: the memtable is a sorted sequence of entries.
- The linked list behind snapshots: modelled as a sequence, oldest first.
- The comparator's user-defined variants: everything is proved for any total order through ranks, and for bytes in ByteKeys.
- Compaction scoring, seek charging, read sampling and grandparent-overlap cut points: performance policy.
- Snappy, the C bindings, the dump and repair tools, histograms and statistics: external code, wrappers and reporting.
- nanopb callbacks, extensions, pointer fields, dynamic allocation and the build without 64-bit integers: user code or compile-time variants.
- The wrap-around of sizes at 64 bits.
- libwebp's sharpyuv, AppAuth, Mantle, SDWebImage, Toast and the app's own Swift and Dart code: floating-point tables, declarations and user interface.
