# Storage engine and message codec: a verified model

The application ships two vendored engines, and this project models both and proves what they are for.

**LevelDB 1.20** (`HateBlocker/Pods/leveldb-library`) is a log-structured merge tree. Its specification is a map from (user key,
snapshot) to an optional value; `Meaning.Lookup` is that map over a set of entries, and every layer is shown to refine it:

| layer | files |
|---|---|
| keys, meaning and bytes | `Keys`, `Meaning`, `Coding`, `Crc32c`, `CrcTables`, `Formats` |
| commit and recovery | `WriteBatch`, `GroupCommit`, `Log`, `LogDamage`, `Recovery`, `Manifest`, `VersionEdit`, `VersionBuilder` |
| versions and compaction | `Versions`, `Inputs`, `Compaction`, `VersionSteps`, `MidCompaction`, `Engine`, `Background` |
| iterators | `Cursor`, `Merger`, `TwoLevel`, `DbIter`, `DbView` |
| tables | `Block`, `Separator`, `Bloom`, `FilterBlock`, `Table` |
| pointer structures | `SkipList`, `HandleTable`, `LruCache` |

**nanopb 0.3.8** (`HateBlocker/Pods/nanopb`) is a descriptor-driven codec for the Protocol Buffers wire format. `PbMessage` gives the
bytes a struct stands for, `PbRead` what any bytes mean to the decoder, `PbEncode` and `PbDecode` are the stream code proved
against them. `PbFormat` says what the bytes are in numbers, and `PbRecords`, `PbMembers`, `PbRoundTrip` and `PbBounds` hold the theorems.

The main results:

- A step of the engine (write, memtable switch, flush, file move, compaction, snapshot, crash and reopening) keeps the invariant if and
  only if it is safe, a condition on the state before it that only moves and compactions can violate
  (`Engine.StepKeepsInv`). After safe steps every live snapshot and the latest view read exactly what the history of writes says
  (`Engine.EveryLiveReadIsRight`, `Engine.DbGet`), and a scan through the whole iterator stack lists exactly the pairs the history
  shows, in key order (`DbView.Scan`).
- A round of background work (picking, merging, dropping, cutting, installing), run with the modelled code, is such a step
  (`Background.CompactMemTable`, `Background.CompactAround`). What a compaction writes is said without its own drop rules: exactly the
  entries that are newest at some kept snapshot, without the old markers that no file two or more levels down spans
  (`Compaction.KeptExactly`, `Compaction.Reclaims`), from inputs that grow exactly when they may (`Inputs.SetupOtherInputs`).
- In every run with a crash between any two steps, the disk alone recovers all appended records but those a committed compaction
  dropped, and garbage collection removes nothing that is needed (`Recovery.CrashSafe`, `Recovery.NothingNeededIsDeleted`). Wherever
  recovery cuts the logs into tables, the reopened engine answers as before (`Engine.ReopenInv`), and the last sequence number it comes
  up with is that of the last record appended (`Recovery.LastSequenceSurvives`).
- Every byte prefix of a log reads back as exactly the records that end inside it, with no corruption reported (`Log.WriteTearRead`).
  From any file at all the reader returns only records that stand there whole (`LogDamage.NothingInvented`), and overwritten blocks
  cost no record that does not touch them (`LogDamage.DamageIsContained`). The checksum, computed four bytes at a time from tables, is
  the division bit by bit (`CrcTables.ExtendByTables`), and any single changed byte changes it (`Crc32c.OneByteChangesCrc`).
- In every interleaving of writer threads the memtable is exactly the batches of the successful writers, each once, in order of
  arrival (`GroupCommit.MemTableIsSuccesses`, `GroupCommit.WritersOwnStretches`), and the head of the queue can always move on without
  failing (`GroupCommit.HeadCanMove`).
- Every interleaving of one inserting thread with any number of searching ones ends each search with the right answer for the list
  at its last load (`SkipList.EverySearchIsRight`).
- Every mix of iterator moves is a walk of the cursor it stands for: `DbIter.DBIter.PerformAll`,
  `Merger.MergingIterator.PerformAll`, `TwoLevel.TwoLevelIterator.PerformAll`, `Block.Iter`.
- On every concatenation of well-formed fields the decoder's result is said field by field: it fails if a required field is missing,
  and an unknown field of any wire type changes nothing (`PbRecords.DecodingMeans`, `PbRecords.UnknownIsIgnored`).
- Decoding an encoded message restores it, at every nesting depth (`PbRoundTrip.MessageRoundTrip`); whatever bytes decode at all give a
  struct within its bounds that encodes and decodes back to itself (`PbBounds.DecodedReencodes`); the encoder succeeds exactly when
  the size it would compute fits (`PbEncode.Encode`).

Five properties turned out to be false of the code as it stands. Each has a concrete input and its exact condition, which reads only
what is known before the step:

- Above level 0 the inputs of a compaction may hold one of two files that split a user key: the picker takes a single file
  (`db/version_set.cc:1306-1342`), a manual compaction cuts its list short (`db/version_set.cc:1423-1438`). Then shallower may no longer
  be newer, and a read is stale (`VersionSteps.SplitKeyServesStale`). It stays newer if and only if every key split out of the inputs
  has a droppable marker as its newest input entry (`VersionSteps.CompactRecency`; `VersionSteps.MoveRecency` for moves).
- From such inputs a deletion marker can be dropped whose older value stays behind, because `IsBaseLevelForKey` skips the two levels of
  the inputs: the deleted key is back (`VersionSteps.DroppedMarkerResurrects`). No snapshot can tell if and only if no dropped marker
  that is newest at the smallest snapshot has a value as the next older entry outside the inputs
  (`Compaction.DroppingKeepsMeaning`, `VersionSteps.CompactionKeepsMeaning`). Inputs that no user key leaves are always safe
  (`VersionSteps.ClosedInputsAreSafe`).
- A flush may commit while a compaction runs (`db/db_impl.cc:918-927`) and land between its inputs at the output level; an output
  that spans the gap then swallows the flushed file's range and its keys are lost to readers (`MidCompaction.GapSwallowsFlush`). The
  levels stay disjoint if and only if no such file lies inside the range of an output (`MidCompaction.FlushMidCompaction`,
  `MidCompaction.AnyCuttingIsClear`). Automatically picked inputs leave no gap (`Inputs.SetupOtherInputs`, `MidCompaction.GaplessIsSafe`);
  those of a manual compaction may.
- Replaying a history through one builder brings back a deleted file whose number is added again, or keeps only the old file if
  both start at the same key (`VersionBuilder.ReaddResurrects`). Recovery agrees with the running database after every edit if and
  only if every edit adds cleanly (`VersionBuilder.RecoveryAgrees`).
- Damage inside a log block is contained only if it does not look like a checked record of type 5: the reader's own sign for the end of
  the file is that number (`db/log_reader.h:83`), and such a record ends the reading (`LogDamage.FalseEnd`).

`dafny verify dfyconfig.toml` checks the whole project.

## Model

| member | source | states |
|---|---|---|
| Keys.Compare | HateBlocker/Pods/leveldb-library/util/comparator.cc:25-27 | the bytewise comparator is a strict total order: it agrees with an order embedding into the reals, and is 0 only on equal keys |
| Keys.CompareIsLexicographic | HateBlocker/Pods/leveldb-library/util/comparator.cc:25-27 | smaller means: a proper prefix, or a smaller byte at the first difference |
| Keys.InternalCompare | HateBlocker/Pods/leveldb-library/db/dbformat.cc:50-66 | increasing user key, then decreasing tag; a strict total order by an order embedding into the reals |
| Meaning.RunGetIsOutcome | HateBlocker/Pods/leveldb-library/db/memtable.cc:108-145 | looking only at the entry one seek lands on answers for the whole sorted run: the newest entry the snapshot sees, or none |
| Meaning.SeekLandsOnNewest | HateBlocker/Pods/leveldb-library/db/memtable.cc:108-145 | the entry at or past (user key, snapshot) is the newest visible one, and if its user key differs there is none |
| Meaning.LayeredRead | HateBlocker/Pods/leveldb-library/db/db_impl.cc:1131-1144 | searching a newer layer first and stopping at a hit answers for both layers together |
| Versions.FindFile | HateBlocker/Pods/leveldb-library/db/version_set.cc:86-105 | binary search: the first file whose largest key is at or past the key |
| Versions.SomeFileOverlapsRange | HateBlocker/Pods/leveldb-library/db/version_set.cc:121-156 | true exactly when some file meets the range, for overlapping and for sorted disjoint files |
| Versions.OverlapsIff | HateBlocker/Pods/leveldb-library/db/version_set.cc:107-119 | a file meets a range if and only if some user key lies in both, an absent bound being none |
| Versions.SortNewestFirst | HateBlocker/Pods/leveldb-library/db/version_set.cc:283-285 | the same files in strictly decreasing number |
| Versions.OverlappingNewestFirst | HateBlocker/Pods/leveldb-library/db/version_set.cc:357-372 | exactly the level-0 files whose range holds the user key, newest first |
| Versions.CandidateFile | HateBlocker/Pods/leveldb-library/db/version_set.cc:373-390 | at most one file of a sorted level, which answers for the whole level |
| Versions.CandidateMiss | HateBlocker/Pods/leveldb-library/db/version_set.cc:373-390 | when the first file ending at or past the lookup key holds no visible entry of the key, no file of the level does |
| Versions.SearchFiles | HateBlocker/Pods/leveldb-library/db/version_set.cc:392-425 | searching files newest first and stopping at a hit gives the newest visible entry of them all |
| Versions.SearchLevel | HateBlocker/Pods/leveldb-library/db/version_set.cc:351-426 | a level's search answers as the set of all its entries does |
| Versions.Get | HateBlocker/Pods/leveldb-library/db/version_set.cc:332-429 | level by level, stopping at the first hit: the newest entry at or below the snapshot in the whole version |
| Inputs.GetOverlappingInputs | HateBlocker/Pods/leveldb-library/db/version_set.cc:531-572 | terminates despite restarts; above level 0 exactly the files meeting the range; at level 0 the least overlap-closed set of files meeting it |
| Inputs.GetRange | HateBlocker/Pods/leveldb-library/db/version_set.cc:1224-1243 | the least smallest and greatest largest key of the inputs, both taken by some input |
| Inputs.PickLevelForMemTableOutput | HateBlocker/Pods/leveldb-library/db/version_set.cc:502-528 | at most level 2; below level 0, the chosen level and all above it are clear of the range and no skipped step had too many grandparent bytes; and it stops only where a check forbids going deeper |
| Inputs.MayGoDeeper | HateBlocker/Pods/leveldb-library/db/version_set.cc:509-525 | one more level down is allowed exactly when the next level is clear and not too much overlaps two levels down |
| Inputs.ExpandInputs | HateBlocker/Pods/leveldb-library/db/version_set.cc:1356-1389 | the inputs grow if and only if there are next-level inputs, the files around both are more than were picked, fit the size limit and meet no other next-level file; and then to exactly those files, at level 0 the least overlap-closed set |
| Inputs.SetupOtherInputs | HateBlocker/Pods/leveldb-library/db/version_set.cc:1345-1411 | inputs[1] is exactly the next level's files meeting the hull of the picked ones; inputs[0] grows exactly when it may; the grandparents and the new compaction pointer; picked files without a gap give inputs without a gap |
| Inputs.AroundUnique | HateBlocker/Pods/leveldb-library/db/version_set.cc:1356-1362 | there is one list of files around given ones: the level's files meeting the hull in level order, at level 0 the least overlap-closed set |
| Inputs.SameNextIff | HateBlocker/Pods/leveldb-library/db/version_set.cc:1370-1379 | the larger range takes as many next-level files if and only if it takes no other one |
| Inputs.MeetsHullIff | HateBlocker/Pods/leveldb-library/db/version_set.cc:1345-1354 | a file meets the hull of others if and only if some user key of its range lies between their least and greatest |
| Inputs.Grandparents | HateBlocker/Pods/leveldb-library/db/version_set.cc:1391-1396 | the files two levels down that meet the whole compaction's range |
| Inputs.PickAround | HateBlocker/Pods/leveldb-library/db/version_set.cc:1326-1339 | the picked file, at level 0 with the least overlap-closed set around it: together they leave no gap between them |
| Inputs.ClosureGapless | HateBlocker/Pods/leveldb-library/db/version_set.cc:531-572 | the files collected transitively around a range leave no user key between them and the range uncovered |
| Inputs.WiderSame | HateBlocker/Pods/leveldb-library/db/version_set.cc:1376-1379 | a wider range that takes no more files takes the same ones in the same order: comparing sizes is enough |
| Inputs.SizesAdd | HateBlocker/Pods/leveldb-library/db/version_set.cc:58-64 | the bytes of a list of files are the sum of their sizes |
| Compaction.Cursors.IsBaseLevelForKey | HateBlocker/Pods/leveldb-library/db/version_set.cc:1484-1503 | the monotone cursors, asked in key order, say yes if and only if no file of a level from level + 2 down spans the key |
| Compaction.CursorFinds | HateBlocker/Pods/leveldb-library/db/version_set.cc:1484-1503 | a cursor that skipped only files ending before the key stands where a scan would find the key |
| Compaction.DecideDrop | HateBlocker/Pods/leveldb-library/db/db_impl.cc:939-972 | an entry is dropped exactly when a newer one hides it at every kept snapshot, or it is an old deletion marker at its base level |
| Compaction.DoCompactionWork | HateBlocker/Pods/leveldb-library/db/db_impl.cc:887-1018 | wherever outputs are cut they hold, in order, exactly the entries newest at some kept snapshot, except markers at or below the smallest one whose key no file two or more levels down spans; each output's bounds are its first and last key |
| Compaction.KeptIs | HateBlocker/Pods/leveldb-library/db/db_impl.cc:946-983 | an entry is kept if and only if no drop rule applies to it |
| Compaction.KeptExactly | HateBlocker/Pods/leveldb-library/db/db_impl.cc:946-983 | said without the drop rules: an entry is kept if and only if it is newest of its key at some snapshot at or above the smallest, and it is no marker at or below the smallest whose key no file of level + 2 and deeper spans |
| Compaction.Reclaims | HateBlocker/Pods/leveldb-library/db/db_impl.cc:955-969 | with no reader left and nothing deeper in the way, the outputs hold at most one entry per user key and no deletion marker |
| Compaction.KeptSorted | HateBlocker/Pods/leveldb-library/db/db_impl.cc:938-1008 | dropping keeps the stream sorted |
| Compaction.CutSorted | HateBlocker/Pods/leveldb-library/db/db_impl.cc:983-1005 | cutting a sorted run anywhere gives tables with disjoint increasing ranges and the same entries |
| Compaction.HiddenNeverNewest | HateBlocker/Pods/leveldb-library/db/db_impl.cc:955-957 | an entry dropped by the first rule is never the one a kept snapshot reads |
| Compaction.OlderAllHidden | HateBlocker/Pods/leveldb-library/db/db_impl.cc:958-969 | everything of the same user key after a droppable marker is dropped too |
| Compaction.DroppingKeepsMeaning | HateBlocker/Pods/leveldb-library/db/db_impl.cc:889-1008 | no snapshot at or above the smallest one can tell for a key that entries were dropped, if and only if no dropped marker that is newest at the smallest snapshot has a value as the newest older entry elsewhere |
| VersionSteps.FlushKeeps | HateBlocker/Pods/leveldb-library/db/db_impl.cc:488-532 | placing a flushed table keeps the level invariant and adds exactly the memtable's entries |
| VersionSteps.CompactShaped | HateBlocker/Pods/leveldb-library/db/db_impl.cc:866-885 | installing outputs keeps level 0 numbered by age and deeper levels sorted and disjoint, whatever was chosen |
| VersionSteps.RemainingOnOneSide | HateBlocker/Pods/leveldb-library/db/version_set.cc:1345-1389 | a next-level file that was not chosen lies wholly before or after the inputs, so no output can overlap it |
| VersionSteps.CompactEntries | HateBlocker/Pods/leveldb-library/db/db_impl.cc:866-885 | the new version holds the outputs and everything outside the inputs |
| VersionSteps.CompactRecency | HateBlocker/Pods/leveldb-library/db/version_set.cc:1306-1446 | after a compaction shallower is newer if and only if every user key split out of the inputs has a droppable marker as its newest input entry |
| VersionSteps.CompactionKeepsInvariant | HateBlocker/Pods/leveldb-library/db/db_impl.cc:866-885 | levels stay sorted and disjoint whatever was chosen, nothing is added, and the whole invariant holds if and only if recency does |
| VersionSteps.CompactionKeepsMeaning | HateBlocker/Pods/leveldb-library/db/db_impl.cc:866-1008 | over memtables and version together no snapshot at or above the smallest one can tell for a key, if and only if no dropped marker of it hides a value outside the inputs |
| VersionSteps.MoveRecency | HateBlocker/Pods/leveldb-library/db/db_impl.cc:717-736 | moving one file down keeps shallower-is-newer if and only if, above level 0, its last user key does not continue in a later file of its level |
| VersionSteps.SplitKeyServesStale | HateBlocker/Pods/leveldb-library/db/version_set.cc:1306-1342 | the concrete failure: after moving one of two files that split a key, the level the read meets first holds the older version |
| VersionSteps.DroppedMarkerResurrects | HateBlocker/Pods/leveldb-library/db/version_set.cc:1413-1503 | the concrete failure: compacting the first of two files that split a key drops its marker at the base level, and the deleted value is read again |
| VersionSteps.ClosedInputsAreSafe | HateBlocker/Pods/leveldb-library/db/version_set.cc:1306-1411 | inputs that no user key leaves satisfy both conditions, for every stream, snapshot and memtable |
| VersionSteps.OutputsRecency | HateBlocker/Pods/leveldb-library/db/db_impl.cc:866-885 | shallower is newer after a compaction if and only if nothing left behind at the level is older than an output of the same key |
| MidCompaction.FlushMidCompaction | HateBlocker/Pods/leveldb-library/db/db_impl.cc:887-927 | with a flush committed during a compaction, the final version holds the compacted one and the memtable, and keeps the invariant if and only if the flush did not land among the outputs inside the range of one |
| MidCompaction.CommitAfterFlushes | HateBlocker/Pods/leveldb-library/db/db_impl.cc:887-927 | the same for any number of flushes during one compaction |
| MidCompaction.FlushCommutes | HateBlocker/Pods/leveldb-library/db/db_impl.cc:866-927 | committing the compaction after the flush gives the version that flushing after the commit gives |
| MidCompaction.AnyCuttingIsClear | HateBlocker/Pods/leveldb-library/db/db_impl.cc:927-1005 | a flush between the inputs is harmless however the outputs are cut, if and only if the kept entries are all on one side of it |
| MidCompaction.GaplessIsSafe | HateBlocker/Pods/leveldb-library/db/version_set.cc:1291-1411 | inputs without a gap, as PickCompaction gives, leave no room for a flush between them |
| MidCompaction.GapSwallowsFlush | HateBlocker/Pods/leveldb-library/db/version_set.cc:1413-1446 | the concrete failure: a manual compaction of two separate files around a flushed one; the levels overlap and the flushed key is not found |
| Engine.StepKeepsInv | HateBlocker/Pods/leveldb-library/db/db_impl.cc:717-885 | a step keeps the level invariant, the order of memtables and logs, and the meaning of the history if and only if it is safe, which only moves and compactions can fail to be |
| Engine.CompactionInv | HateBlocker/Pods/leveldb-library/db/db_impl.cc:866-1018 | a compaction keeps the invariant if and only if splits are dropped and no dropped marker hides a value, in version or memtables |
| Engine.MoveInv | HateBlocker/Pods/leveldb-library/db/db_impl.cc:717-736 | a move keeps the invariant if and only if the file shares its last user key with no later file of its level |
| Engine.ReopenInv | HateBlocker/Pods/leveldb-library/db/db_impl.cc:284-466 | after a crash, wherever recovery cuts the logs into level-0 tables, the engine has the same contents and the invariant again |
| Engine.ReplayedOrder | HateBlocker/Pods/leveldb-library/db/db_impl.cc:403-447 | tables written from later records are newer than those from earlier ones, so file numbers order them by age |
| Engine.RunKeepsInv | HateBlocker/Pods/leveldb-library/db/db_impl.cc:717-885 | the invariant holds in every state of every run as long as its steps are safe |
| Engine.OldestReader | HateBlocker/Pods/leveldb-library/db/db_impl.cc:899-904 | a compaction drops nothing that a held snapshot or the latest view may read: its smallest snapshot is the oldest one held, or the last number if none is |
| Engine.LastSequenceCounts | HateBlocker/Pods/leveldb-library/db/db_impl.cc:1211-1245 | over a run, reopenings included, the last sequence number counts the operations written |
| Engine.DbGet | HateBlocker/Pods/leveldb-library/db/db_impl.cc:1109-1154 | memtable, then immutable memtable, then version: the answer the whole history of writes gives |
| Engine.EveryLiveReadIsRight | HateBlocker/Pods/leveldb-library/db/db_impl.cc:1109-1184 | in every state reached by safe steps, every held snapshot and the latest view agree with the history |
| Engine.SnapshotNeverChanges | HateBlocker/Pods/leveldb-library/db/db_impl.cc:1175-1184 | what a sequence number showed in the history it shows in every later state, in every run |
| Engine.BatchShowsLastOp | HateBlocker/Pods/leveldb-library/db/write_batch.cc:112-134 | after a batch each key shows the batch's last operation on it, or what it showed before |
| Engine.WritesActOnTheMap | HateBlocker/Pods/leveldb-library/db/db_impl.cc:1194-1267 | a write updates the latest map by its batch; no other step changes it |
| Background.CompactMemTable | HateBlocker/Pods/leveldb-library/db/db_impl.cc:488-565 | building the table, picking its level and installing the edit, by the modelled code, is a flush step of the engine and keeps its invariant |
| Background.CompactAround | HateBlocker/Pods/leveldb-library/db/db_impl.cc:686-770 | picking inputs around a file, merging, dropping, cutting and installing, by the modelled code, is a compaction step of the engine over inputs without a gap that hold the file, and keeps the invariant whenever no user key is split out of them |
| Background.MergeInputs | HateBlocker/Pods/leveldb-library/db/version_set.cc:1256-1289 | the input iterator walks exactly the entries of the inputs as one sorted run |
| Background.CompactionInstalls | HateBlocker/Pods/leveldb-library/db/db_impl.cc:866-885 | applying the edit of a compaction removes exactly the inputs and adds exactly the outputs at the next level |
| DbIter.LiveIsLookup | HateBlocker/Pods/leveldb-library/db/db_iter.cc:173-203 | the live positions are the snapshot's map: one for each key that has a value, holding it |
| DbIter.LiveKeysIncrease | HateBlocker/Pods/leveldb-library/db/db_iter.cc:173-203 | live positions carry strictly increasing user keys |
| DbIter.SeekSplitsLive | HateBlocker/Pods/leveldb-library/db/db_iter.cc:274-286 | the internal seek separates live keys before the target from those at or past it |
| DbIter.ScanForward | HateBlocker/Pods/leveldb-library/db/db_iter.cc:173-203 | the least live position past the skipped key, none live in between |
| DbIter.ScanBackward | HateBlocker/Pods/leveldb-library/db/db_iter.cc:232-272 | the greatest live position before the start, with its key and value saved |
| DbIter.DBIter.Seek | HateBlocker/Pods/leveldb-library/db/db_iter.cc:274-286 | the first live key at or past the target |
| DbIter.DBIter.SeekToFirst | HateBlocker/Pods/leveldb-library/db/db_iter.cc:288-297 | the first live key |
| DbIter.DBIter.SeekToLast | HateBlocker/Pods/leveldb-library/db/db_iter.cc:299-304 | the last live key |
| DbIter.DBIter.Next | HateBlocker/Pods/leveldb-library/db/db_iter.cc:146-171 | the next live key, after a change of direction too |
| DbIter.DBIter.Prev | HateBlocker/Pods/leveldb-library/db/db_iter.cc:205-230 | the previous live key, after a change of direction too |
| DbIter.DBIter.Current | HateBlocker/Pods/leveldb-library/db/db_iter.cc:66-73 | key and value are those of the live entry at the cursor, in both directions |
| DbIter.DBIter.PerformAll | HateBlocker/Pods/leveldb-library/db/db_iter.cc:146-304 | any sequence of moves is the same sequence on the cursor over live keys |
| DbIter.NextIsSuccessor | HateBlocker/Pods/leveldb-library/db/db_iter.cc:146-171 | what Next moves to is live, past the current user key, with no live key between; or there is none |
| DbIter.PrevIsPredecessor | HateBlocker/Pods/leveldb-library/db/db_iter.cc:205-230 | what Prev moves to is live, before the current user key, with no live key between; or there is none |
| DbIter.SeekFindsLeast | HateBlocker/Pods/leveldb-library/db/db_iter.cc:274-286 | what Seek moves to is live, at or past the target, and no live key at or past the target comes sooner |
| DbIter.EndsAreEnds | HateBlocker/Pods/leveldb-library/db/db_iter.cc:288-304 | no live key comes before the first or after the last |
| DbView.LevelIsIndexed | HateBlocker/Pods/leveldb-library/db/version_set.cc:163-233 | a level's files, indexed by their largest keys, form a two-level iterator over exactly the level's entries in order |
| DbView.ChildrenAreFamily | HateBlocker/Pods/leveldb-library/db/db_impl.cc:1067-1096 | the children of the internal iterator are sorted, have no key in common and hold exactly the engine's contents |
| DbView.MergeIsContents | HateBlocker/Pods/leveldb-library/db/db_impl.cc:1067-1096 | what the merging iterator walks is the engine's contents as one sorted run |
| DbView.StackShowsSnapshot | HateBlocker/Pods/leveldb-library/db/db_impl.cc:1156-1167 | the live positions of the stack at a snapshot are the keys the history shows there, each once, with its value |
| DbView.Scan | HateBlocker/Pods/leveldb-library/db/db_impl.cc:1067-1167 | a scan from first to last gives exactly the pairs the history shows at the snapshot, in strictly increasing key order |
| Merger.MergeExists | HateBlocker/Pods/leveldb-library/table/merger.cc:186-195 | sorted children with pairwise distinct keys have a sorted merge |
| Merger.FindSmallest | HateBlocker/Pods/leveldb-library/table/merger.cc:155-168 | a child with the least current key, or none when none is valid |
| Merger.FindLargest | HateBlocker/Pods/leveldb-library/table/merger.cc:170-183 | a child with the greatest current key, or none when none is valid |
| Merger.SmallestIsNext | HateBlocker/Pods/leveldb-library/table/merger.cc:155-168 | with every child at its first entry at or past a place of the merge, the smallest is the entry at that place |
| Merger.LargestIsPrevious | HateBlocker/Pods/leveldb-library/table/merger.cc:170-183 | with every child at its last entry before a place of the merge, the largest is the entry just before it |
| Merger.TurnForward | HateBlocker/Pods/leveldb-library/table/merger.cc:67-79 | turning round puts every child at its first entry at or past the current one |
| Merger.TurnBack | HateBlocker/Pods/leveldb-library/table/merger.cc:93-108 | turning round puts every child at its last entry up to the current one |
| Merger.MergingIterator.Seek | HateBlocker/Pods/leveldb-library/table/merger.cc:51-57 | the cursor over the merge moves to the first entry at or past the target |
| Merger.MergingIterator.Next | HateBlocker/Pods/leveldb-library/table/merger.cc:59-83 | one forward on the merge, in either direction |
| Merger.MergingIterator.Prev | HateBlocker/Pods/leveldb-library/table/merger.cc:85-112 | one back on the merge, in either direction |
| Merger.MergingIterator.PerformAll | HateBlocker/Pods/leveldb-library/table/merger.cc:35-112 | any legal run of moves is a run of the cursor over the sorted merge |
| TwoLevel.SeekThroughIndex | HateBlocker/Pods/leveldb-library/table/two_level_iterator.cc:91-96 | seeking the index and then the named block lands where a seek of the concatenation does |
| TwoLevel.TwoLevelIterator.SkipForward | HateBlocker/Pods/leveldb-library/table/two_level_iterator.cc:125-136 | goes over empty blocks to the entry at the wanted place, or becomes invalid at the end |
| TwoLevel.TwoLevelIterator.SkipBackward | HateBlocker/Pods/leveldb-library/table/two_level_iterator.cc:138-149 | goes back over empty blocks to the entry before the wanted place, or becomes invalid at the front |
| TwoLevel.TwoLevelIterator.Seek | HateBlocker/Pods/leveldb-library/table/two_level_iterator.cc:91-96 | the first entry of the concatenation at or past the target |
| TwoLevel.TwoLevelIterator.Next | HateBlocker/Pods/leveldb-library/table/two_level_iterator.cc:112-116 | one forward on the concatenation |
| TwoLevel.TwoLevelIterator.Prev | HateBlocker/Pods/leveldb-library/table/two_level_iterator.cc:118-122 | one back on the concatenation |
| TwoLevel.TwoLevelIterator.PerformAll | HateBlocker/Pods/leveldb-library/table/two_level_iterator.cc:91-170 | any legal run of moves is a run of the cursor over the concatenation of the blocks |
| Coding.VarintRoundTrip | HateBlocker/Pods/leveldb-library/util/coding.cc:47-158 | a number below 128^n takes at most n bytes and is read back, whatever follows it |
| Coding.DelimitedRoundTrip | HateBlocker/Pods/leveldb-library/util/coding.cc:98-192 | a length-prefixed string is read back, whatever follows it |
| Coding.FixedRoundTrip | HateBlocker/Pods/leveldb-library/util/coding.cc:9-45 | a fixed-width little-endian number is read back |
| Coding.VarintIsBase128 | HateBlocker/Pods/leveldb-library/util/coding.cc:47-96 | a varint is the sum of its seven-bit groups times 128^i, the top bit set on all bytes but the last, and has no needless last byte |
| Coding.ReadsSpelling | HateBlocker/Pods/leveldb-library/util/coding.cc:112-170 | any spelling of at most five (ten) bytes is read as its low 32 (64) bits, a longer one is refused |
| Coding.DelimitedIff | HateBlocker/Pods/leveldb-library/util/coding.cc:172-192 | a string is read if and only if the bytes are a length of at most five bytes, that many bytes, and the rest |
| Crc32c.ExtendComposes | HateBlocker/Pods/leveldb-library/util/crc32c.cc:299-350 | the CRC of two pieces is the extension of the first piece's CRC by the second |
| Crc32c.OneByteChangesCrc | HateBlocker/Pods/leveldb-library/util/crc32c.cc:299-347 | two strings that differ in one byte have different checksums, wherever it is |
| CrcTables.ExtendByTables | HateBlocker/Pods/leveldb-library/util/crc32c.cc:299-347 | for a string at any address, single bytes up to a multiple of four, then words through four tables, then single bytes: the division by the polynomial bit by bit |
| CrcTables.Step4IsFold | HateBlocker/Pods/leveldb-library/util/crc32c.cc:313-320 | one word through the four tables is four bytes through the division |
| CrcTables.Step1IsByteStep | HateBlocker/Pods/leveldb-library/util/crc32c.cc:309-312 | one byte through the first table is eight steps of the division |
| CrcTables.BitStepsLinear | HateBlocker/Pods/leveldb-library/util/crc32c.cc:18-297 | the division is linear, which is why tables work |
| CrcTables.PolynomialEntry | HateBlocker/Pods/leveldb-library/util/crc32c.cc:51 | the table's entry for 128 is the reflected polynomial |
| Crc32c.UnmaskMask | HateBlocker/Pods/leveldb-library/util/crc32c.h:24-40 | unmasking undoes masking |
| Log.Writer.AddRecord | HateBlocker/Pods/leveldb-library/db/log_writer.cc:36-82 | appends exactly the layout of the record's fragments at the current block offset |
| Log.Writer.EmitPhysicalRecord | HateBlocker/Pods/leveldb-library/db/log_writer.cc:84-109 | one fragment as header, masked checksum and data |
| Log.Reader.ReadPhysicalRecord | HateBlocker/Pods/leveldb-library/db/log_reader.cc:199-281 | on every file: the next whole fragment with a right checksum, the end, or damage, as the layout of blocks says, and where reading goes on |
| Log.Reader.ReadRecord | HateBlocker/Pods/leveldb-library/db/log_reader.cc:60-182 | on every file: the first record of the stream that the file's fragments form, or the end, and the reports made on the way |
| Log.WriteLog | HateBlocker/Pods/leveldb-library/db/log_writer.cc:36-109 | the bytes of a list of records |
| Log.ReadLog | HateBlocker/Pods/leveldb-library/db/log_reader.cc:60-281 | on every file: exactly the records of its stream of fragments, and as many reports |
| Log.WriteTearRead | HateBlocker/Pods/leveldb-library/db/log_reader.cc:60-281 | writing any records, cutting the file anywhere and reading gives exactly the records that end inside; the whole file gives them all |
| Log.TornReads | HateBlocker/Pods/leveldb-library/db/log_reader.cc:60-281 | from any record boundary of a torn log the stream is exactly the records that end inside, without a report |
| LogDamage.NothingInvented | HateBlocker/Pods/leveldb-library/db/log_reader.cc:60-281 | on any file at all: every record returned stands in the file as written, its fragments of types 1, or 2, 3, ..., 4 following each other, and the records in order without overlap |
| LogDamage.DamageIsContained | HateBlocker/Pods/leveldb-library/db/log_reader.cc:199-281 | with any blocks of a log overwritten, every record that ends before them and every record that begins after them is still read, in order, if no checked record of type 5 stands in them |
| LogDamage.FalseEnd | HateBlocker/Pods/leveldb-library/db/log_reader.h:81-89 | the concrete failure: a checked record of type 5 ends the reading whatever follows |
| LogDamage.Resync | HateBlocker/Pods/leveldb-library/db/log_reader.cc:97-134 | at the first fragment of a record the reader is back on track, whatever it had collected |
| LogDamage.CheckedIsPhysical | HateBlocker/Pods/leveldb-library/db/log_reader.cc:224-267 | bytes that pass the checks are exactly what the writer emits for that type and data |
| LogDamage.ChangedByteIsReported | HateBlocker/Pods/leveldb-library/db/log_reader.cc:241-265 | a changed byte of type or data is reported and the rest of the block left out; only an empty record whose type became 0 is left out silently |
| LogDamage.BadLengthIsReported | HateBlocker/Pods/leveldb-library/db/log_reader.cc:224-240 | a length that goes beyond its block is reported, unless the file ends inside the block |
| Formats.KeyBytes | HateBlocker/Pods/leveldb-library/db/dbformat.cc:12-21 | user key, then eight bytes little endian: type in the lowest, sequence number above |
| Formats.RecordBytes | HateBlocker/Pods/leveldb-library/db/log_writer.cc:84-109 | masked checksum in four bytes, length in two, type in one, data; the mask in numbers |
| Formats.OneByteDetected | HateBlocker/Pods/leveldb-library/db/log_reader.cc:249-265 | a record with one byte of type or data changed fails its check |
| Formats.RecordShape | HateBlocker/Pods/leveldb-library/db/log_writer.cc:36-82 | type 1, or 2, 3, ..., 4, the data in order; nothing crosses a multiple of 32768, less than seven bytes there are skipped, and only the last fragment leaves room in its block |
| Formats.BatchBytes | HateBlocker/Pods/leveldb-library/db/write_batch.cc:5-14 | sequence number, count, and operations in literal numbers |
| Formats.ItemBytes | HateBlocker/Pods/leveldb-library/db/version_edit.cc:14-85 | each manifest field's number and what follows it, in literal numbers |
| Formats.EditRead | HateBlocker/Pods/leveldb-library/db/version_edit.cc:88-210 | a manifest record is decoded only if it is a list of fields, and then to what they say |
| Formats.EditTaken | HateBlocker/Pods/leveldb-library/db/version_edit.cc:88-210 | every list of fields is decoded, whatever spelling its numbers have |
| Formats.EntryBytes | HateBlocker/Pods/leveldb-library/table/block_builder.cc:93-102 | three lengths, the rest of the key, the value |
| Formats.TrailerBytes | HateBlocker/Pods/leveldb-library/table/block_builder.cc:63-71 | the restart offsets and their number, four bytes each |
| WriteBatch.RepSize | HateBlocker/Pods/leveldb-library/db/write_batch.cc:37-40 | ByteSize is the length of the representation: 12 bytes and the encoded operations |
| WriteBatch.OpsRoundTrip | HateBlocker/Pods/leveldb-library/db/write_batch.cc:42-80 | of a batch body followed by bytes that are no operation, exactly the body's operations are read, in order |
| WriteBatch.Iterate | HateBlocker/Pods/leveldb-library/db/write_batch.cc:42-80 | every operation before the first malformed one reaches the handler, also on corrupt bytes; success means all bytes parsed and the count is right; which bytes parse, AcceptedIff says |
| WriteBatch.AcceptedIff | HateBlocker/Pods/leveldb-library/db/write_batch.cc:42-80 | a batch body is read to given operations if and only if it is exactly those: 1, key and value, or 0 and key, one after the other |
| WriteBatch.WriteBatchObject.AddOp | HateBlocker/Pods/leveldb-library/db/write_batch.cc:98-110 | the count goes up by one and the operation is last |
| WriteBatch.WriteBatchObject.SetSequence | HateBlocker/Pods/leveldb-library/db/write_batch.cc:94-96 | the same operations under the new sequence number |
| WriteBatch.WriteBatchObject.Append | HateBlocker/Pods/leveldb-library/db/write_batch.cc:141-145 | the operations of both batches in order, under the first one's sequence number |
| WriteBatch.LogRoundTrip | HateBlocker/Pods/leveldb-library/db/write_batch.cc:42-134 | a batch built operation by operation, numbered and used as a log record gives back its operations and its first sequence number |
| GroupCommit.BuildBatchGroup | HateBlocker/Pods/leveldb-library/db/db_impl.cc:1269-1314 | the longest prefix of the queue within 128 KB of a small first batch, else 1 MB, that lets no sync write join a non-sync leader; its operations in queue order |
| GroupCommit.StepKeepsInv | HateBlocker/Pods/leveldb-library/db/db_impl.cc:1194-1267 | every step of every thread keeps the queue, the groups and the sequence numbers in order |
| GroupCommit.RunKeepsInv | HateBlocker/Pods/leveldb-library/db/db_impl.cc:1194-1267 | in every interleaving |
| GroupCommit.HeadCanMove | HateBlocker/Pods/leveldb-library/db/db_impl.cc:1200-1264 | whenever someone is queued the head is running or signaled and has an enabled step that does not fail and brings it closer to returning: no lost wakeup, no deadlock |
| GroupCommit.GroupExists | HateBlocker/Pods/leveldb-library/db/db_impl.cc:1269-1314 | some prefix of the queue is always an admissible group |
| GroupCommit.MemTableIsSuccesses | HateBlocker/Pods/leveldb-library/db/db_impl.cc:1194-1267 | in every interleaving the memtable is exactly the batches of the successful writers in order of arrival, each once; a failed or waiting writer contributes nothing |
| GroupCommit.WritersOwnStretches | HateBlocker/Pods/leveldb-library/db/db_impl.cc:1194-1267 | each writer owns its own stretch of the memtable: disjoint, in order of arrival, empty unless it succeeded, else its batch at consecutive sequence numbers |
| GroupCommit.NumbersIncrease | HateBlocker/Pods/leveldb-library/db/db_impl.cc:1216-1246 | sequence numbers in the memtable strictly increase, and none is past the published last one unless its group is about to be popped |
| GroupCommit.NumbersRunOn | HateBlocker/Pods/leveldb-library/db/db_impl.cc:1211-1245 | in every interleaving the last sequence number is the number of operations of all logged groups, and each group starts after those before it |
| GroupCommit.SyncIsSynced | HateBlocker/Pods/leveldb-library/db/db_impl.cc:1288-1293 | a sync write is only ever logged by a leader that syncs |
| Recovery.StepKeepsInv | HateBlocker/Pods/leveldb-library/db/db_impl.cc:274-565 | every step keeps the disk recoverable: appends, switches, flush and compaction commits, deletions, crashes, each step of opening |
| Recovery.RunKeepsInv | HateBlocker/Pods/leveldb-library/db/db_impl.cc:274-565 | in every run |
| Recovery.CrashSafe | HateBlocker/Pods/leveldb-library/db/db_impl.cc:274-565 | in every reachable state the disk alone holds the history of appended records but for what committed compactions dropped |
| Recovery.OnlyCompactionsDrop | HateBlocker/Pods/leveldb-library/db/db_impl.cc:866-885 | nothing but the commit of a compaction adds to what may be missing |
| Recovery.ReopenRebuilds | HateBlocker/Pods/leveldb-library/db/db_impl.cc:1490-1524 | when an open completes the contents are what was recoverable, and the last sequence number covers all of them; which number it is, LastSequenceSurvives says |
| Recovery.LastSequenceSurvives | HateBlocker/Pods/leveldb-library/db/db_impl.cc:355-360 | in every run, whenever an open completes or no write is under way, the last sequence number is 0 or that of some appended record, and at least that of every one |
| Recovery.OpenCanMove | HateBlocker/Pods/leveldb-library/db/db_impl.cc:274-363 | whatever the crash left, opening has a next step that brings it closer to done: recovery never gets stuck |
| Recovery.GarbageCanGo | HateBlocker/Pods/leveldb-library/db/db_impl.cc:218-272 | a table that nothing refers to, a log before the current one and an old manifest are deleted |
| Recovery.NothingNeededIsDeleted | HateBlocker/Pods/leveldb-library/db/db_impl.cc:218-272 | in every reachable state every table of every referenced version, every finished output and the logs of both memtables are on disk |
| Recovery.GarbageIsNotNeeded | HateBlocker/Pods/leveldb-library/db/db_impl.cc:225-269 | a table outside the live set is in no referenced version, no pending output and not in the manifest |
| VersionBuilder.SaveLevel | HateBlocker/Pods/leveldb-library/db/version_set.cc:714-739 | every file is listed as often as base and added set hold it, deleted numbers not at all, and the list is sorted by smallest key and number, ties and all |
| VersionBuilder.Builder.Apply | HateBlocker/Pods/leveldb-library/db/version_set.cc:665-708 | deleted numbers and added files per level after any edit; a file whose smallest key and number are taken is not inserted |
| VersionBuilder.Builder.SaveTo | HateBlocker/Pods/leveldb-library/db/version_set.cc:710-757 | every level sorted, and each file as often as base and added set hold it, without the deleted numbers |
| VersionBuilder.SortedUnique | HateBlocker/Pods/leveldb-library/db/version_set.cc:605-616 | the order determines the list: two sorted lists of the same files are equal |
| VersionBuilder.OneMore | HateBlocker/Pods/leveldb-library/db/version_set.cc:665-757 | one more edit through the same builder saves the files that one more version would list, if and only if every file it adds finds its slot free or, if its number was deleted, no other file of that number |
| VersionBuilder.InsertFile | HateBlocker/Pods/leveldb-library/db/version_set.cc:605-622 | the ordered set with the file, or unchanged if its smallest key and number are taken |
| VersionBuilder.InsertedSplit | HateBlocker/Pods/leveldb-library/db/version_set.cc:702-706 | of the files of an edit exactly those enter that find their slot free, the first of each slot |
| VersionBuilder.RecoveryAgrees | HateBlocker/Pods/leveldb-library/db/version_set.cc:820-1014 | at each level recovery agrees with the running database after every edit, if and only if every edit adds cleanly there |
| VersionBuilder.RunAndRecover | HateBlocker/Pods/leveldb-library/db/version_set.cc:820-1014 | the versions of a run, one builder per edit, and a recovery after each edit, one builder for all |
| VersionBuilder.ReplayMatches | HateBlocker/Pods/leveldb-library/db/version_set.cc:939-1004 | at a level, replay agrees with the run after every prefix of a history if and only if every edit adds cleanly |
| VersionBuilder.ReaddResurrects | HateBlocker/Pods/leveldb-library/db/version_set.cc:605-772 | the concrete failure when a number comes back: recovery lists the old file too, or only the old one if both have the same smallest key |
| VersionBuilder.ReplayEqualsRun | HateBlocker/Pods/leveldb-library/db/version_set.cc:820-1014 | replay lists the running version's files if every edit adds cleanly, and is the very same version if no number comes back |
| VersionBuilder.AfterInstalls | HateBlocker/Pods/leveldb-library/db/version_set.cc:710-757 | one edit of new numbers installs what the version steps assume: the old files without the removed ones, and the new ones, strictly sorted |
| VersionEdit.EditRoundTrip | HateBlocker/Pods/leveldb-library/db/version_edit.cc:41-210 | decoding an encoded edit into a fresh edit gives the edit back |
| VersionEdit.UsedEditKeepsPointers | HateBlocker/Pods/leveldb-library/db/version_edit.cc:26-39 | decoding into a used edit puts its old compaction pointers in front, because Clear keeps them |
| VersionEdit.EncodeTo | HateBlocker/Pods/leveldb-library/db/version_edit.cc:41-85 | writes every set field, then pointers, deletions and additions, each with its tag |
| VersionEdit.DecodeFrom | HateBlocker/Pods/leveldb-library/db/version_edit.cc:109-210 | field by field until the input ends; any bad or unknown field fails the whole edit; which bytes decode and to what, EditRead and EditTaken say |
| VersionEdit.UnknownFieldFails | HateBlocker/Pods/leveldb-library/db/version_edit.cc:195-198 | a field number that is none of 1 to 7 and 9 fails the edit, wherever it comes |
| VersionEdit.BadLevelFails | HateBlocker/Pods/leveldb-library/db/version_edit.cc:98-107 | so does a level of 7 or more |
| Manifest.KeyRoundTrip | HateBlocker/Pods/leveldb-library/db/dbformat.cc:12-21 | an internal key survives its encoding |
| Manifest.ThroughManifest | HateBlocker/Pods/leveldb-library/db/version_set.cc:939-1014 | every edit comes back from its record unchanged |
| Manifest.RecoverEqualsRun | HateBlocker/Pods/leveldb-library/db/version_set.cc:820-1014 | decoding and replaying the manifest lists the running version's files if every edit adds cleanly, and is the very same version if no number comes back |
| Block.EntryRoundTrip | HateBlocker/Pods/leveldb-library/table/block.cc:53-74 | an encoded entry's three lengths, delta and value are read back, whatever follows |
| Block.OpenFinds | HateBlocker/Pods/leveldb-library/table/block.cc:23-39 | the restart array and its length are found from the end of the block |
| Block.SharedPrefix | HateBlocker/Pods/leveldb-library/table/block_builder.cc:80-86 | the longest common prefix |
| Block.BlockBuilder.Add | HateBlocker/Pods/leveldb-library/table/block_builder.cc:73-107 | the entry is appended with the longest prefix it shares with the last key, or as a restart point with none every interval entries |
| Block.BlockBuilder.Finish | HateBlocker/Pods/leveldb-library/table/block_builder.cc:63-71 | entries, restart array and count, laid out as the reader expects |
| Block.ParseNextKey | HateBlocker/Pods/leveldb-library/table/block.cc:226-253 | rebuilds the next entry's key and value, or reports the end |
| Block.FindRestart | HateBlocker/Pods/leveldb-library/table/block.cc:165-194 | the binary search ends at a restart point with a key before the target, or at the first |
| Block.SeekTo | HateBlocker/Pods/leveldb-library/table/block.cc:165-203 | binary search and scan equal a linear search for the first key at or past the target |
| Block.StepPrev | HateBlocker/Pods/leveldb-library/table/block.cc:144-163 | the true predecessor, or invalid at the front |
| Block.Iter.Seek | HateBlocker/Pods/leveldb-library/table/block.cc:165-203 | the iterator stands on the first key at or past the target |
| Block.Iter.Next | HateBlocker/Pods/leveldb-library/table/block.cc:139-142 | the next entry |
| Block.Iter.Prev | HateBlocker/Pods/leveldb-library/table/block.cc:144-163 | the previous entry |
| Block.Iter.SeekToLast | HateBlocker/Pods/leveldb-library/table/block.cc:210-215 | the last entry |
| Block.BuildAndRead | HateBlocker/Pods/leveldb-library/table/block_builder.cc:63-107 | building a block from any sorted list with any restart interval and iterating it gives the list |
| Separator.FindShortestSeparator | HateBlocker/Pods/leveldb-library/util/comparator.cc:29-51 | the start up to the first difference with that byte plus one, if that stays below the limit; else unchanged; always strictly between or equal to the start and no longer |
| Separator.FindShortSuccessor | HateBlocker/Pods/leveldb-library/util/comparator.cc:53-65 | unchanged exactly for runs of 0xff, else the run of 0xff kept and the next byte one up, cut there |
| Separator.FindInternalSeparator | HateBlocker/Pods/leveldb-library/db/dbformat.cc:68-85 | at or past the last key, before the next; and unless unchanged, before the next user key |
| Separator.FindInternalSuccessor | HateBlocker/Pods/leveldb-library/db/dbformat.cc:87-99 | at or past the key |
| Bloom.CreateFilter | HateBlocker/Pods/leveldb-library/util/bloom.cc:35-61 | bits_per_key bits a key, at least 64, in whole bytes and the probe count; exactly the bits that the keys' probes hit are set |
| Bloom.KeyMayMatch | HateBlocker/Pods/leveldb-library/util/bloom.cc:63-87 | true exactly when every probed bit is set, or the filter is of a newer kind |
| Bloom.MatchesIff | HateBlocker/Pods/leveldb-library/util/bloom.cc:35-87 | a key may match if and only if each of its probes is a probe of some key the filter was made of |
| Bloom.ProbeIs | HateBlocker/Pods/leveldb-library/util/bloom.cc:49-58 | double hashing: probe j is h + j times h rotated by 17, in 32 bits |
| FilterBlock.FilterBlockBuilder.StartBlock | HateBlocker/Pods/leveldb-library/table/filter_block.cc:22-28 | closes the filters of all regions before the block's; the pending keys go into the first of them |
| FilterBlock.FilterBlockBuilder.Finish | HateBlocker/Pods/leveldb-library/table/filter_block.cc:36-50 | the filters, the offset of each, and the base, with every added key covered |
| FilterBlock.NoFalseNegative | HateBlocker/Pods/leveldb-library/table/filter_block.cc:78-109 | a key added for a block's 2KB region may match at the block's offset |
| FilterBlock.SaysExactly | HateBlocker/Pods/leveldb-library/table/filter_block.cc:52-109 | at a block's offset the filter block says what a filter of exactly the keys of that 2KB region says, and no for a region without keys |
| Table.TableBuilder.Add | HateBlocker/Pods/leveldb-library/table/table_builder.cc:92-121 | keeps separators between neighbouring blocks and every key in the filter of its block's region |
| Table.TableBuilder.Flush | HateBlocker/Pods/leveldb-library/table/table_builder.cc:123-137 | closes the block at the current offset and aligns the filters |
| Table.TableBuilder.Finish | HateBlocker/Pods/leveldb-library/table/table_builder.cc:199-239 | a table of exactly the added entries, indexed and filtered |
| Table.SepsIndex | HateBlocker/Pods/leveldb-library/table/table_builder.cc:100-107 | separators between neighbours form an index over all blocks |
| Table.InNamedBlock | HateBlocker/Pods/leveldb-library/table/table.cc:226-255 | if the entry sought has the key's user key it is in the block the index names |
| Table.InternalGet | HateBlocker/Pods/leveldb-library/table/table.cc:226-255 | hands over only the entry a seek of the whole table lands on, does so whenever its user key is the one asked for, and otherwise exactly when index, filter and block let it through |
| Table.TableGet | HateBlocker/Pods/leveldb-library/db/table_cache.cc:105-119 | a table answers as a search of its whole sorted run does |
| SkipList.LinkedUnique | HateBlocker/Pods/leveldb-library/db/skiplist.h:145-180 | the links determine the list at each level |
| SkipList.FindGreaterOrEqual | HateBlocker/Pods/leveldb-library/db/skiplist.h:261-281 | the first node at or past the key on the level-0 list, and at every level the node after which the key belongs |
| SkipList.FindLessThan | HateBlocker/Pods/leveldb-library/db/skiplist.h:283-302 | the last node before the key on the level-0 list, or the head |
| SkipList.FindLast | HateBlocker/Pods/leveldb-library/db/skiplist.h:304-322 | the last node of the level-0 list, or the head |
| SkipList.PublishKeeps | HateBlocker/Pods/leveldb-library/db/skiplist.h:363-369 | one link store splices the node into its level; every level stays sorted and a sublist of the one below |
| SkipList.StepKeepsInv | HateBlocker/Pods/leveldb-library/db/skiplist.h:261-370 | every load and store of writer and readers keeps the levels sorted, nested and growing, and every search on track |
| SkipList.SearchNeverStuck | HateBlocker/Pods/leveldb-library/db/skiplist.h:261-281 | a search under way can always take its next load |
| SkipList.EverySearchIsRight | HateBlocker/Pods/leveldb-library/db/skiplist.h:261-370 | in every interleaving each search ends with the right answer for the level-0 list at its last load |
| SkipList.Table.Insert | HateBlocker/Pods/leveldb-library/db/skiplist.h:336-370 | the keys in order gain exactly the new key, linked at exactly the levels below its height, whatever its memory held |
| SkipList.Table.Contains | HateBlocker/Pods/leveldb-library/db/skiplist.h:372-380 | true exactly when the key is in the list |
| HandleTable.Lookup | HateBlocker/Pods/leveldb-library/util/cache.cc:76-78 | the handle the map holds for the key, or none |
| HandleTable.Insert | HateBlocker/Pods/leveldb-library/util/cache.cc:80-94 | the map with the key set to the handle; returns the one it displaced; never more handles than buckets |
| HandleTable.Remove | HateBlocker/Pods/leveldb-library/util/cache.cc:96-104 | the map without the key; returns its handle |
| HandleTable.Resize | HateBlocker/Pods/leveldb-library/util/cache.cc:125-149 | the same map in at least as many buckets as handles |
| LruCache.RefKeeps | HateBlocker/Pods/leveldb-library/util/cache.cc:221-227 | pinning keeps lists, usage and counts in step |
| LruCache.UnrefKeeps | HateBlocker/Pods/leveldb-library/util/cache.cc:229-240 | releasing keeps them in step and runs the deleter exactly at zero references |
| LruCache.EraseKeeps | HateBlocker/Pods/leveldb-library/util/cache.cc:307-316 | leaving the cache keeps them in step; a held entry lives on off the lists |
| LruCache.EvictFirst | HateBlocker/Pods/leveldb-library/util/cache.cc:294-301 | evicting the oldest entry runs its deleter, takes its charge off the usage and changes no other entry |
| LruCache.Cache.Lookup | HateBlocker/Pods/leveldb-library/util/cache.cc:255-262 | the cached entry of the key, pinned and off the LRU list, the others in their order; nothing else changes |
| LruCache.Cache.Release | HateBlocker/Pods/leveldb-library/util/cache.cc:264-267 | one reference less; the deleter runs exactly when it was the last, and a cached entry nobody holds becomes the most recently used |
| LruCache.Cache.Insert | HateBlocker/Pods/leveldb-library/util/cache.cc:269-303 | the new entry takes the key; then exactly the shortest prefix of the LRU list goes, oldest first, after which the usage fits or nothing unpinned is left; all other entries stay |
| LruCache.Cache.Erase | HateBlocker/Pods/leveldb-library/util/cache.cc:318-321 | the map without the key; its entry leaves list and usage, and its deleter runs if nobody holds it |
| LruCache.Cache.Prune | HateBlocker/Pods/leveldb-library/util/cache.cc:323-333 | exactly the unpinned entries go, oldest first; a key stays cached if and only if its entry is held |
| LruCache.Cache.Destroy | HateBlocker/Pods/leveldb-library/util/cache.cc:209-219 | once every handle is released, every entry's deleter has run exactly once |
| PbWire.ZigZagRoundTrip | HateBlocker/Pods/nanopb/pb_encode.c:516-525 | decoding undoes the ZigZag mapping on the whole 64-bit range |
| PbEncode.OStream.Write | HateBlocker/Pods/nanopb/pb_encode.c:91-109 | succeeds exactly when the bytes fit; a sizing stream only counts |
| PbEncode.VarintBuffer | HateBlocker/Pods/nanopb/pb_encode.c:494-514 | the loop fills its ten-byte buffer with the varint |
| PbEncode.EncodeSubmessage | HateBlocker/Pods/nanopb/pb_encode.c:600-648 | the length prefix and the body; the second pass always fits its window, so "submsg size changed" cannot happen |
| PbEncode.WriteWindow | HateBlocker/Pods/nanopb/pb_encode.c:622-647 | the second pass writes exactly as many bytes as the first counted |
| PbEncode.EncodePacked | HateBlocker/Pods/nanopb/pb_encode.c:128-171 | tag, size and items of a packed array, the size counted or computed from the width |
| PbEncode.EncodeItems | HateBlocker/Pods/nanopb/pb_encode.c:172-198 | one tagged item after another for arrays that cannot be packed |
| PbEncode.EncodeField | HateBlocker/Pods/nanopb/pb_encode.c:271-349 | nothing when absent; an array over its maximum fails; else the field's bytes |
| PbEncode.Encode | HateBlocker/Pods/nanopb/pb_encode.c:451-473 | succeeds if and only if nothing is over its bounds and the whole message fits, and then has written exactly the message, never past max_size; those bytes spell the struct in wire format numbers |
| PbEncode.GetEncodedSize | HateBlocker/Pods/nanopb/pb_encode.c:480-489 | the number of bytes a real stream receives |
| PbDecode.VarintLoop | HateBlocker/Pods/nanopb/pb_decode.c:173-229 | the value, or failure after the most bytes the width allows or at the end of input |
| PbDecode.DecodeTag | HateBlocker/Pods/nanopb/pb_decode.c:251-275 | tag and wire type; a zero or an input that ends inside the varint counts as the end of the message |
| PbDecode.FieldIter.Find | HateBlocker/Pods/nanopb/pb_common.c:78-95 | goes round from anywhere and finds the field if there is one |
| PbDecode.FieldIter.CountRequired | HateBlocker/Pods/nanopb/pb_decode.c:920-935 | the number of required fields, from any position |
| PbDecode.MaskMeansAllSeen | HateBlocker/Pods/nanopb/pb_decode.c:937-949 | with fewer than 32 required fields the bitmap equals the mask if and only if every required field was seen |
| PbDecode.DecodeDatum | HateBlocker/Pods/nanopb/pb_decode.c:1165-1379 | each item decoder: the value and the remaining input, or failure, as the format reads them |
| PbDecode.DecodeSubmessage | HateBlocker/Pods/nanopb/pb_decode.c:1334-1356 | reads inside a window and leaves the parent just past it |
| PbDecode.DecodePayload | HateBlocker/Pods/nanopb/pb_decode.c:374-402 | items until the payload ends; bytes left over after a full array fail |
| PbDecode.DecodeField | HateBlocker/Pods/nanopb/pb_decode.c:356-429 | required, optional, repeated and oneof members as the format says; a oneof unchooses the others |
| PbDecode.DecodeNoinit | HateBlocker/Pods/nanopb/pb_decode.c:852-953 | exactly the format's reading of the input: fields, unknown fields skipped, required fields checked; what that is on well-formed fields, RecordsMean says |
| PbDecode.Decode | HateBlocker/Pods/nanopb/pb_decode.c:955-967 | from defaults, exactly the format's reading of the input; of an input made of well-formed fields only one with every required field is accepted |
| PbRecords.DecodingMeans | HateBlocker/Pods/nanopb/pb_decode.c:852-967 | on a concatenation of well-formed tagged fields: the fields applied one after the other to the defaults, if each is accepted and every required tag occurs; else failure |
| PbRecords.RecordsMean | HateBlocker/Pods/nanopb/pb_decode.c:852-953 | the same inside a message, from any contents, up to the end of input or a zero tag |
| PbRecords.MissingRequiredFails | HateBlocker/Pods/nanopb/pb_decode.c:919-949 | without the tag of some required field decoding fails |
| PbRecords.UnknownIsIgnored | HateBlocker/Pods/nanopb/pb_decode.c:277-290 | a well-formed field of an unknown number and any wire type, put anywhere between fields, changes nothing |
| PbRecords.UnknownWireTypeFails | HateBlocker/Pods/nanopb/pb_decode.c:277-290 | an unknown field of wire type 3, 4, 6 or 7 fails |
| PbRecords.TruncatedFails | HateBlocker/Pods/nanopb/pb_decode.c:91-125 | a last field cut short fails |
| PbRecords.NumberAccepted | HateBlocker/Pods/nanopb/pb_decode.c:1165-1248 | any spelling of a number is the number it stands for if that fits the member, else it fails |
| PbRecords.RawAccepted | HateBlocker/Pods/nanopb/pb_decode.c:1262-1379 | bytes, strings and fixed-length bytes are taken if and only if they fit; a string up to its first zero |
| PbRecords.EmptyGivesDefaults | HateBlocker/Pods/nanopb/pb_decode.c:955-967 | the empty input is a message of defaults if nothing is required |
| PbMembers.PresenceIs | HateBlocker/Pods/nanopb/pb_decode.c:356-429 | after decoding, a has_ flag is set if and only if the field occurred, the chosen member of a union is that of the union's last field, and an array has as many items as occurred and at most its maximum |
| PbMembers.TooManyFails | HateBlocker/Pods/nanopb/pb_decode.c:404-416 | more items than the array has room for fail the message |
| PbMembers.PackedFits | HateBlocker/Pods/nanopb/pb_decode.c:374-402 | a packed run is appended in order if there is room for all of it, and else refused |
| PbMembers.SubmessageMeans | HateBlocker/Pods/nanopb/pb_decode.c:1334-1356 | a submessage is its fields applied in turn, in an array to the defaults and else to what the member held; it fails if one of them does or a required one is missing |
| PbFormat.MessageIsSpelled | HateBlocker/Pods/nanopb/pb_encode.c:451-590 | each present field is the base-128 form of 8 * tag + w, w being 0, 1, 2 or 5 by type, then its value: seven-bit groups, little-endian bytes, ZigZag as 2i or -2i - 1, or a length and that many bytes; packed arrays under one tag of wire type 2 |
| PbRoundTrip.NumberRoundTrip | HateBlocker/Pods/nanopb/pb_decode.c:1165-1260 | every integer of every width survives, negative ones included |
| PbRoundTrip.StringSurvivesIffTerminated | HateBlocker/Pods/nanopb/pb_decode.c:1299-1332 | a string comes back if and only if it is terminated inside its buffer |
| PbRoundTrip.PackedRoundTrip | HateBlocker/Pods/nanopb/pb_decode.c:374-402 | a packed array comes back item by item |
| PbRoundTrip.DatumRoundTrip | HateBlocker/Pods/nanopb/pb_decode.c:1334-1356 | one item at any nesting depth comes back and leaves the rest of the input alone |
| PbRoundTrip.FieldStep | HateBlocker/Pods/nanopb/pb_decode.c:356-429 | reading one encoded field, present or not, restores it and nothing else |
| PbRoundTrip.MessageRoundTrip | HateBlocker/Pods/nanopb/pb_decode.c:852-967 | decoding an encoded message succeeds, uses all of it, and restores every present member; absent ones are at their defaults |
| PbBounds.ReadMessageSound | HateBlocker/Pods/nanopb/pb_decode.c:852-953 | on any input, success leaves arrays, bytes and strings within bounds and one member chosen per union |
| PbBounds.DecodedReencodes | HateBlocker/Pods/nanopb/pb_decode.c:852-967 | any bytes that decode give a message that encodes, and decoding that gives it back exactly |

## Left out

- Compaction is one atomic step of `Engine`; a flush committed inside its loop (`db/db_impl.cc:918-927`) is the subject of `MidCompaction`, which shows that the order of the two commits does not matter and when the result is sound. In `Recovery` the two interleave step by step.
- `Recovery` works on sets of entries and file numbers: levels and the replay of records into tables are in `Engine`, record bytes in `Log` and `WriteBatch`, edit bytes in `Manifest`. What a compaction writes there is arbitrary; `VersionSteps.CompactionKeepsMeaning` is about what it drops.
- `Engine` takes the last sequence number to survive a crash; `Recovery.LastSequenceSurvives` proves it from what manifest and log records carry.
- A log record appended but never applied before a crash counts as written: recovery applies it.
- `GroupCommit` has no memtable insert that fails and no background error after a failed sync (`db/db_impl.cc:1229-1241`): a batch in memory is well formed.
- Input/output errors, the corruption paths of block and table reading, and `paranoid_checks`.
- `log::Reader` with an initial offset, without checksums, or on a file whose reads fail.
- The 1024 table entries of the checksum are defined by the division, not listed; `AcceleratedCRC32C` is not modelled.
- Which file the picker starts from (scores, seek counts, `compact_pointer_`), where outputs are cut, file sizes, node heights and hash values: arbitrary choices or parameters.
- Memory ordering: each load and store of a skip-list link is one atomic step.
- The skip list's nodes, the cache's lists and its hash chains are indices and sequences, not heap pointers; aliasing of freed memory is not modelled.
- `FilterBlockBuilder` keeps its keys as a list of strings, not as one flat string with offsets.
- Snapshot lists are sequences of sequence numbers (`db/snapshot.h`).
- Snappy, the block cache inside `Table`, block handles and footers as bytes, `ApproximateOffsetOf`, and `DBIter`'s read sampling.
- nanopb callbacks, extensions, pointer fields, and optional fields without a has_ flag. Struct members are slots, not byte offsets: a string is its content up to the terminator, and the bytes of a union whose member is not chosen are not modelled.
- PbRoundTrip.MessageRoundTrip: tags are below 2^29, messages below 2^32 bytes and fewer than 32 fields per message are required, because the decoder reads tags and lengths as 32-bit varints and shifts the required-field mask by `32 - (n & 31)`.
- PbDecode.VarintLoop: sums the seven-bit groups exactly and cuts the result to the width at the end, where the source cuts every shifted group.
- Merger.MergingIterator.PerformAll: the children's keys are pairwise distinct, which internal keys of one database are.
- Table.TableBuilder.Finish: holds for filter blocks below 2^32 bytes, since their offsets are 32-bit.
- All Swift code, Firebase and the platform layer.
