# LevelDB and nanopb, modelled and proved

The application in this repository stores its data through two vendored libraries: LevelDB 1.20
(`FinalWork_JanyErtveldt/Pods/leveldb-library`) and nanopb 0.3.8 (`FinalWork_JanyErtveldt/Pods/nanopb`).
This project models their core in Dafny and proves what they are for.

* **The database is a map.** `Lsm` is the log-structured merge tree as a state machine: writes, memtable
  switches, flushes (also in the middle of a compaction), trivial moves, compactions, snapshots. `LsmProof`
  proves over every run that reads at the last sequence number and at every live snapshot agree with a plain
  map of the writes, provided no compaction separates an older part of a user key from a newer one.
  `LsmSplits` discharges that hypothesis for runs whose compactions start with no live snapshot. `LsmLimits`
  gives the exact conditions (if and only if) for one step, and `SplitRun` drives the modelled methods to a
  state in which a deleted key reads as present. What does not need the hypothesis (levels stay disjoint,
  nothing is stored twice or invented) is proved for all runs. `Version`, `CompactionInputs`,
  `VersionBuilder`, `CompactionCuts`, `CompactionWork` are the methods of `version_set.cc` and the merge loop of `db_impl.cc`;
  `Db` puts them together in one class whose every method, under any live snapshots, performs one event of the
  tree, and whose `Get` is the plain map as long as every event so far was careful about split keys.
* **Iterators are cursors.** `Merger`, `TwoLevel`, `BlockIter` and `DbIter` are two-way cursors over a sorted
  union, a concatenation, a block and the visible map; `Scan` builds the iterator of the database and proves
  that it walks over the map of the writes.
* **Crashes lose a suffix.** `Log`, `LogProof`, `Crc`, `Coding`, `WriteBatch`, `Recovery`: a log cut at any
  byte replays as a prefix of whole write groups. `LogSound`: on any file, damaged or not, records are made of
  fragments behind correct checksums, such fragments are always read, and nothing is lost silently.
  `VersionEdit`, `EditSound`, `Manifest`: which strings are edits, and a manifest cut at any byte recovers the
  version after a prefix of them.
* **Tables find what they hold.** `TableBuilder` writes a table file byte by byte: prefix-compressed blocks
  (`Block`) with trailers (`Format`), filters (`Filter`), an index of shortened separators (`Comparator`) and a
  footer. `TableReader` opens such a file and looks keys up in its bytes (`BlockIter`), and `TwoLevel` iterates
  over them; `Table` says why no row is lost.
* **Concurrency.** `SkipList`, `SkipListRuns`, `SkipListCode`: lock-free searches interleaved with the
  writer's stores. `WriterQueue`, `WriterQueueProof`, `WriterQueueStatus`, `WriterQueueCrash`: group commit,
  what writers are told, and what a crash leaves of it. `HandleTable`, `Cache`: the LRU cache.
* **nanopb.** `Nanopb`, `NanopbProof`: schema-driven encoding and decoding, unknown fields. `NanopbFits`: what is
  decoded from any bytes fits the struct. `NanopbOrder`, `NanopbMerge`: fields in any order, repeated fields and
  concatenated messages. `NanopbWire`: the bytes are those of the Protocol Buffers encoding. `NanopbEncoder`:
  the code with its two-pass sizing of submessages. `NanopbStream`, `NanopbDecoder`: the code with its streams
  and substreams, the cyclic field iterator and the bitmap of required fields, at every depth.

Where the source keeps objects and updates them, the model is a class whose methods are proved against a
specification function or a ghost state; protocols shared by threads are state machines over atomic steps.
`dafny verify dfyconfig.toml` verifies the whole project.

Conventions. In the modules about the tree and its iterators a user key is represented by its place in the
order of the user comparator (a real number): the code there looks at keys through the comparator only, and
byte strings under any total order form a countable order, which embeds in the reals; nothing uses that the
reals have more. In the modules about formats keys are byte strings. Sequence numbers stay below
kMaxSequenceNumber, lengths below 2^32, and I/O succeeds unless a member says otherwise. Shifts, masks and
rotations are written as divisions and remainders by powers of two.

Where code and comments differ, the code is followed. A comment in `Version::Get` says that once a level has
data for a key later levels are irrelevant (`db/version_set.cc:346-348`). But the code cuts an output file
between two versions of a key when a snapshot keeps both (`db/db_impl.cc:930-936`, `997-1004`) and does not
always gather the neighbouring file later (`db/version_set.cc:1345-1389`); `LsmLimits` and `SplitRun` state
exactly what follows. In `VersionSet::Recover` the numbers marked as used are overwritten by the recovered next file number
(`db/version_set.cc:1000-1011`); the model does the same. nanopb's check for required fields is undefined
when their number is a positive multiple of 32 and reads past its bitmap from 64 on; `NanopbDecoder` takes
the remaining counts as what the code demands of a descriptor. A comment in `pb_decode_noinit` says that empty
message types are handled by the field search (`pb_decode.c:859-861`); for field number 0 they are not, and
`NanopbDecoder` states when.

## Model

| member | source | states |
|---|---|---|
| LsmProof.EveryRunReadsRight | FinalWork_JanyErtveldt/Pods/leveldb-library/db/db_impl.cc:887-1008 | In every run of writes, memtable switches, flushes (also during a compaction), trivial moves, compactions and snapshots whose compactions leave no older part of a split user key behind, every read at the last sequence number and at every live snapshot returns what a plain map of the writes holds; sequence numbers of a key fall from memtable to immutable memtable to level 0 (newest file first) to deeper levels, and levels above 0 stay disjoint. |
| LsmProof.StepKeeps | FinalWork_JanyErtveldt/Pods/leveldb-library/db/db_impl.cc:686-769 | Each single event preserves newest-first order, disjoint levels and agreement with the plain map. |
| LsmProof.WriteKeeps | FinalWork_JanyErtveldt/Pods/leveldb-library/db/db_impl.cc:1209-1246 | A batch inserted under the next sequence numbers extends the map by its operations in order and disturbs no older view. |
| LsmProof.FlushKeeps | FinalWork_JanyErtveldt/Pods/leveldb-library/db/db_impl.cc:488-565 | A flushed table may sink to level 2 past levels it does not meet without breaking the order of versions or any view. |
| LsmProof.MoveKeeps | FinalWork_JanyErtveldt/Pods/leveldb-library/db/db_impl.cc:717-727 | A trivial move changes no view and keeps the order when the level keeps no older part of its keys. |
| LsmProof.FinishReads | FinalWork_JanyErtveldt/Pods/leveldb-library/db/db_impl.cc:949-972 | The drop rules (hidden by an entry at or below the smallest snapshot; obsolete deletion marker) leave the value seen at every sequence number at or above the smallest snapshot unchanged. |
| LsmProof.FinishOrder | FinalWork_JanyErtveldt/Pods/leveldb-library/db/db_impl.cc:866-885 | Installing the outputs at the next level keeps every key's versions newest-first through all levels. |
| LsmProof.FinishDisjoint | FinalWork_JanyErtveldt/Pods/leveldb-library/db/version_set.cc:759-772 | Outputs cut at any points overlap neither each other nor a file left in their level. |
| LsmProof.NewestSurvives | FinalWork_JanyErtveldt/Pods/leveldb-library/db/db_impl.cc:949-972 | For every view at or above the smallest snapshot, the entry it shows is not dropped unless it is a deletion marker with nothing below it. |
| LsmProof.EveryRunIsSound | FinalWork_JanyErtveldt/Pods/leveldb-library/db/version_set.cc:711-772 | In every run, whatever its compactions leave behind and whatever snapshots are live: files of a level above 0 never overlap, so the assertion in MaybeAddFile never fires; no entry is stored twice, no file number is reused and every stored entry is one that was written. Only a table flushed into a gap of a running compaction is excluded. |
| LsmProof.StepSound | FinalWork_JanyErtveldt/Pods/leveldb-library/db/db_impl.cc:866-885 | Each single event keeps that, with no hypothesis about split keys. |
| LsmSplits.SnapshotFreeRunReadsRight | FinalWork_JanyErtveldt/Pods/leveldb-library/db/db_impl.cc:887-936 | In every run whose compactions start with no live snapshot, no user key ever lives in two files of one level above 0, and all reads agree with the plain map, with no further hypothesis. |
| LsmSplits.OneSurvivorPerKey | FinalWork_JanyErtveldt/Pods/leveldb-library/db/db_impl.cc:949-972 | With no live snapshot a compaction writes at most one entry per user key, so its outputs cannot split one. |
| LsmSplits.PickedLeavesNothingOlder | FinalWork_JanyErtveldt/Pods/leveldb-library/db/version_set.cc:1345-1389 | Inputs chosen by user-key range leave nothing older behind when no key is split. |
| LsmSplits.ConnectedFlushFits | FinalWork_JanyErtveldt/Pods/leveldb-library/db/db_impl.cc:918-927 | A table flushed in the middle of a compaction whose inputs form one connected range never lands between them. |
| LsmLimits.MoveKeepsOrderIff | FinalWork_JanyErtveldt/Pods/leveldb-library/db/db_impl.cc:717-727 | A trivial move keeps newest-first order if and only if no older part of one of the file's keys stays in its level. |
| LsmLimits.FinishKeepsOrderIff | FinalWork_JanyErtveldt/Pods/leveldb-library/db/db_impl.cc:866-885 | A compaction keeps newest-first order if and only if no file it leaves in its two levels holds an older part of a surviving key. |
| LsmLimits.FinishKeepsReadsIff | FinalWork_JanyErtveldt/Pods/leveldb-library/db/db_impl.cc:949-972 | A compaction leaves every view at or above the smallest snapshot unchanged if and only if no dropped deletion marker hides a value in a file left behind. |
| LsmLimits.FlushKeepsInputsIff | FinalWork_JanyErtveldt/Pods/leveldb-library/db/db_impl.cc:918-927 | A flush during a compaction leaves its inputs usable if and only if the table does not land inside their range in the output level. |
| SplitRun.SplitKeyResurrects | FinalWork_JanyErtveldt/Pods/leveldb-library/db/db_impl.cc:930-936 | A run of the modelled methods, for every size limit: put, snapshot, delete, flush, manual compaction under the snapshot, release, manual compaction. Before the last compaction the key reads as deleted, after it as present. |
| SplitRun.SplitBoth | FinalWork_JanyErtveldt/Pods/leveldb-library/db/db_impl.cc:997-1004 | The first manual compaction takes the one file and, both versions being kept for the snapshot, cuts its output between them. |
| SplitRun.PicksNewer | FinalWork_JanyErtveldt/Pods/leveldb-library/db/version_set.cc:1413-1446 | On the levels so reached CompactRange over all keys picks exactly the newer part: it reaches the size limit alone and the next level is empty. |
| DbFormat.LessIsPackedOrder | FinalWork_JanyErtveldt/Pods/leveldb-library/db/dbformat.cc:50-66 | The internal-key order (user key up, sequence and type down) is the order of the packed 64-bit suffix, and is total. |
| Version.FindFile | FinalWork_JanyErtveldt/Pods/leveldb-library/db/version_set.cc:86-105 | Binary search returns the first file whose largest key is at or after the target, or the end. |
| Version.SomeFileOverlapsRange | FinalWork_JanyErtveldt/Pods/leveldb-library/db/version_set.cc:121-155 | True exactly when some file of the level meets the user-key range, open ends included. |
| Version.GetOverlappingInputs | FinalWork_JanyErtveldt/Pods/leveldb-library/db/version_set.cc:531-572 | The restarting loop ends; at level 0 it returns exactly the files meeting the least range that contains the requested one and is closed under overlap, so no file left out overlaps a chosen one. |
| Version.ClosureConnected | FinalWork_JanyErtveldt/Pods/leveldb-library/db/version_set.cc:531-572 | The files gathered from one starting file have no gap between them. |
| Version.PickLevelForMemTableOutput | FinalWork_JanyErtveldt/Pods/leveldb-library/db/version_set.cc:502-529 | The chosen level is at most 2 and no level down to it holds a file meeting the new table's keys. |
| Version.LookupIsNewest | FinalWork_JanyErtveldt/Pods/leveldb-library/db/memtable.cc:108-143 | Seeking to the lookup key in a sorted table finds the newest version at or below the snapshot, exactly when one exists. |
| Version.SearchLevelZero | FinalWork_JanyErtveldt/Pods/leveldb-library/db/version_set.cc:356-372 | Searching the covering level-0 files newest first and stopping at the first hit finds a visible version exactly when the level has one, and the newest when younger files hold newer versions. |
| Version.SearchSortedLevel | FinalWork_JanyErtveldt/Pods/leveldb-library/db/version_set.cc:373-390 | In a sorted level one binary-searched file decides: it holds the newest version or the level holds none. |
| Version.Get | FinalWork_JanyErtveldt/Pods/leveldb-library/db/version_set.cc:332-429 | The layered search finds a version at or below the snapshot exactly when some file holds one; when the files are in newest-first order it is the flat lookup of the newest over all files. |
| CompactionInputs.GetRange | FinalWork_JanyErtveldt/Pods/leveldb-library/db/version_set.cc:1224-1247 | The computed bounds are the least and greatest internal keys of the files. |
| CompactionInputs.SetupOtherInputs | FinalWork_JanyErtveldt/Pods/leveldb-library/db/version_set.cc:1345-1411 | The inputs are closed under user-key range with the next level's files that meet them; they are the wider set, which the range of both levels offers, exactly when that adds files, stays within the byte limit and meets no more files of the next level; the grandparents are the files two levels down that meet the final range. |
| CompactionInputs.Expand | FinalWork_JanyErtveldt/Pods/leveldb-library/db/version_set.cc:1363-1389 | Growing the inputs is taken only when it adds no file of the next level; the grown set contains the original. |
| CompactionInputs.PickCompaction | FinalWork_JanyErtveldt/Pods/leveldb-library/db/version_set.cc:1291-1343 | A size compaction starts from the first file of its level that ends after the compaction pointer, or the first of all when there is none; a seek compaction from the file given, and there is nothing to do without either. The inputs are that file's, closed at level 0 and completed as by SetupOtherInputs; they are usable and form one connected key range. |
| CompactionInputs.CompactRange | FinalWork_JanyErtveldt/Pods/leveldb-library/db/version_set.cc:1413-1446 | A manual range gives inputs closed under user-key range, and none exactly when no file meets the range; above level 0 they are the least prefix of the overlapping files that reaches the size limit, and more only if the next level takes part. |
| VersionBuilder.Builder.Apply | FinalWork_JanyErtveldt/Pods/leveldb-library/db/version_set.cc:665-708 | Feeding an edit to the builder has exactly the effect of the edit on the set of files, whatever was fed before. |
| VersionBuilder.Builder.SaveTo | FinalWork_JanyErtveldt/Pods/leveldb-library/db/version_set.cc:711-757 | The saved version holds exactly the files that are alive, every level sorted and levels above 0 disjoint. |
| VersionBuilder.Builder.MaybeAddFile | FinalWork_JanyErtveldt/Pods/leveldb-library/db/version_set.cc:759-772 | The non-overlap assertion holds for every file that is added. |
| VersionBuilder.SortedUnique | FinalWork_JanyErtveldt/Pods/leveldb-library/db/version_set.cc:606-620 | A list in the builder's order is determined by its set of files. |
| CompactionWork.Cursor.IsBaseLevelForKey | FinalWork_JanyErtveldt/Pods/leveldb-library/db/version_set.cc:1484-1503 | The cursor that only moves forward answers, for keys asked in order, true exactly when no file two or more levels below the inputs covers the key. |
| CompactionWork.Cursor.ShouldStopBefore | FinalWork_JanyErtveldt/Pods/leveldb-library/db/version_set.cc:1505-1526 | The grandparent cursor moves to the first file not ended before the key, adds the sizes of the files passed since the first call, and asks for a stop, starting over, exactly when they exceed the limit. |
| CompactionWork.HiddenByPrevious | FinalWork_JanyErtveldt/Pods/leveldb-library/db/db_impl.cc:949-956 | The loop's last_sequence_for_key test drops an entry exactly when a newer entry of the key is visible to every live reader. |
| CompactionWork.DoCompactionWork | FinalWork_JanyErtveldt/Pods/leveldb-library/db/db_impl.cc:887-1008 | An input entry is in an output if and only if no newer entry of its key is at or below the smallest snapshot and it is not a deletion marker at or below it whose key no file two or more levels down covers. Outputs keep the order, have fresh numbers, and are cut exactly where an output has become full or the grandparent overlap asks for a stop. |
| CompactionWork.KeptMeans | FinalWork_JanyErtveldt/Pods/leveldb-library/db/db_impl.cc:949-972 | The two drop rules, written out over the levels of the version, say for each merged entry whether an output holds it. |
| CompactionWork.CountStep | FinalWork_JanyErtveldt/Pods/leveldb-library/db/version_set.cc:1505-1526 | The count of ShouldStopBefore is, entry by entry, that of the plan: bytes passed since the first entry or the last stop. |
| CompactionCuts.StopStep | FinalWork_JanyErtveldt/Pods/leveldb-library/db/db_impl.cc:930-936 | When an entry comes up, a stop closes the open output and nothing else does; outputs so far stay cut exactly where they should be. |
| CompactionCuts.AddStep | FinalWork_JanyErtveldt/Pods/leveldb-library/db/db_impl.cc:983-1005 | Adding an entry keeps that, and the output is closed behind it exactly when it is full. |
| CompactionWork.FlatInOrder | FinalWork_JanyErtveldt/Pods/leveldb-library/db/db_impl.cc:930-1004 | Files cut from a sorted sequence are valid and follow each other. |
| Merger.MergingIterator.Next | FinalWork_JanyErtveldt/Pods/leveldb-library/table/merger.cc:59-83 | One step forward in the sorted union of the children, also right after moving backwards. |
| Merger.MergingIterator.Prev | FinalWork_JanyErtveldt/Pods/leveldb-library/table/merger.cc:85-112 | One step backward in the sorted union, also right after moving forwards. |
| Merger.MergingIterator.Seek | FinalWork_JanyErtveldt/Pods/leveldb-library/table/merger.cc:51-57 | Lands on the first entry of the union at or after the target. |
| Merger.MergingIterator.SeekToFirst | FinalWork_JanyErtveldt/Pods/leveldb-library/table/merger.cc:35-41 | Lands on the least entry of the union. |
| Merger.MergingIterator.SeekToLast | FinalWork_JanyErtveldt/Pods/leveldb-library/table/merger.cc:43-49 | Lands on the greatest entry of the union. |
| Merger.MergingIterator.FindSmallest | FinalWork_JanyErtveldt/Pods/leveldb-library/table/merger.cc:155-168 | The child with the least current key holds the next entry of the union. |
| Merger.MergingIterator.FindLargest | FinalWork_JanyErtveldt/Pods/leveldb-library/table/merger.cc:170-183 | The child with the greatest current key holds the previous entry of the union. |
| DbIter.ShownIsMap | FinalWork_JanyErtveldt/Pods/leveldb-library/db/db_iter.cc:21-38 | A key is shown with a value exactly when the flat lookup at the iterator's sequence number finds that value: deletions and newer versions are hidden. |
| DbIter.ShownIncrease | FinalWork_JanyErtveldt/Pods/leveldb-library/db/db_iter.cc:21-38 | Shown entries have strictly increasing user keys, so none is shown twice. |
| DbIter.DBIter.Next | FinalWork_JanyErtveldt/Pods/leveldb-library/db/db_iter.cc:146-171 | Moves to the following shown entry, after either direction; none in between is skipped. |
| DbIter.DBIter.Prev | FinalWork_JanyErtveldt/Pods/leveldb-library/db/db_iter.cc:205-230 | Moves to the preceding shown entry, after either direction; none in between is skipped. |
| DbIter.DBIter.Seek | FinalWork_JanyErtveldt/Pods/leveldb-library/db/db_iter.cc:274-286 | Lands on the first shown entry whose user key is not before the target. |
| DbIter.DBIter.SeekToFirst | FinalWork_JanyErtveldt/Pods/leveldb-library/db/db_iter.cc:288-297 | Lands on the first shown entry. |
| DbIter.DBIter.SeekToLast | FinalWork_JanyErtveldt/Pods/leveldb-library/db/db_iter.cc:299-304 | Lands on the last shown entry. |
| DbIter.DBIter.FindNextUserEntry | FinalWork_JanyErtveldt/Pods/leveldb-library/db/db_iter.cc:173-203 | Stops at the first visible, undeleted version of a user key after the skipped one. |
| DbIter.DBIter.FindPrevUserEntry | FinalWork_JanyErtveldt/Pods/leveldb-library/db/db_iter.cc:232-272 | Stops before the previous shown user key with its newest visible value saved. |
| Scan.NewIterator | FinalWork_JanyErtveldt/Pods/leveldb-library/db/db_impl.cc:1067-1166 | An iterator over memtables and all files stands over everything stored, whatever compactions did before; at the last sequence number or a live snapshot it walks exactly over the plain map of the writes up to that point (same keys, same values) whenever the invariant of the tree holds. |
| Scan.ShownAreMap | FinalWork_JanyErtveldt/Pods/leveldb-library/db/db_impl.cc:1156-1166 | A value is shown for a key if and only if the map of the writes holds it. |
| TwoLevel.TwoLevelIterator.Next | FinalWork_JanyErtveldt/Pods/leveldb-library/table/two_level_iterator.cc:112-116 | Over the bytes of index and data blocks: one step forward in the concatenation of the blocks, empty ones skipped. |
| TwoLevel.TwoLevelIterator.Prev | FinalWork_JanyErtveldt/Pods/leveldb-library/table/two_level_iterator.cc:118-122 | One step backward in the concatenation, empty blocks skipped, by way of restart points. |
| TwoLevel.TwoLevelIterator.Seek | FinalWork_JanyErtveldt/Pods/leveldb-library/table/two_level_iterator.cc:91-96 | Lands on the first row of the concatenation at or after the target, also when it lies in a later block than the index names. |
| TwoLevel.TwoLevelIterator.SeekToFirst | FinalWork_JanyErtveldt/Pods/leveldb-library/table/two_level_iterator.cc:98-103 | Lands on the first row, behind any empty blocks. |
| TwoLevel.TwoLevelIterator.SeekToLast | FinalWork_JanyErtveldt/Pods/leveldb-library/table/two_level_iterator.cc:105-110 | Lands on the last row, before any empty blocks. |
| TwoLevel.TwoLevelIterator.InitDataBlock | FinalWork_JanyErtveldt/Pods/leveldb-library/table/two_level_iterator.cc:156-170 | The data iterator is over the block that the index names; one already made for the same handle is kept where it stands, and handles tell blocks apart. |
| TwoLevel.TwoLevelIterator.SkipEmptyDataBlocksForward | FinalWork_JanyErtveldt/Pods/leveldb-library/table/two_level_iterator.cc:125-136 | Goes on to the first row at or after where the data iterator stands. |
| TwoLevel.TwoLevelIterator.SkipEmptyDataBlocksBackward | FinalWork_JanyErtveldt/Pods/leveldb-library/table/two_level_iterator.cc:138-149 | Goes back to the last row before that. |
| TwoLevel.TableIsBounded | FinalWork_JanyErtveldt/Pods/leveldb-library/table/table.cc:220-224 | The shortened separators of a built table bound its blocks. |
| TwoLevel.NewIterator | FinalWork_JanyErtveldt/Pods/leveldb-library/table/table.cc:220-224 | The iterator of an opened table file is a cursor over exactly the rows that were added to the table, in both directions and under Seek. |
| Db.Database.Write | FinalWork_JanyErtveldt/Pods/leveldb-library/db/db_impl.cc:1209-1246 | One write event: the batch enters under the next sequence numbers and the history grows by it; agreement of all reads with the map is kept. |
| Db.Database.SwitchMemTable | FinalWork_JanyErtveldt/Pods/leveldb-library/db/db_impl.cc:1355-1375 | One event: the full memtable becomes the immutable one; no view changes. |
| Db.Database.CompactMemTable | FinalWork_JanyErtveldt/Pods/leveldb-library/db/db_impl.cc:534-565 | The immutable memtable becomes one table at the chosen level, also while a compaction runs; the database stays sound if and only if the table does not land inside the compaction's range, which it never does when the inputs are connected. |
| Db.Database.BackgroundCompaction | FinalWork_JanyErtveldt/Pods/leveldb-library/db/db_impl.cc:686-769 | With any snapshots live, the picked inputs are those of PickCompaction for the stored pointers; a single file that meets nothing below, and not too much two levels down, is moved, and otherwise a compaction starts against the present levels and the oldest live snapshot; the level's pointer moves to the largest key of the inputs. Agreement of all reads with the map is kept when no user key is split between files of a level, and more generally when nothing older is left behind. |
| Db.Database.ManualCompaction | FinalWork_JanyErtveldt/Pods/leveldb-library/db/db_impl.cc:692-712 | The same for a manual compaction, of the inputs that CompactRange picks; nothing happens exactly when no file meets the range. |
| Db.Database.FinishCompaction | FinalWork_JanyErtveldt/Pods/leveldb-library/db/db_impl.cc:887-1065 | Merge, drop, cut and install in one version edit. Written over the levels and the snapshot of the start: an input entry is written out if and only if no newer entry of its key is at or below that snapshot and it is no deletion marker at or below it with no file two or more levels down covering its key. So without snapshots no marker of a key uncovered below survives. |
| Db.MergeJob | FinalWork_JanyErtveldt/Pods/leveldb-library/db/db_impl.cc:887-1008 | The merge of a started compaction writes exactly those entries. |
| Db.Database.GetSnapshot | FinalWork_JanyErtveldt/Pods/leveldb-library/db/snapshot.h:42-51 | A snapshot pins the current sequence number; the list stays in order, so its head is the oldest. |
| Db.Database.ReleaseSnapshot | FinalWork_JanyErtveldt/Pods/leveldb-library/db/snapshot.h:53-58 | Releasing any snapshot keeps the others and their order. |
| Db.Database.Get | FinalWork_JanyErtveldt/Pods/leveldb-library/db/db_impl.cc:1109-1154 | For every key, at the last sequence number and at every live snapshot: the flat lookup when files are in newest-first order, and the answer of the plain map of the writes whenever the invariant of the tree holds, which every careful event keeps. |
| Db.FlushStep | FinalWork_JanyErtveldt/Pods/leveldb-library/db/db_impl.cc:918-927 | A flush during a compaction keeps the tree sound if and only if the table does not land inside the range of the inputs; connected inputs never admit that. |
| Log.Writer.AddRecord | FinalWork_JanyErtveldt/Pods/leveldb-library/db/log_writer.cc:36-82 | Appends the record's fragments, with zero trailers where no header fits, and tracks the offset in the block. |
| Log.Writer.EmitPhysicalRecord | FinalWork_JanyErtveldt/Pods/leveldb-library/db/log_writer.cc:84-109 | Appends a header with masked checksum, length and type, and the payload. |
| Log.Reader.ReadPhysicalRecord | FinalWork_JanyErtveldt/Pods/leveldb-library/db/log_reader.cc:199-281 | For every file, damaged or not, the buffered reader yields the same physical records and drop reports as reading by position. Over the bytes: a fragment is returned only from behind a header whose length fits its block and whose masked checksum is that of type and payload; a complete header with another checksum gives a bad record and reports the rest of the buffer dropped, and so does a length too long for the block unless the file ends inside it, which is the end of the log. |
| Log.Reader.ReadRecord | FinalWork_JanyErtveldt/Pods/leveldb-library/db/log_reader.cc:60-182 | For every file, the record (or end), the drops reported and the new position are those of the unbuffered specification, and the loop ends. A returned record is the concatenation of fragments that stand in the file, in order, behind correct headers: one full one, or a first, middle ones and a last. |
| Log.PhysicalBytes | FinalWork_JanyErtveldt/Pods/leveldb-library/db/log_reader.cc:199-281 | What reading at a position yields, case by case over the bytes there: end, bad length, zero type, wrong checksum, fragment. |
| Log.RecordStands | FinalWork_JanyErtveldt/Pods/leveldb-library/db/log_reader.cc:60-182 | Whatever the file, a record that is read is made of fragments standing in it behind correct checksums. |
| LogSound.StandingRecordIsRead | FinalWork_JanyErtveldt/Pods/leveldb-library/db/log_reader.cc:60-182 | The converse: fragments that stand in a row and make a whole record are read as that record, silently, whoever wrote them. |
| LogSound.NothingLost | FinalWork_JanyErtveldt/Pods/leveldb-library/db/log_reader.cc:60-281 | On any file, up to its end, every payload byte read is in a returned record or reported dropped, if no fragment of the unused type 6 carries a payload. |
| LogSound.WrittenInPieces | FinalWork_JanyErtveldt/Pods/leveldb-library/db/log_writer.cc:36-82 | What AddRecord appends is a row of standing fragments of the right types whose payloads make the record; each but the last fills its block, and only rests too short for a header are zeroed. |
| LogProof.CutLogReadsWholeRecords | FinalWork_JanyErtveldt/Pods/leveldb-library/db/log_reader.cc:60-281 | For every list of records and every byte at which the file is cut, reading from the start returns exactly the records wholly before the cut and reports no corruption. |
| LogProof.RecordReads | FinalWork_JanyErtveldt/Pods/leveldb-library/db/log_writer.cc:36-82 | A record, fragmented anyhow, is read back whole or not at all, and silently. |
| LogProof.LogRoundTrip | FinalWork_JanyErtveldt/Pods/leveldb-library/db/log_reader.cc:60-182 | An uncut log reads back as the list that was written. |
| LogProof.WriteCrashRead | FinalWork_JanyErtveldt/Pods/leveldb-library/db/log_writer.cc:36-109 | The same for the writer and reader methods run one after the other. |
| LogProof.HeaderParts | FinalWork_JanyErtveldt/Pods/leveldb-library/db/log_reader.cc:226-267 | The reader finds in a written header the length and type, and a checksum that agrees with the payload. |
| Crc.ExtendConcat | FinalWork_JanyErtveldt/Pods/leveldb-library/util/crc32c.h:14-22 | Extending the checksum of A by B gives the checksum of A followed by B. |
| Crc.UnmaskMask | FinalWork_JanyErtveldt/Pods/leveldb-library/util/crc32c.h:31-40 | Unmasking undoes masking. |
| Crc.MaskUnmask | FinalWork_JanyErtveldt/Pods/leveldb-library/util/crc32c.h:31-40 | Masking undoes unmasking. |
| Recovery.RecoverLogFile | FinalWork_JanyErtveldt/Pods/leveldb-library/db/db_impl.cc:365-486 | For every log file, recovery fails if and only if checks are paranoid and the log is not clean (a drop reported, a record too short or malformed); otherwise the tables written hold, in order, the entries of all records that replay, and the maximal sequence number is theirs. |
| Recovery.CrashKeepsWholeGroups | FinalWork_JanyErtveldt/Pods/leveldb-library/db/db_impl.cc:413-436 | After a crash at any byte, replay applies a prefix of whole write groups with their sequence numbers, never part of one. |
| Recovery.WriteCrashRecover | FinalWork_JanyErtveldt/Pods/leveldb-library/db/db_impl.cc:365-486 | Write, crash and recover as methods: recovery succeeds, even under paranoid checks, with exactly the whole groups. |
| WriteBatch.IterateRoundTrip | FinalWork_JanyErtveldt/Pods/leveldb-library/db/write_batch.cc:42-80 | Iterating over the representation of a batch gives back its updates in order and its sequence number. |
| WriteBatch.Iterate | FinalWork_JanyErtveldt/Pods/leveldb-library/db/write_batch.cc:42-80 | For every byte string: success if and only if it is a batch, that is twelve bytes ending with the signed count and so many well-formed records, and then the updates are theirs; otherwise the updates handed over are those in front of the first bytes that are no record. |
| WriteBatch.IteratedMeans | FinalWork_JanyErtveldt/Pods/leveldb-library/db/write_batch.cc:42-80 | The accepted strings are exactly the batches, lengths written in more bytes than needed included. |
| WriteBatch.HandledMeans | FinalWork_JanyErtveldt/Pods/leveldb-library/db/write_batch.cc:51-74 | Of a damaged batch exactly the records in front of the first malformed one are handed over. |
| WriteBatch.Batch.Put | FinalWork_JanyErtveldt/Pods/leveldb-library/db/write_batch.cc:98-103 | Adds one update to the represented list and counts it. |
| WriteBatch.Batch.Delete | FinalWork_JanyErtveldt/Pods/leveldb-library/db/write_batch.cc:105-109 | Adds one deletion to the represented list and counts it. |
| WriteBatch.Batch.Append | FinalWork_JanyErtveldt/Pods/leveldb-library/db/write_batch.cc:141-145 | Represents the concatenation of the two lists. |
| Coding.FixedRoundTrip | FinalWork_JanyErtveldt/Pods/leveldb-library/util/coding.cc:9-33 | Fixed-width encoding loses nothing. |
| Coding.FixedOnto | FinalWork_JanyErtveldt/Pods/leveldb-library/util/coding.cc:9-33 | Every byte string is the encoding of the number it decodes to. |
| Coding.FixedDigits | FinalWork_JanyErtveldt/Pods/leveldb-library/util/coding.cc:9-33 | Byte i is digit i to base 256, the least significant first. |
| Coding.VarintRoundTrip | FinalWork_JanyErtveldt/Pods/leveldb-library/util/coding.cc:47-170 | 32- and 64-bit varints decode to the number encoded and leave the rest of the input. |
| Coding.ReadVarint | FinalWork_JanyErtveldt/Pods/leveldb-library/util/coding.cc:112-158 | The shift-and-accumulate loop computes the number of at most five or ten bytes, truncated to the word. |
| Coding.EncodeVarint | FinalWork_JanyErtveldt/Pods/leveldb-library/util/coding.cc:81-90 | The loop writes the base-128 digits with continuation bits. |
| Coding.VarintDigits | FinalWork_JanyErtveldt/Pods/leveldb-library/util/coding.cc:47-90 | Byte i holds digit i to base 128, the top bit marks all bytes but the last, and there are no more bytes than needed. |
| Coding.TakeVarintIs | FinalWork_JanyErtveldt/Pods/leveldb-library/util/coding.cc:112-158 | For every input: the number of the digits up to the first byte without top bit, or failure when there is none among the first so many. |
| Coding.PrefixedRoundTrip | FinalWork_JanyErtveldt/Pods/leveldb-library/util/coding.cc:98-192 | A length-prefixed string is read back and the rest left. |
| VersionEdit.EditRoundTrip | FinalWork_JanyErtveldt/Pods/leveldb-library/db/version_edit.cc:41-210 | Decoding an encoded edit into a fresh one gives it back: counters, pointers, the set of deletions, additions. |
| VersionEdit.EncodeTo | FinalWork_JanyErtveldt/Pods/leveldb-library/db/version_edit.cc:41-86 | The loops write the fields in order. |
| VersionEdit.DecodeFrom | FinalWork_JanyErtveldt/Pods/leveldb-library/db/version_edit.cc:109-210 | For every byte string: the edit its fields make, or an error when one is malformed. |
| EditSound.DecodeMeans | FinalWork_JanyErtveldt/Pods/leveldb-library/db/version_edit.cc:109-210 | A string is accepted if and only if it is a row of well-formed fields: known tags, levels below seven, complete payloads; their effects apply in order. |
| EditSound.EditHolds | FinalWork_JanyErtveldt/Pods/leveldb-library/db/version_edit.cc:120-199 | The files added, files deleted and pointers of a decoded edit are exactly those its fields name. |
| Manifest.TogetherIsOneByOne | FinalWork_JanyErtveldt/Pods/leveldb-library/db/version_set.cc:600-773 | Many edits through one builder end in the same sorted file lists as one version after another, when no level is given a file number twice. |
| Manifest.Recover | FinalWork_JanyErtveldt/Pods/leveldb-library/db/version_set.cc:905-1025 | Succeeds exactly when nothing is reported dropped, every record decodes and names the comparator, and the counters are there; then restores the version after all edits, the compaction pointers and the counters. |
| Manifest.LoadedMeans | FinalWork_JanyErtveldt/Pods/leveldb-library/db/version_set.cc:947-961 | All records are loaded exactly when each decodes and names no other comparator, and each edit is the one its record decodes to. |
| Manifest.CountersMean | FinalWork_JanyErtveldt/Pods/leveldb-library/db/version_set.cc:963-981 | Of each counter the last value given counts, and it is missing exactly when no record gives it. |
| Manifest.CutManifestLoads | FinalWork_JanyErtveldt/Pods/leveldb-library/db/version_set.cc:944-982 | A manifest cut at any byte loads exactly the edits wholly before the cut. |
| Manifest.VersionSet.constructor | FinalWork_JanyErtveldt/Pods/leveldb-library/db/version_set.cc:1102-1130 | A new manifest begins with a record from which recovery restores the current version and pointers. |
| Manifest.VersionSet.LogAndApply | FinalWork_JanyErtveldt/Pods/leveldb-library/db/version_set.cc:820-903 | The installed version, and what recovering the extended manifest would give, both change by exactly the edit. |
| Manifest.CrashAndRecover | FinalWork_JanyErtveldt/Pods/leveldb-library/db/version_set.cc:905-1025 | Whatever prefix of the manifest survives, recovery restores version, pointers and counters as after the last whole edit; it fails only when no edit follows the snapshot record. |
| Manifest.SnapshotRestores | FinalWork_JanyErtveldt/Pods/leveldb-library/db/version_set.cc:1102-1130 | The snapshot record alone rebuilds the files of every level and the compaction pointers. |
| SkipList.StoreKeeps | FinalWork_JanyErtveldt/Pods/leveldb-library/db/skiplist.h:337-370 | Every store of Insert, the early max_height bump included, keeps each level sorted, ended by NULL and inside the levels below. |
| SkipListRuns.EveryStateIsSkipList | FinalWork_JanyErtveldt/Pods/leveldb-library/db/skiplist.h:337-370 | In every interleaving of the writer's stores with any number of readers, every state is a skip list and no reader is about to load an uninitialized cell. |
| SkipListRuns.EverySearchIsRight | FinalWork_JanyErtveldt/Pods/leveldb-library/db/skiplist.h:262-322 | In every interleaving, a search for the first key at or after, the last key before, or the last key ends with the right answer for the level-0 list as it stands at the search's last load. |
| SkipListRuns.ReadOk | FinalWork_JanyErtveldt/Pods/leveldb-library/db/skiplist.h:266-280 | One load keeps the searcher on a level list before its target. |
| SkipListRuns.SearchStays | FinalWork_JanyErtveldt/Pods/leveldb-library/db/skiplist.h:353-359 | A store by the writer never strands a search. |
| SkipListRuns.IteratorNextIsSuccessor | FinalWork_JanyErtveldt/Pods/leveldb-library/db/skiplist.h:207-211 | The next pointer read at any time leads to the least larger key of that moment. |
| SkipListCode.Table.FindGreaterOrEqual | FinalWork_JanyErtveldt/Pods/leveldb-library/db/skiplist.h:261-281 | Finds the first key at or after the target, and at every level the last node before it. |
| SkipListCode.Table.Contains | FinalWork_JanyErtveldt/Pods/leveldb-library/db/skiplist.h:372-380 | True exactly when the key is in the list. |
| SkipListCode.Table.Insert | FinalWork_JanyErtveldt/Pods/leveldb-library/db/skiplist.h:336-370 | For every height, the set of keys grows by exactly the new key, through stores that are steps of the concurrent model. |
| SkipListCode.KeysAfter | FinalWork_JanyErtveldt/Pods/leveldb-library/db/skiplist.h:364-369 | Only the store that links the node at level 0 changes the set of keys. |
| WriterQueueProof.ReadersSeeWholeBatches | FinalWork_JanyErtveldt/Pods/leveldb-library/db/db_impl.cc:1194-1265 | At every moment of every interleaving, a reader at LastSequence sees exactly the batches whose writers were told OK: each whole, once, in queue order, under increasing sequence numbers. |
| WriterQueueProof.LogHoldsBatchesInOrder | FinalWork_JanyErtveldt/Pods/leveldb-library/db/db_impl.cc:1213-1246 | The log holds the batches of the logged writers once each, in queue order, as records with disjoint increasing ranges of sequence numbers. |
| WriterQueueProof.OkMeansLogged | FinalWork_JanyErtveldt/Pods/leveldb-library/db/db_impl.cc:1222-1257 | A writer told OK has its batch in the log, and behind a completed sync if it asked for one, even when another writer led its group. |
| WriterQueueProof.StepKeeps | FinalWork_JanyErtveldt/Pods/leveldb-library/db/db_impl.cc:1194-1265 | Every step (arrival, making room, log append, sync, one insertion, completion, each with success or failure) keeps queue, log, memtable and outcomes consistent. |
| WriterQueueCrash.RangesAreConsecutive | FinalWork_JanyErtveldt/Pods/leveldb-library/db/db_impl.cc:1209-1246 | Groups take consecutive ranges of sequence numbers from 1 on; between groups the end of the last is LastSequence. The log is a subsequence of them, and all of them, hence consecutive, unless an append failed. |
| WriterQueueCrash.MemtableReplaysLog | FinalWork_JanyErtveldt/Pods/leveldb-library/db/db_impl.cc:1222-1240 | Between groups the memtable is the replay of exactly the logged records whose writers were told OK, every entry under the sequence number its record gives it. |
| WriterQueueCrash.SyncedWriteSurvives | FinalWork_JanyErtveldt/Pods/leveldb-library/db/db_impl.cc:413-436 | A sync write that was told OK survives every crash that keeps the synced part of the log: its batch, whole, is in a record that recovery applies. |
| WriterQueue.GroupKeepsSync | FinalWork_JanyErtveldt/Pods/leveldb-library/db/db_impl.cc:1288-1293 | A sync write never joins the group of a non-sync leader. |
| WriterQueue.BuildBatchGroup | FinalWork_JanyErtveldt/Pods/leveldb-library/db/db_impl.cc:1269-1314 | The merged batch is the concatenation of the batches of the writers taken, in queue order. The group stops only at the end of the queue, at a sync writer behind a leader that is not, or at a batch with which the bytes would exceed the limit (128K more than the first batch, or 1M when that is over 128K); no prefix of it exceeds the limit. |
| WriterQueue.GroupIsLongest | FinalWork_JanyErtveldt/Pods/leveldb-library/db/db_impl.cc:1276-1311 | The group that the writers' state machine forms is the longest that these rules allow. |
| WriterQueueStatus.NoFailureAllOk | FinalWork_JanyErtveldt/Pods/leveldb-library/db/db_impl.cc:1194-1265 | In every run without a failing event all writers are told OK. |
| WriterQueueStatus.FailedSyncStopsWrites | FinalWork_JanyErtveldt/Pods/leveldb-library/db/db_impl.cc:1222-1240 | After a failed sync nothing is logged or applied any more and no writer is told OK. |
| WriterQueueStatus.NeverStuck | FinalWork_JanyErtveldt/Pods/leveldb-library/db/db_impl.cc:1194-1265 | While writers wait, the front writer always has a step to take. |
| WriterQueueStatus.StepsEnd | FinalWork_JanyErtveldt/Pods/leveldb-library/db/db_impl.cc:1194-1265 | Each of these steps brings it nearer to its end or takes its group off the queue, so every writer is told something. |
| Block.BlockBuilder.Add | FinalWork_JanyErtveldt/Pods/leveldb-library/table/block_builder.cc:73-107 | Represents one more entry; restart points fall every interval entries and shared prefixes never reach across one. |
| Block.BlockBuilder.Finish | FinalWork_JanyErtveldt/Pods/leveldb-library/table/block_builder.cc:63-71 | The finished bytes are a block of exactly the added entries, of the estimated size, with restart point j at entry j times the interval. |
| Block.PiecesAreEntries | FinalWork_JanyErtveldt/Pods/leveldb-library/table/block_builder.cc:73-107 | Every interval-th entry is written with its whole key, every other one without the longest prefix it shares with its predecessor. |
| Block.DecodeAt | FinalWork_JanyErtveldt/Pods/leveldb-library/table/block.cc:53-74 | At the offset of an entry both decoding paths give its lengths, and its key delta and value follow. |
| BlockIter.Iter.ParseNextKey | FinalWork_JanyErtveldt/Pods/leveldb-library/table/block.cc:226-253 | Rebuilds the next entry's key from the shared prefix; in a built block no corruption is ever found. |
| BlockIter.Iter.Next | FinalWork_JanyErtveldt/Pods/leveldb-library/table/block.cc:139-142 | Moves to the following entry, or off the end. |
| BlockIter.Iter.Prev | FinalWork_JanyErtveldt/Pods/leveldb-library/table/block.cc:144-163 | Moves to the preceding entry by way of a restart point, or off the front. |
| BlockIter.Iter.Seek | FinalWork_JanyErtveldt/Pods/leveldb-library/table/block.cc:165-203 | Binary search on restart points and a linear scan land on the first key not before the target. |
| BlockIter.Iter.SeekToFirst | FinalWork_JanyErtveldt/Pods/leveldb-library/table/block.cc:205-208 | Lands on the first entry. |
| BlockIter.Iter.SeekToLast | FinalWork_JanyErtveldt/Pods/leveldb-library/table/block.cc:210-215 | Lands on the last entry. |
| Comparator.FindShortestSeparator | FinalWork_JanyErtveldt/Pods/leveldb-library/util/comparator.cc:29-51 | At the first byte that differs: that byte plus one ends the result when this is still below the limit's byte; otherwise, and when one is a prefix of the other, the start itself. The result is the start or lies strictly between, and is no longer. |
| Comparator.FindShortSuccessor | FinalWork_JanyErtveldt/Pods/leveldb-library/util/comparator.cc:53-65 | The first byte that is not 0xff plus one ends the result; a run of 0xff is left alone. The result is the key or lies strictly after it, and is no longer. |
| Comparator.FindKeySeparator | FinalWork_JanyErtveldt/Pods/leveldb-library/db/dbformat.cc:68-85 | The last key itself, or the earliest internal key of the user key's separator, taken exactly when that is shorter. |
| Comparator.FindKeySuccessor | FinalWork_JanyErtveldt/Pods/leveldb-library/db/dbformat.cc:87-99 | The last key itself, or the earliest internal key of the user key's successor, taken exactly when that is shorter. |
| Comparator.SeparatorBetween | FinalWork_JanyErtveldt/Pods/leveldb-library/db/dbformat.cc:80-83 | The comparator's own assertions hold: start <= separator < limit. |
| Comparator.BytesLessMeans | FinalWork_JanyErtveldt/Pods/leveldb-library/include/leveldb/slice.h:96-104 | One string is before another exactly when it is a proper prefix or smaller at the first byte that differs. |
| Comparator.KeyTotal | FinalWork_JanyErtveldt/Pods/leveldb-library/db/dbformat.cc:50-66 | The order of internal keys is total. |
| Filter.BloomMatches | FinalWork_JanyErtveldt/Pods/leveldb-library/util/bloom.cc:35-87 | A Bloom filter never denies one of its keys, for every hash function, number of keys, bits per key and probe count. |
| Filter.CreateBloom | FinalWork_JanyErtveldt/Pods/leveldb-library/util/bloom.cc:35-61 | At least 64 bits, the probe count in the last byte, and the bits set are exactly those that some key's hash leads to. |
| Filter.BloomMayMatch | FinalWork_JanyErtveldt/Pods/leveldb-library/util/bloom.cc:63-87 | Less than two bytes never match and a probe count above 30 always does; otherwise it matches exactly when for every j below the count the bit at (h + j * (h rotated right by 17)) mod 2^32 mod the number of bits is set. |
| Filter.BloomHolds | FinalWork_JanyErtveldt/Pods/leveldb-library/util/bloom.cc:35-61 | A bit of a filter is set if and only if a probe of one of its keys is at that bit. |
| Filter.FilterBlockBuilder.StartBlock | FinalWork_JanyErtveldt/Pods/leveldb-library/table/filter_block.cc:22-28 | Generates filters up to the one of the block's offset; every key stays in the filter of its block. |
| Filter.FilterBlockBuilder.Finish | FinalWork_JanyErtveldt/Pods/leveldb-library/table/filter_block.cc:36-50 | The finished block, asked at an offset, answers exactly as the filter of the keys added for those 2048 bytes (no keys have the empty filter, and offsets beyond all filters match), so it admits every key at the offset of its data block. |
| Format.HandleRoundTrip | FinalWork_JanyErtveldt/Pods/leveldb-library/table/format.cc:15-30 | Decoding a block handle undoes encoding and leaves what follows. |
| Format.FooterRoundTrip | FinalWork_JanyErtveldt/Pods/leveldb-library/table/format.cc:32-63 | A footer takes 48 bytes and decodes to its two handles, behind its magic number. |
| Format.StoredReads | FinalWork_JanyErtveldt/Pods/leveldb-library/table/format.cc:65-142 | A block stored with its trailer is read back, and its checksum over contents and type matches. |
| Format.CheckedReadMeans | FinalWork_JanyErtveldt/Pods/leveldb-library/table/format.cc:65-104 | With checking, a block is read if and only if contents, type byte zero and the masked checksum of both stand at the handle. |
| Format.FooterMeans | FinalWork_JanyErtveldt/Pods/leveldb-library/table/format.cc:43-63 | A footer is accepted exactly when its last eight bytes are the magic number and two handles decode. |
| Format.KeyRoundTrip | FinalWork_JanyErtveldt/Pods/leveldb-library/db/dbformat.cc:18-21 | An internal key is its user key and eight bytes, and parses back. |
| Table.InternalGetIsNewest | FinalWork_JanyErtveldt/Pods/leveldb-library/table/table.cc:226-255 | On what a table holds, with or without filters: the row reported is the newest of the user key at or below the sought sequence number if one exists, and otherwise no row of that user key. |
| Table.SeparatorBefore | FinalWork_JanyErtveldt/Pods/leveldb-library/table/table.cc:231-232 | Index entries of blocks before the answer's are before the sought key, shortened or not. |
| Table.SeparatorsIncrease | FinalWork_JanyErtveldt/Pods/leveldb-library/table/table_builder.cc:100-107 | The shortened keys of the index block increase strictly, as its builder and its iterator demand. |
| TableBuilder.TableBuilder.Add | FinalWork_JanyErtveldt/Pods/leveldb-library/table/table_builder.cc:92-121 | Rows, blocks, separators written one block late, and filters stay consistent; the block is closed exactly when its size reaches block_size. |
| TableBuilder.TableBuilder.Flush | FinalWork_JanyErtveldt/Pods/leveldb-library/table/table_builder.cc:123-137 | Closes the open block, with all its rows and the estimated size, and leaves its index entry pending; an empty block is left alone. |
| TableBuilder.TableBuilder.Finish | FinalWork_JanyErtveldt/Pods/leveldb-library/table/table_builder.cc:199-254 | The file is a table of exactly the added rows: data blocks, filters, metaindex, index and footer, each where its handle says. |
| TableBuilder.TableBuilder.WriteRawBlock | FinalWork_JanyErtveldt/Pods/leveldb-library/table/table_builder.cc:175-193 | Contents and trailer are appended, and the handle finds them. |
| TableBuilder.BuildTable | FinalWork_JanyErtveldt/Pods/leveldb-library/db/builder.cc:17-53 | Any sorted rows give a table file of them; every data block but the last has reached block_size. |
| TableReader.Open | FinalWork_JanyErtveldt/Pods/leveldb-library/table/table.cc:38-149 | A file without a footer is refused; a table file opens with its index block, and with its filters exactly when the reader's policy has the name they were written under. |
| TableReader.TableReader.InternalGet | FinalWork_JanyErtveldt/Pods/leveldb-library/table/table.cc:226-255 | The newest row found over the bytes; a data block is read exactly when the index leads to one and the filter, if there is one, does not rule the key out. |
| TableReader.BuildAndGet | FinalWork_JanyErtveldt/Pods/leveldb-library/table/table.cc:226-255 | Building a table file from any sorted rows and looking up any key in its bytes gives the newest row, for every block size, restart interval, policy without false negatives and checksum option. |
| TableReader.BlockReader | FinalWork_JanyErtveldt/Pods/leveldb-library/table/table.cc:164-218 | The index value leads to an iterator over exactly the rows of its block, with or without checksum verification. |
| TableReader.EncodedSeek | FinalWork_JanyErtveldt/Pods/leveldb-library/db/dbformat.cc:50-66 | Seeking among encoded internal keys is seeking among the keys. |
| HandleTable.HandleTable.Insert | FinalWork_JanyErtveldt/Pods/leveldb-library/util/cache.cc:80-94 | Refines map update, across collisions, replacements and resizes, and returns what was replaced. |
| HandleTable.HandleTable.Remove | FinalWork_JanyErtveldt/Pods/leveldb-library/util/cache.cc:96-104 | Refines map removal and returns what was removed. |
| HandleTable.HandleTable.Lookup | FinalWork_JanyErtveldt/Pods/leveldb-library/util/cache.cc:76-78 | Finds exactly what the map holds. |
| HandleTable.HandleTable.Resize | FinalWork_JanyErtveldt/Pods/leveldb-library/util/cache.cc:125-149 | Redistributing every chain changes nothing the table holds; the number of chains stays a power of two and is at least the number of entries. |
| Cache.LRUCache.Insert | FinalWork_JanyErtveldt/Pods/leveldb-library/util/cache.cc:269-303 | The new entry replaces one of the same key and is cached and held; then the oldest released entries are deleted, in order, exactly as many as needed for usage to fit the capacity or until no unreferenced entry is left. Capacity zero caches nothing. |
| Cache.LRUCache.Lookup | FinalWork_JanyErtveldt/Pods/leveldb-library/util/cache.cc:255-262 | Finds a cached entry and takes a reference, moving it out of the LRU list; usage and the other entries stay. |
| Cache.LRUCache.Release | FinalWork_JanyErtveldt/Pods/leveldb-library/util/cache.cc:264-267 | Gives a reference back; the deleter runs now exactly if neither a client nor the cache refers to the entry any more, and a cached entry without clients becomes the most recent of the LRU list. |
| Cache.LRUCache.Erase | FinalWork_JanyErtveldt/Pods/leveldb-library/util/cache.cc:318-321 | Takes the key out of the cache; the deleter runs now exactly if no client holds the entry. |
| Cache.LRUCache.Prune | FinalWork_JanyErtveldt/Pods/leveldb-library/util/cache.cc:323-333 | Deletes every unreferenced entry, oldest first, and no other. |
| Cache.FinishEraseKeeps | FinalWork_JanyErtveldt/Pods/leveldb-library/util/cache.cc:307-316 | Erasing takes the cache's reference and the charge away and keeps counts, lists, usage and deleter log consistent. |
| Cache.RefKeeps | FinalWork_JanyErtveldt/Pods/leveldb-library/util/cache.cc:221-227 | Taking a reference keeps the lists the disjoint union of unreferenced and referenced cached entries. |
| Cache.UnrefKeeps | FinalWork_JanyErtveldt/Pods/leveldb-library/util/cache.cc:229-240 | Giving one back keeps them so, and calls the deleter once at the end. |
| Cache.DeletersRunOnce | FinalWork_JanyErtveldt/Pods/leveldb-library/util/cache.cc:229-240 | Each deleter has run at most once and only for entries nobody refers to; every other entry is referred to. |
| NanopbProof.EncodeDecode | FinalWork_JanyErtveldt/Pods/nanopb/pb_decode.c:852-967 | For every finite descriptor tree of static fields and every valid message, decoding the encoding gives the message back. |
| NanopbProof.MessageRoundTrip | FinalWork_JanyErtveldt/Pods/nanopb/pb_decode.c:863-917 | Decoding with a descriptor that lacks some of the sender's fields, at any depth, gives the values of the fields that are left. |
| NanopbProof.SkipValue | FinalWork_JanyErtveldt/Pods/nanopb/pb_decode.c:231-287 | Skipping a field of an unknown tag consumes exactly its payload. |
| NanopbProof.NumberRoundTrip | FinalWork_JanyErtveldt/Pods/nanopb/pb_decode.c:1118-1260 | Every number in the range of its field survives, negative and zig-zag ones included. |
| NanopbProof.PackedRoundTrip | FinalWork_JanyErtveldt/Pods/nanopb/pb_decode.c:374-402 | A packed array fills the items in order and leaves the rest of the input. |
| NanopbProof.ProjectSame | FinalWork_JanyErtveldt/Pods/nanopb/pb_decode.c:955-967 | With the same descriptor on both sides nothing is lost. |
| NanopbFits.MessageFits | FinalWork_JanyErtveldt/Pods/nanopb/pb_decode.c:852-967 | Whatever bytes arrive, at any depth: what is decoded fits its struct. Numbers are in the range of their width, bytes and terminated strings in their room, fixed bytes fill it, arrays hold at most their maximum, and at most one member of a union is set. |
| NanopbFits.RequiredOccur | FinalWork_JanyErtveldt/Pods/nanopb/pb_decode.c:919-950 | Whatever bytes are accepted, every required field occurs in them. |
| NanopbOrder.AnyOrder | FinalWork_JanyErtveldt/Pods/nanopb/pb_decode.c:863-917 | Fields may come in any order and repeatedly, arrays packed or item by item: single fields keep the last value, unions the last member, arrays all items in order. |
| NanopbMerge.MergeIsConcat | FinalWork_JanyErtveldt/Pods/nanopb/pb_decode.c:852-953 | Decoding one message on top of another is decoding their concatenation. |
| NanopbMerge.SubmessageMerges | FinalWork_JanyErtveldt/Pods/nanopb/pb_decode.c:1334-1356 | A submessage that comes twice ends up as if its bodies had come in one piece. |
| NanopbWire.EncodeOnWire | FinalWork_JanyErtveldt/Pods/nanopb/pb_encode.c:451-648 | The bytes written are those of the Protocol Buffers encoding, written out: two's complement and zig-zag varints, little-endian fixed numbers, wire types, lengths, packed arrays. |
| NanopbWire.NumberRead | FinalWork_JanyErtveldt/Pods/nanopb/pb_decode.c:1165-1248 | Any varint is taken exactly when the number it stands for lies in the field's range, and as that number. |
| NanopbWire.FixedRead | FinalWork_JanyErtveldt/Pods/nanopb/pb_decode.c:1132-1163 | Fixed numbers are read from exactly four or eight little-endian bytes. |
| NanopbEncoder.EncodeSubmessage | FinalWork_JanyErtveldt/Pods/nanopb/pb_encode.c:600-648 | The counting pass finds exactly the number of bytes that the writing pass emits, so "submsg size changed" is never reported; succeeds exactly when the message fits its limits and the stream has room. |
| NanopbEncoder.EncodeArray | FinalWork_JanyErtveldt/Pods/nanopb/pb_encode.c:116-201 | Packed and unpacked arrays: the announced size is the size written; too many items or too little room, and nothing else, fail. |
| NanopbEncoder.EncodeBasicField | FinalWork_JanyErtveldt/Pods/nanopb/pb_encode.c:271-349 | Required, optional, repeated and union fields emit their tagged values, or nothing when absent. |
| NanopbEncoder.EncodeMessage | FinalWork_JanyErtveldt/Pods/nanopb/pb_encode.c:451-473 | Emits the fields in descriptor order; a counting stream and a writing stream advance by the same amount. |
| NanopbEncoder.VarintBuffer | FinalWork_JanyErtveldt/Pods/nanopb/pb_encode.c:494-514 | The buffer loop with its final bit fix writes the canonical varint. |
| NanopbDecoder.FieldIter.Find | FinalWork_JanyErtveldt/Pods/nanopb/pb_common.c:78-95 | From any position a tag is found exactly when it exists (zero also in an empty descriptor, whose terminator it matches), and data offset and required index are the canonical ones of the field. |
| NanopbDecoder.FieldIter.Next | FinalWork_JanyErtveldt/Pods/nanopb/pb_common.c:20-76 | Advances cyclically; members of one union share their offset. |
| NanopbDecoder.DecodeNoinit | FinalWork_JanyErtveldt/Pods/nanopb/pb_decode.c:852-953 | The loop with cyclic iterator and two-word bitmap, calling itself for submessages, decodes every byte string at every depth as the plain decoder that looks tags up and keeps a set of required fields; what it accepts fits its struct and contains every required field. |
| NanopbDecoder.CheckMeans | FinalWork_JanyErtveldt/Pods/nanopb/pb_decode.c:919-950 | The word-wise bitmap check passes exactly when every required field was seen, for counts that are 0 or below 64 and no multiple of 32. |
| NanopbDecoder.DecodeEncoded | FinalWork_JanyErtveldt/Pods/nanopb/pb_decode.c:955-967 | The decoding code gives back every valid encoded message, and with a descriptor that lacks fields at any depth the values of the fields that are left. |
| NanopbDecoder.DecodeField | FinalWork_JanyErtveldt/Pods/nanopb/pb_decode.c:356-429 | Required, optional, repeated and union fields are decoded from the stream as specified, packed or not. |
| NanopbDecoder.DecodePacked | FinalWork_JanyErtveldt/Pods/nanopb/pb_decode.c:374-402 | The loop over a packed array succeeds and ends exactly where the specification does, and overflows when the room is used up. |
| NanopbDecoder.DecodeSubmessage | FinalWork_JanyErtveldt/Pods/nanopb/pb_decode.c:1334-1356 | A submessage is decoded from a substream, which is left whole behind. |
| NanopbDecoder.DecodeNumber | FinalWork_JanyErtveldt/Pods/nanopb/pb_decode.c:1165-1248 | Numbers are accepted exactly when a cast to the width of the field leaves them unchanged, that is when they are in its range. |
| NanopbDecoder.DecodeRaw | FinalWork_JanyErtveldt/Pods/nanopb/pb_decode.c:1262-1332 | Bytes are accepted up to their room, strings with one byte to spare, fixed bytes at exactly their size or empty; anything longer is rejected. |
| NanopbDecoder.CastKeeps | FinalWork_JanyErtveldt/Pods/nanopb/pb_decode.c:1184-1197 | Clamping changes a number exactly when it is out of range. |
| NanopbDecoder.SkipsUnknownIff | FinalWork_JanyErtveldt/Pods/nanopb/pb_common.c:78-95 | Unknown fields make no difference if and only if the descriptor has fields: an empty one takes field number 0 for its terminator and rejects the message. |
| NanopbDecoder.EmptyRejectsZero | FinalWork_JanyErtveldt/Pods/nanopb/pb_decode.c:863-917 | The bytes 2, 0 under the empty descriptor: an unknown field of no length, which the code rejects. |
| NanopbStream.IStream.DecodeVarint32 | FinalWork_JanyErtveldt/Pods/nanopb/pb_decode.c:173-207 | Reads at most five groups, cut to 32 bits; on failure the stream is at its end exactly if no more than five bytes were left. |
| NanopbStream.IStream.DecodeVarint | FinalWork_JanyErtveldt/Pods/nanopb/pb_decode.c:209-229 | Reads at most ten groups, cut to 64 bits. |
| NanopbStream.IStream.SkipField | FinalWork_JanyErtveldt/Pods/nanopb/pb_decode.c:231-287 | Passes over exactly the payload of its wire type. |
| NanopbStream.IStream.MakeSubstream | FinalWork_JanyErtveldt/Pods/nanopb/pb_decode.c:322-335 | The substream holds exactly the length-prefixed part, and the stream keeps what follows it. |
| NanopbStream.IStream.CloseSubstream | FinalWork_JanyErtveldt/Pods/nanopb/pb_decode.c:337-350 | Whatever the part has left is passed over. |

## Left out

- Manifest.Recover: the requirement that every decodable record names existing table files and gives no level
  a file number twice stands for what LogAndApply wrote; the code does not check it either.
- NanopbDecoder.DecodeNoinit: the destination is a value that the methods return instead of a struct written
  through pointers; offsets are proved right but not used to address memory.
- Cache.LRUCache.Insert: the handle record is not addressed through pointers: lists are sequences of handle
  numbers, so relinking of neighbours in the circular lists is not captured.
- CompactionWork.DoCompactionWork: the test whether an output file is full is an arbitrary choice at each
  entry, and the merged input is drained before the loop.
- Db.Database.CompactMemTable: the level is the one the overlap test of the code admits under any
  grandparent limit; writing the table and installing it is one step.
- TableBuilder.TableBuilder.Add: keys are given parsed and are encoded when they are written; a row's sequence
  number and type take eight bytes.
- TableReader.Open: a file that ends in a footer is taken to be a table that the builder wrote; corrupted blocks
  are not modelled beyond the checks of ReadBlock.
- WriterQueueProof.ReadersSeeWholeBatches: memtable switches between groups are not steps here (they are in
  `Lsm`), so the memtable stands for all memtables; liveness of the wake-ups is not stated.
- SkipListRuns.EverySearchIsRight: atomic pointers are sequentially consistent cells; weaker memory orders and
  termination under endless insertion are not modelled.
- WriterQueueProof.LogHoldsBatchesInOrder: a failed append is taken to leave nothing in the log; bytes of a
  record written in part before an I/O error are not modelled.
- LsmSplits.SnapshotFreeRunReadsRight: a flush during a compaction is covered for connected inputs, which
  automatic compactions always have; for a manual compaction with a gap the exact condition is
  FlushKeepsInputsIff.
- Merger.MergingIterator.Seek: in `Scan` each file of a sorted level is a child of its own instead of one
  concatenating iterator per level; that iterator is the class of `TwoLevel` with files for blocks.
- LogSound.NothingLost: a fragment of type 6, which only the reader uses for bad records, would be skipped with
  its payload unreported; files with such a fragment are excluded.
- Filter.BloomHolds: the number of probes is a parameter; the policy computes it from the bits per key in floating
  point. The hash function is any function of the key.
- Snappy compression.
- The block cache in front of table reads, TableCache, sharding of the cache, seek sampling, compaction scores
  and write stalls: heuristics or plumbing that do not affect results.
- Log reading from an initial offset above 0, log reuse, and repair.
- nanopb pointer fields, callbacks, extensions, implicit presence, stored default values and float
  interpretation.
- Files, locks, threads, clocks and the environment; arenas; file names; the C bindings; the Swift application.
