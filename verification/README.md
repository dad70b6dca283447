# Verified models of LevelDB and nanopb

The iOS project vendors two libraries whose behaviour this project models in Dafny: LevelDB, an ordered
key-value store made of a memtable, a log and sorted table files in seven levels, and nanopb, a
descriptor-driven Protocol Buffers encoder and decoder.

## What is modelled

The meaning of the store is a set of entries (user key, sequence number, value or deletion, value bytes). A read
of a user key at a snapshot returns the newest entry that the snapshot may see (`DbFormat.Read`). Everything else
is proved against that meaning or against a plain list:

- **Store** (`Versions`, `Lookup`, `Inputs`, `OutputCuts`, `Compactions`, `CompactionMeaning`, `LevelSteps`,
  `Flushing`, `Database`, `Engine`, `ManualCompactions`): `class DBImpl` with its memtables, levels, snapshots and
  background work. Runs of writes, memtable switches, flushes, trivial moves, compactions and snapshots are a state
  machine; each method is proved to be one of its steps, and the theorems are about every run.
- **Version edits** (`Builder`, `VersionSet`, `VersionEdits`): the builder that merges edits, recovery from the
  manifest, and the records themselves.
- **Iterators** (`Iterators`, `Merger`, `Sources`, `DbIter`): the merging iterator and the user-level iterator as
  cursors, in both directions.
- **Memtable** (`SkipLists`): nodes and links in an arena, insertion, the three searches, and point lookup.
- **Writing** (`WriteBatches`, `WriteQueue`): the batch format, and the queue in which one writer serves others.
- **Log** (`LogFormat`, `LogReader`, `LogRoundTrip`): 32768-byte blocks, fragments, and reading a file cut anywhere.
- **Tables** (`Comparators`, `Blocks`, `BlockIter`, `TableBuilding`, `Tables`, `Filters`): prefix-compressed blocks,
  shortened separators, the index, two-level iteration, and filter blocks with Bloom filters.
- **Cache** (`HandleTables`, `Rings`, `Caches`): the hash table, the circular lists through memory, and reference counts.
- **nanopb** (`ProtoTypes`, `ProtoScalars`, `ProtoMerge`, `ProtoRoundTrip`, `ProtoUnknown`, `ProtoSoundness`,
  `ProtoStreams`): the wire format, both streams, what is merged, skipped and refused, and what comes back, as the
  sections "Base 128 Varints", "Message Structure" and "Length-Delimited Records" of the Protocol Buffers Encoding
  specification describe it.
- **Coding**: fixed-width, variable-width and length-prefixed encodings shared by all formats.

Sources updated in place are classes or loops over variables; each method states its whole effect, and the
lemmas are about the functions those contracts name. `dafny verify dfyconfig.toml` checks the project.

## Model

| member | source | states |
|---|---|---|
| DbFormat.NewestExists | ios/Pods/leveldb-library/db/dbformat.h:48-76 | With distinct internal keys, a read of any key at any snapshot either sees nothing or has one newest visible entry. |
| DbFormat.ReadFromNewest | ios/Pods/leveldb-library/db/db_impl.cc:1126-1145 | Whichever entry is newest decides the read: a value is returned, a deletion reads as absent. |
| Versions.FindFile | ios/Pods/leveldb-library/db/version_set.cc:87-105 | Binary search splits a sorted level exactly: files before the result end before the key, the others do not. |
| Versions.SomeFileOverlapsRange | ios/Pods/leveldb-library/db/version_set.cc:121-157 | True if and only if some file of the level overlaps the range, for level 0 and for sorted levels, with open ends. |
| Lookup.GetLevel0 | ios/Pods/leveldb-library/db/version_set.cc:281-303 | Trying the covering level-0 files from the highest number down and stopping at the first hit gives the newest visible entry of the whole level. |
| Lookup.GetSortedLevel | ios/Pods/leveldb-library/db/version_set.cc:305-322 | Looking into one binary-searched file suffices for a deeper level, also when a user key straddles two files. |
| Lookup.Get | ios/Pods/leveldb-library/db/version_set.cc:281-322 | Under the level invariant, the first hit from level 0 downwards is the newest visible entry of all seven levels, and a miss means there is none. |
| Inputs.GetOverlappingInputs | ios/Pods/leveldb-library/db/version_set.cc:498-538 | The restarting loop ends, and at level 0 returns exactly the files in the least range around the request that is closed under user-key overlap. |
| Inputs.AddBoundaryInputs | ios/Pods/leveldb-library/db/version_set.cc:1321-1378 | The loop ends with the chosen files, in order, plus boundary files, and no unpicked file starts at the largest chosen user key with an older entry. |
| Inputs.ConvexLeavesNewer | ios/Pods/leveldb-library/db/version_set.cc:1335-1378 | After boundary files were added, everything left behind in the level is newer than what was picked, wherever they share a user key. |
| Inputs.SetupOtherInputs | ios/Pods/leveldb-library/db/version_set.cc:1380-1439 | Any pickable set of files becomes a good choice that contains it: its boundary files, what overlaps them below, and the larger choice exactly if that has more files above, as many below and stays under the limit; the grandparents are exactly the files two levels down that overlap the joint range. |
| Inputs.PickFile | ios/Pods/leveldb-library/db/version_set.cc:1262-1273 | The first file of the level past the compaction pointer; the first of all exactly when there is none. |
| Inputs.PickCompaction | ios/Pods/leveldb-library/db/version_set.cc:1247-1299 | A compaction around a picked file is a good choice set up from that file, at level 0 from all it overlaps, directly or not, with its grandparents. |
| Inputs.CompactRange | ios/Pods/leveldb-library/db/version_set.cc:1441-1472 | Nothing is chosen if and only if no file of the level overlaps the range; otherwise the choice is set up from the files that overlap it, below level 0 only the first ones up to the size limit. |
| Compactions.Compaction.IsBaseLevelForKey | ios/Pods/leveldb-library/db/version_set.cc:1510-1529 | For user keys that never decrease, the moving cursors answer exactly as a scan of all deeper files would. |
| Compactions.Compaction.ShouldStopBefore | ios/Pods/leveldb-library/db/version_set.cc:1531-1552 | At the first key it never stops; at a later one it stops if and only if the grandparents that end between the last stop and the key sum to more than the limit. |
| Compactions.DoCompactionWork | ios/Pods/leveldb-library/db/db_impl.cc:887-1022 | Driving the merging iterator over the inputs, the loop writes exactly the entries neither rule drops, in order, into valid files with consecutive numbers and their sizes; between two files there is a reason to cut, within a file there is none, and no file overlaps more of the grandparents than the limit. |
| Compactions.PiecesAreWellCut | ios/Pods/leveldb-library/db/version_set.cc:1531-1552 | Over sorted grandparents, a file ends where its size reaches the limit or where the grandparents that ended since the last such stop are too many bytes, and nowhere else; the grandparents that end within one file never exceed the limit. |
| OutputCuts.NextKeyScans | ios/Pods/leveldb-library/db/version_set.cc:1533-1541 | The running count is the sum of the sizes of exactly those grandparents that end from the last stop on and before the key. |
| OutputCuts.SizeCutKeepsCounting | ios/Pods/leveldb-library/db/db_impl.cc:931-1005 | A concrete rule and input where a file that is neither large nor overlaps much itself ends, because the count goes on over a file closed for its size. |
| Compactions.KeptSorted | ios/Pods/leveldb-library/db/db_impl.cc:938-1005 | What survives the drop rules is in strict key order and comes from the inputs. |
| CompactionMeaning.CompactionKeepsReads | ios/Pods/leveldb-library/db/db_impl.cc:910-1009 | A compaction leaves every read at every snapshot from the oldest one on unchanged if and only if it does not uncover a boundary file (see Findings). |
| CompactionMeaning.UncoversChangesRead | ios/Pods/leveldb-library/db/version_set.cc:1380-1389 | When it does uncover one, the user key whose deletion was dropped reads as absent before and as present after. |
| CompactionMeaning.CompactionAtMaximum | ios/Pods/leveldb-library/db/db_impl.cc:947-972 | At the maximum sequence number the first rule drops every input entry, and exactly the inputs are gone. |
| CompactionMeaning.NothingOlderThanInputs0 | ios/Pods/leveldb-library/db/version_set.cc:1383-1387 | No file left behind at the two levels holds an older entry of a user key than a chosen file of the upper level does. |
| CompactionMeaning.LeftBehindStartsPast | ios/Pods/leveldb-library/db/version_set.cc:1384-1399 | A left-behind file of the lower level can hold an older entry of an input's user key only if it starts past the last input with that very user key. |
| LevelSteps.ReplacementKeepsInv | ios/Pods/leveldb-library/db/db_impl.cc:869-885 | Replacing the inputs by the outputs keeps levels sorted and disjoint, file numbers unique, and newer entries of a user key in shallower levels. |
| Flushing.PickLevelForMemTableOutput | ios/Pods/leveldb-library/db/version_set.cc:470-495 | A flushed memtable may be placed at the returned level: nothing it overlaps lies above, and the descent stops only for an overlap below, too large grandparents, or level 2. |
| Flushing.FlushKeepsInv | ios/Pods/leveldb-library/db/db_impl.cc:500-542 | A flush to a level that may take it keeps the level invariant. |
| Database.RunKeepsState | ios/Pods/leveldb-library/db/db_impl.cc:697-776 | In every state of every run of writes, switches, flushes, moves, compactions and snapshots the level invariant holds, memtables are newer than files, and snapshots are in order. |
| Database.RunIsFaithful | ios/Pods/leveldb-library/db/db_impl.cc:897-905 | While no compaction uncovers a boundary file, the store reads as the set of all that was ever written, at every snapshot not older than the oldest in use. |
| Database.SnapshotReadsRepeat | ios/Pods/leveldb-library/db/db_impl.cc:1176-1184 | A snapshot in use reads the same at every later moment of such a run, whatever was written, flushed, moved or compacted since. |
| Database.RunReadsWrites | ios/Pods/leveldb-library/db/db_impl.cc:1110-1155 | The store is a map: over every run without such a compaction, a read at the number that was current after m events gives what the writes among those events made of the key, then and for as long as that number is not older than the oldest in use. |
| Database.HeldSnapshotReads | ios/Pods/leveldb-library/db/snapshot.h:38-80 | A snapshot that is still held reads as the map was when it was taken. |
| Database.WriteKeepsSnapshots | ios/Pods/leveldb-library/db/db_impl.cc:1214-1252 | A write leaves every read at an earlier number as it was, and the latest read is what the batch makes of the one before: the last operation on the key decides. |
| Database.BatchReads | ios/Pods/leveldb-library/db/write_batch.cc:114-136 | Numbering the operations of a batch consecutively makes the last one on a user key the newest. |
| Resurrection.DeletedKeyComesBack | ios/Pods/leveldb-library/db/version_set.cc:1384-1399 | An eleven-step run from the empty store, with 1 MB tables cut by the size rule, in which a key that was deleted and read as absent reads as present after a compaction. |
| Resurrection.SplitPieces | ios/Pods/leveldb-library/db/db_impl.cc:926-990 | In that run the size rule itself puts two entries of one user key into two output files. |
| Engine.DBImpl.Get | ios/Pods/leveldb-library/db/db_impl.cc:1110-1155 | The lookup through memtable, immutable memtable and levels returns the read of the whole store at the number of the given snapshot, and at the last sequence number without one. |
| Engine.ReadWriteRead | ios/Pods/leveldb-library/db/db_impl.cc:1110-1179 | A client that takes a snapshot, reads, writes and reads again gets the same value at the snapshot, and what the batch made of it without one. |
| Engine.DBImpl.Write | ios/Pods/leveldb-library/db/db_impl.cc:1214-1252 | The operations of a batch enter the memtable under the next sequence numbers in order: a write step of the run. |
| Engine.DBImpl.SwitchMemTable | ios/Pods/leveldb-library/db/db_impl.cc:1355-1380 | A full memtable becomes the immutable one: a switch step of the run. |
| Engine.DBImpl.CompactMemTable | ios/Pods/leveldb-library/db/db_impl.cc:544-575 | Flushing the immutable memtable is a flush step of the run, with the size of the table that was built, at a level where it may go and that it leaves only for the stated reasons. |
| Engine.DBImpl.BackgroundCompaction | ios/Pods/leveldb-library/db/db_impl.cc:697-776 | A flush if there is one to do; else nothing, exactly if a range was requested that no file of the level overlaps; else one step of the run on a choice set up from the files asked for, a move exactly under the three conditions for it and otherwise a merge limited by the grandparents of that choice; the compaction pointer becomes the largest key taken. |
| Engine.RequestIsServed | ios/Pods/leveldb-library/db/db_impl.cc:705-738 | In terms of the request alone: at level 0 all files that overlap a requested range are taken, below it the first ones up to the size limit; the first file past the compaction pointer is taken; the file searched in vain is taken; and a file moves down if and only if no range was requested, it is alone in both levels, and its grandparents are within the limit. |
| Engine.CompactionIsWellCut | ios/Pods/leveldb-library/db/version_set.cc:1424-1429 | The output files of background work are cut as the rule for the grandparents of its choice says, and none overlaps more of them than the limit. |
| ManualCompactions.CompactLevel | ios/Pods/leveldb-library/db/db_impl.cc:594-631 | Round after round, each beginning where the one before ended, a manual compaction ends, with no file of the level overlapping the range and every other level but the next as it was. |
| ManualCompactions.CompactRange | ios/Pods/leveldb-library/db/db_impl.cc:577-592 | Compacting a range flushes both memtables and clears every level above the deepest one that overlapped the range, by steps of the run. |
| ManualCompactions.RangeLiesBelow | ios/Pods/leveldb-library/db/db_impl.cc:577-592 | After that every entry of the range that the store holds lies in a file at or below that level. |
| Engine.DBImpl.RunCompaction | ios/Pods/leveldb-library/db/db_impl.cc:741-753 | Merging, cutting and installing is one compaction step of the run, under the split rule of the options. |
| Engine.DBImpl.GetSnapshot | ios/Pods/leveldb-library/db/db_impl.cc:1176-1179 | A snapshot is the last sequence number, kept in the list that compactions respect. |
| Engine.DBImpl.ReleaseSnapshot | ios/Pods/leveldb-library/db/db_impl.cc:1181-1184 | Releasing takes one snapshot out and never lowers the oldest in use. |
| Engine.DBImpl.NewIterator | ios/Pods/leveldb-library/db/db_impl.cc:1072-1097 | The iterator stands over exactly the entries of memtables and levels at that moment, at the number of the given snapshot, and at the last sequence number without one. |
| Builder.VersionBuilder.Apply | ios/Pods/leveldb-library/db/version_set.cc:629-669 | An edit's deletions and additions are gathered per level as the meaning of edits says, an addition undoing an earlier deletion. |
| Builder.VersionBuilder.SaveLevel | ios/Pods/leveldb-library/db/version_set.cc:672-730 | The merge walk lists the base files and the added files in order without the deleted ones. |
| VersionSet.LogAndApply | ios/Pods/leveldb-library/db/version_set.cc:777-860 | One edit installed on a version gives the version the edit describes, level by level. |
| VersionSet.Recover | ios/Pods/leveldb-library/db/version_set.cc:862-987 | Applying a whole history of edits to one builder and saving once gives the version the history describes, if no file number returns to a level it was in. |
| VersionSet.RecoverIsHistory | ios/Pods/leveldb-library/db/version_set.cc:893-965 | Saving once after all edits and saving after each one end in the very same version, for all seven levels. |
| VersionSet.InstallCompactionResults | ios/Pods/leveldb-library/db/db_impl.cc:869-885 | The edit that deletes the inputs and adds the outputs replaces exactly those files. |
| VersionEdits.EditReadsBack | ios/Pods/leveldb-library/db/version_edit.cc:41-203 | Decoding an encoded edit succeeds if and only if its levels are below seven and its internal keys are not empty, and then gives the edit, with its compaction pointers behind those the object already had. |
| VersionEdits.DecodedReadsBack | ios/Pods/leveldb-library/db/version_edit.cc:106-203 | Whatever the bytes are, the edit read from them has levels below seven and keys that are not empty, and its encoding reads back as the same edit. |
| VersionEdits.VersionEdit.EncodeTo | ios/Pods/leveldb-library/db/version_edit.cc:41-84 | The bytes are the records of the present fields in their fixed order, deleted files in set order. |
| VersionEdits.VersionEdit.DecodeFrom | ios/Pods/leveldb-library/db/version_edit.cc:106-203 | Record after record is applied until the bytes end; a bad record, tag or rest fails and leaves what was read before it. |
| VersionEdits.InsertedIsSet | ios/Pods/leveldb-library/db/version_edit.h:83-85 | The deleted files stay an ordered set under insertion. |
| Merger.MergingIterator.Seek | ios/Pods/leveldb-library/table/merger.cc:47-53 | Seeking puts the iterator at the first entry of the sorted union at or after the key. |
| Merger.MergingIterator.Next | ios/Pods/leveldb-library/table/merger.cc:55-79 | From either direction, the next entry of the sorted union of all children. |
| Merger.MergingIterator.Prev | ios/Pods/leveldb-library/table/merger.cc:81-108 | From either direction, the entry before in the sorted union, so it undoes Next. |
| Merger.MergingIterator.FindSmallest | ios/Pods/leveldb-library/table/merger.cc:148-161 | With all children cut at one place of the union, the smallest child holds the entry there. |
| Merger.MergingIterator.FindLargest | ios/Pods/leveldb-library/table/merger.cc:163-175 | Backward, the largest child holds the entry before the cut. |
| Sources.InputListsOk | ios/Pods/leveldb-library/db/version_set.cc:1214-1245 | The children of a compaction's iterator are sorted, share no key, and hold exactly the inputs. |
| Sources.StoreListsOk | ios/Pods/leveldb-library/db/db_impl.cc:1072-1097 | The same for the iterator over both memtables and all levels. |
| DbIter.DBIter.Next | ios/Pods/leveldb-library/db/db_iter.cc:141-207 | The next live position: overwritten, deleted and too-new entries are skipped, also right after moving backward. |
| DbIter.DBIter.Prev | ios/Pods/leveldb-library/db/db_iter.cc:209-276 | The live position before, also right after moving forward, with the key and value held aside. |
| DbIter.DBIter.Seek | ios/Pods/leveldb-library/db/db_iter.cc:278-290 | The first live position at or after the user key. |
| DbIter.LiveIsRead | ios/Pods/leveldb-library/db/db_iter.cc:177-207 | A live position is exactly what a read of its user key at the snapshot returns. |
| DbIter.ReadIsLive | ios/Pods/leveldb-library/db/db_iter.cc:177-207 | Every user key that reads as present has a live position. |
| DbIter.Replay | ios/Pods/leveldb-library/db/db_iter.cc:141-308 | Any sequence of calls, turning around at will, leaves the iterator where a cursor over the live positions is. |
| SkipLists.SkipList.Insert | ios/Pods/leveldb-library/db/skiplist.h:336-368 | For any height, the levels up to it gain the entry at its place in order and the others stay, with links, order and heights intact. |
| SkipLists.SkipList.FindGreaterOrEqual | ios/Pods/leveldb-library/db/skiplist.h:260-281 | The search down the levels ends at the first entry not before the key, as a scan of the bottom list would, with the node before that place on every level. |
| SkipLists.SkipList.FindLessThan | ios/Pods/leveldb-library/db/skiplist.h:283-302 | The last node before the key, or the head. |
| SkipLists.SkipList.FindLast | ios/Pods/leveldb-library/db/skiplist.h:304-322 | The last node of the bottom list, or the head. |
| SkipLists.SkipList.Contains | ios/Pods/leveldb-library/db/skiplist.h:370-378 | True if and only if an entry with the key is in the list. |
| SkipLists.SkipList.LevelsNest | ios/Pods/leveldb-library/db/skiplist.h:336-368 | Every level is sorted and a sublist of the level below. |
| SkipLists.Iterator.Prev | ios/Pods/leveldb-library/db/skiplist.h:212-221 | Searching again for the node before gives the position before. |
| SkipLists.MemTable.Get | ios/Pods/leveldb-library/db/memtable.cc:101-135 | The newest entry of the user key at the snapshot, and a miss only if there is none. |
| SkipLists.MemTable.Add | ios/Pods/leveldb-library/db/memtable.cc:76-99 | Exactly the new entry is added, in order. |
| WriteBatches.ParsedBack | ios/Pods/leveldb-library/db/write_batch.cc:42-80 | The records of any list of operations parse as exactly that list, to the end. |
| WriteBatches.FirstOpExact | ios/Pods/leveldb-library/db/write_batch.cc:52-75 | On any bytes, an operation is handed over if and only if its record is there: a known tag and one or two length-prefixed slices. |
| WriteBatches.WriteBatch.Append | ios/Pods/leveldb-library/db/write_batch.cc:144-148 | The operations of another batch, or of the same one, follow the present ones, with the sum as count and the sequence kept. |
| WriteBatches.WriteBatch.Iterate | ios/Pods/leveldb-library/db/write_batch.cc:42-80 | A valid batch replays its operations with a matching count; any other bytes hand over the operations before the first bad record and say which error it is. |
| WriteBatches.WriteBatch.InsertInto | ios/Pods/leveldb-library/db/write_batch.cc:114-136 | The operations enter the memtable under consecutive numbers from the batch's sequence on. |
| WriteQueue.RunKeepsInv | ios/Pods/leveldb-library/db/db_impl.cc:1195-1268 | Over every run of the queue each request is completed once, in order of arrival; written ones hold consecutive numbers, LastSequence is their sum, the memtable got each request's operations under its own numbers, and no sync request was led by one that is not. |
| WriteQueue.RangesAreDisjoint | ios/Pods/leveldb-library/db/db_impl.cc:1217-1219 | Of two written requests, the earlier holds only smaller sequence numbers. |
| WriteQueue.BuildBatchGroup | ios/Pods/leveldb-library/db/db_impl.cc:1270-1316 | The group is exactly the longest one that the sync and size rules allow, and the batch holds its operations in queue order, in the caller's batch only when it stays alone. |
| WriteQueue.GroupIsLargest | ios/Pods/leveldb-library/db/db_impl.cc:1279-1312 | A group stays within its size limit unless only its leader has a batch, takes no sync request behind a leader that is not, and the next request could not have joined: it asks for sync, or its batch would exceed the limit. |
| WriteQueue.DBWriters.Lead | ios/Pods/leveldb-library/db/db_impl.cc:1213-1219 | The front writer's group, its operations and its first number are those of the run's step, and no queued batch changes its operations. |
| WriteQueue.DBWriters.Finish | ios/Pods/leveldb-library/db/db_impl.cc:1248-1266 | LastSequence grows by the group's count, its followers are completed with its status, and the others stay queued untouched. |
| WriteQueue.SwitchIsAbsorbed | ios/Pods/leveldb-library/db/db_impl.cc:1289-1313 | A request without a batch that waits right behind a write joins its group if and only if it does not alone ask for sync. |
| LogFormat.Writer.AddRecord | ios/Pods/leveldb-library/db/log_writer.cc:34-108 | The file grows by exactly the record's fragments and padding, for any length and any position in a block. |
| LogFormat.FragmentsFillBlocks | ios/Pods/leveldb-library/db/log_writer.cc:42-80 | Only the last fragment of a record leaves room in its block, and padding is shorter than a header. |
| LogReader.Reader.ReadRecord | ios/Pods/leveldb-library/db/log_reader.cc:56-176 | On any bytes, the record, the new position and the number of reports are those of the reassembly rule, of which `RecordIsChecked` says that it returns checked fragments only. |
| LogReader.Reader.ReadPhysicalRecord | ios/Pods/leveldb-library/db/log_reader.cc:189-271 | On any bytes, the fragment, end or bad record at the position, across block ends and a short last block; a fragment lies where the next header goes and has the checksum of its type and payload. |
| LogReader.RecordIsChecked | ios/Pods/leveldb-library/db/log_reader.cc:75-171 | On any bytes, every record returned is the payload of one checked fragment of type full, or of a checked first one, middle ones and a last one directly behind each other. |
| LogReader.FragmentIsChecked | ios/Pods/leveldb-library/db/log_reader.cc:217-269 | On any bytes, a fragment that is read lies within one block, has the length and type of its header, and, with checksums on, the checksum of its type and payload. |
| LogReader.CheckedIsRead | ios/Pods/leveldb-library/db/log_reader.cc:217-269 | Conversely what passes these checks is read, but for an empty zero record and the two types that stand for something else. |
| LogReader.DamageIsReported | ios/Pods/leveldb-library/db/log_reader.cc:244-256 | A fragment whose checksum does not match gives no record: the rest of its block is dropped, with one report. |
| LogReader.TypeEndsLog | ios/Pods/leveldb-library/db/log_reader.h:64-73 | A checked fragment of type 5 ends the log without a report, whatever follows it. |
| LogRoundTrip.CrashKeepsWholeRecords | ios/Pods/leveldb-library/db/log_reader.cc:56-271 | Reading a file of records cut at any byte gives exactly the records wholly inside it and reports no corruption. |
| LogRoundTrip.LogReadsBack | ios/Pods/leveldb-library/db/log_writer.cc:34-80 | Reading the whole file gives all records in order, for any lengths, including empty ones. |
| LogRoundTrip.ReopenedWriter | ios/Pods/leveldb-library/db/log_writer.cc:26-30 | A writer reopened at the end of a file continues as if it had written all of it. |
| LogRoundTrip.CrashAndRecover | ios/Pods/leveldb-library/db/db_impl.cc:380-465 | Several writers in turn, a cut at any byte, and a reader from the start: the records wholly inside the cut, and no report. |
| LogFormat.UnmaskMask | ios/Pods/leveldb-library/util/crc32c.h:29-39 | Unmasking undoes masking for every 32-bit checksum. |
| Comparators.BytewiseIsOk | ios/Pods/leveldb-library/util/comparator.cc:27-66 | The bytewise comparator is a strict total order, and its separators and successors lie where an index needs them. |
| Comparators.InternalIsOk | ios/Pods/leveldb-library/db/dbformat.cc:47-97 | The same for internal keys over any good user comparator, after the user part was shortened and the tag replaced. |
| Comparators.FindShortestSeparator | ios/Pods/leveldb-library/util/comparator.cc:31-52 | The loop shortens the start exactly as the separator function says. |
| Comparators.SeparatorLiesBetween | ios/Pods/leveldb-library/util/comparator.cc:31-52 | A separator is not longer than the start, not before it, and before the limit. |
| Comparators.RankKeepsOrder | ios/Pods/leveldb-library/util/comparator.cc:27-29 | Byte strings embed into the numbers by which the upper layers order user keys. |
| Comparators.DecodedKeepsOrder | ios/Pods/leveldb-library/db/dbformat.cc:47-63 | Packed internal keys compare as the entries' keys do, so the byte layers and the upper layers agree. |
| Blocks.BlockBuilder.Add | ios/Pods/leveldb-library/table/block_builder.cc:71-105 | The pair is appended with the longest prefix it shares with the last key, or in full at a restart point, which comes at every so many entries as the interval says. |
| Blocks.BlockBuilder.Finish | ios/Pods/leveldb-library/table/block_builder.cc:61-69 | The bytes are a block of exactly the added pairs, compressed in that way, for any restart interval of at least one. |
| BlockIter.Iter.Seek | ios/Pods/leveldb-library/table/block.cc:164-202 | Binary search over the restart points and a scan land on the first key not before the target. |
| BlockIter.Iter.Prev | ios/Pods/leveldb-library/table/block.cc:143-162 | Going back to a restart point and forward again gives the pair before, so it undoes Next. |
| BlockIter.Iter.Next | ios/Pods/leveldb-library/table/block.cc:138-141 | The next pair, its key rebuilt from the shared prefix. |
| BlockIter.ReadForward | ios/Pods/leveldb-library/table/block.cc:204-252 | Iterating a finished block yields exactly the added pairs. |
| BlockIter.ReadBackward | ios/Pods/leveldb-library/table/block.cc:143-215 | So does iterating it backward. |
| TableBuilding.TableBuilder.Add | ios/Pods/leveldb-library/table/table_builder.cc:94-123 | A pair with a larger key is added; the index entry of the block before, delayed until now, separates the blocks; the data block is written as soon as its size reaches the block size, and not before. |
| TableBuilding.TableBuilder.Flush | ios/Pods/leveldb-library/table/table_builder.cc:125-139 | The open block is written and its index entry becomes due. |
| TableBuilding.TableBuilder.Finish | ios/Pods/leveldb-library/table/table_builder.cc:198-253 | For every increasing sequence of adds, block size and restart interval, the file is a table of exactly those pairs: each index key is not before the keys of its block and before those of the next. |
| Tables.Table.InternalGet | ios/Pods/leveldb-library/table/table.cc:214-242 | Looking into the one block the index names finds the first key not before the target, or the target falls into the gap behind that block. |
| Tables.GapHidesNothing | ios/Pods/leveldb-library/db/dbformat.cc:65-97 | A target in such a gap has another user key than the first key of the next block. |
| Tables.PointGet | ios/Pods/leveldb-library/table/table.cc:214-242 | What a point get returns is the first pair of the whole table not before the target, and it returns that pair whenever it has the target's user key: looking in one block suffices. |
| Tables.TwoLevelIterator.Seek | ios/Pods/leveldb-library/table/two_level_iterator.cc:82-87 | The first pair of the whole table not before the target. |
| Tables.TwoLevelIterator.Next | ios/Pods/leveldb-library/table/two_level_iterator.cc:103-126 | The next pair of the whole table, across block ends and empty blocks. |
| Tables.TwoLevelIterator.Prev | ios/Pods/leveldb-library/table/two_level_iterator.cc:109-139 | The pair before, across block ends and empty blocks. |
| Tables.ReadTable | ios/Pods/leveldb-library/table/two_level_iterator.cc:89-126 | Reading a built table from its first pair on gives back exactly what was added. |
| Filters.BloomFilterPolicy.BloomNeverMisses | ios/Pods/leveldb-library/util/bloom.cc:28-80 | For any hash function and any bits per key, every key put into a Bloom filter may match. |
| Filters.BloomFilterPolicy.MatchesExactly | ios/Pods/leveldb-library/util/bloom.cc:28-80 | A filter says no exactly for the keys with a probe that is none of any key put in, the j-th probe of a hash being at (hash + j * delta) modulo 2^32 modulo the number of bits. |
| Filters.HasProbesIs | ios/Pods/leveldb-library/util/bloom.cc:56-76 | On any filter bytes, reading asks for the bit of every probe. |
| Filters.BloomFilterPolicy.CreateFilter | ios/Pods/leveldb-library/util/bloom.cc:28-54 | The loops set exactly the probe bits of all keys in an array of the size the number of keys asks for. |
| Filters.BlockSays | ios/Pods/leveldb-library/table/filter_block.cc:90-104 | A finished filter block says of any offset and key exactly what the policy says of that slot's keys, and yes behind the last slot. |
| Filters.FilterBlockBuilder.Finish | ios/Pods/leveldb-library/table/filter_block.cc:21-75 | Every key added after its block was started may match, across empty slots and blocks that share one. |
| Filters.FilterBlockReader.KeyMayMatch | ios/Pods/leveldb-library/table/filter_block.cc:77-104 | On any bytes, the answer of the reading rule, where errors count as matches. |
| HandleTables.HandleTable.Insert | ios/Pods/leveldb-library/util/cache.cc:79-93 | The table is the map with one key set, and the slot it held before is returned. |
| HandleTables.HandleTable.Remove | ios/Pods/leveldb-library/util/cache.cc:95-103 | The table is the map without the key. |
| HandleTables.HandleTable.Resize | ios/Pods/leveldb-library/util/cache.cc:123-147 | Moving every handle to the front of its new chain keeps the map, with a bucket for each entry. |
| Rings.UnlinkKeepsRing | ios/Pods/leveldb-library/util/cache.cc:240-243 | Relinking the two neighbours takes one handle out of a circular list and keeps the order of the others. |
| Rings.AppendKeepsRing | ios/Pods/leveldb-library/util/cache.cc:245-251 | Linking in before the head makes a handle the newest of the list. |
| Caches.LRUCache.Insert | ios/Pods/leveldb-library/util/cache.cc:267-304 | The new handle takes its key's place; the one before is erased and deleted unless a client holds it; then idle entries go, oldest first and only while the usage is above the capacity, until it fits or none is left. |
| Caches.LRUCache.Lookup | ios/Pods/leveldb-library/util/cache.cc:253-260 | A hit gives the client one more reference and moves an idle entry to the ones in use. |
| Caches.LRUCache.Release | ios/Pods/leveldb-library/util/cache.cc:262-265 | The last client reference makes a cached entry the newest idle one, and passes an erased one to its deleter. |
| Caches.LRUCache.Erase | ios/Pods/leveldb-library/util/cache.cc:319-322 | The key leaves the table and its charge the usage; its handle is deleted at once only if no client holds it. |
| Caches.LRUCache.Prune | ios/Pods/leveldb-library/util/cache.cc:324-334 | All idle entries are deleted, oldest first, and nothing else changes. |
| Caches.HandleFate | ios/Pods/leveldb-library/util/cache.cc:218-238 | In every reachable state a handle was deleted exactly once or is needed by a client or the table; a cached one is on exactly one list. |
| ProtoMerge.DecodingMerges | ios/Pods/nanopb/pb_decode.c:934-1096 | Decoding an encoded message on top of any structure gives the merge of both: values that were written replace those before, messages are merged, arrays are appended to, a union keeps the member set last; it is refused if and only if a string fills its buffer or an array has no room. |
| ProtoMerge.ConcatenationMerges | ios/Pods/nanopb/pb_decode.c:934-1096 | Two encodings one behind the other are read as the second message merged into the first. |
| ProtoMerge.EachRead | ios/Pods/nanopb/pb_decode.c:409-520 | Array items that have a tag each are read one by one behind those that are there, also of types that would be written packed. |
| ProtoMerge.ZeroEndsMessage | ios/Pods/nanopb/pb_decode.c:296-319 | A zero byte behind a message ends it, whatever follows. |
| ProtoRoundTrip.MessageRoundTrip | ios/Pods/nanopb/pb_decode.c:934-1096 | Decoding an encoded message succeeds if and only if no string that is written fills its buffer, and then gives the same message up to the payloads of fields that are off, with packed arrays, unions and nesting. |
| ProtoUnknown.UnknownFieldsAreSkipped | ios/Pods/nanopb/pb_decode.c:934-1096 | A message written with more fields than the reader knows, at any places and of any types, is read as the message of the fields it knows: merged into what is there, and refused exactly when that message would be. |
| ProtoUnknown.FieldSkipped | ios/Pods/nanopb/pb_decode.c:979-996 | Behind whatever was written for a field the reader does not know, reading goes on as if it were not there. |
| ProtoUnknown.ValueSkipped | ios/Pods/nanopb/pb_decode.c:277-331 | Every encoded value is skipped by its wire type alone, to its last byte. |
| ProtoSoundness.DecodedComesBack | ios/Pods/nanopb/pb_decode.c:934-1096 | What is decoded from any bytes fits the descriptor, with strings that leave room for their terminator and at most one member of a union set, can be encoded, and comes back from that encoding. |
| ProtoSoundness.MessageIsSound | ios/Pods/nanopb/pb_decode.c:400-560 | Decoding any bytes into a structure that fits its descriptor leaves one that does. |
| ProtoSoundness.RequiredFieldsAreThere | ios/Pods/nanopb/pb_decode.c:1016-1079 | Decoding succeeds if and only if all records can be read and each of the first 64 required fields has one. |
| ProtoStreams.Encode | ios/Pods/nanopb/pb_encode.c:528-550 | Encoding succeeds exactly when the message is encodable and there is room, and then precisely its bytes go out, or are counted. |
| ProtoStreams.EncodeSubmessage | ios/Pods/nanopb/pb_encode.c:717-765 | The counting pass and the writing pass agree on the size, so a submessage never fails for a size that changed. |
| ProtoStreams.GetEncodedSize | ios/Pods/nanopb/pb_encode.c:567-575 | The size reported is the length of what would be written. |
| ProtoStreams.EncodePacked | ios/Pods/nanopb/pb_encode.c:147-190 | A packed array is its tag, its total size and its items; the size computed beforehand is theirs. |
| ProtoStreams.DecodeNoInit | ios/Pods/nanopb/pb_decode.c:934-1082 | On any bytes and any present content, the result of the reading rule: known fields merged in, unknown ones skipped, required ones checked; `ProtoMerge`, `ProtoUnknown` and `ProtoSoundness` say what that rule gives. |
| ProtoStreams.IStream.DecodeVarint32 | ios/Pods/nanopb/pb_decode.c:187-247 | On any bytes, the 32-bit varint with its overflow and sign-extension rules. |
| ProtoScalars.Varint32Back | ios/Pods/nanopb/pb_decode.c:187-247 | Every 32-bit number is read back from its varint, whatever follows. |
| ProtoScalars.Varint32Exact | ios/Pods/nanopb/pb_decode.c:187-247 | On any bytes, what is read into 32 bits is the low half of the varint that is there, accepted if and only if it fits its five bytes, or the bytes behind the fifth hold no bits or those of a negative number. |
| ProtoScalars.HighBitsAreLost | ios/Pods/nanopb/pb_decode.c:221-243 | A varint of 35 bits is refused, but read as its low 32 if a byte without bits stands behind it. |
| ProtoScalars.Varint64Exact | ios/Pods/nanopb/pb_decode.c:255-274 | On any bytes, ten bytes at most are read into 64 bits, and higher bits are cut off. |
| ProtoScalars.ScalarBack | ios/Pods/nanopb/pb_decode.c:1334-1570 | Every value that is not a message is read back, in all integer widths and signs, except a string that fills its buffer. |
| ProtoRoundTrip.ZeroIsSame | ios/Pods/nanopb/pb_encode.c:240-338 | A singular value that the zero check leaves out is what a fresh message holds anyway. |
| Coding.DecodeVarint | ios/Pods/leveldb-library/util/coding.cc:86-145 | The shifting loop gives the varint cut to its word, or none, on any bytes. |
| Coding.UnvarintExact | ios/Pods/leveldb-library/util/coding.cc:86-145 | On any bytes, the varint read is the one that is there, each byte but the last with its high bit set, and none is read exactly if none ends within the room. |
| Coding.UnprefixedExact | ios/Pods/leveldb-library/util/coding.cc:155-164 | On any bytes, a slice is read if and only if a length of at most five bytes and that many bytes are there. |
| Coding.UnprefixedPrefixed | ios/Pods/leveldb-library/util/coding.cc:72-164 | A length-prefixed slice is read back with what follows it. |
| Coding.FixedUnfixed | ios/Pods/leveldb-library/util/coding.cc:9-19 | Fixed-width words and byte strings correspond one to one. |

## Findings

- **A deleted key can come back.** `SetupOtherInputs` adds boundary files to the inputs of the compacted level
  (`ios/Pods/leveldb-library/db/version_set.cc:1384` and `:1399`) but not to those of the level below
  (lines 1387 and 1409 of the same file). When a user key was split over two files of the level below, a compaction can
  take the first and leave the second. If the newest entry of that key is a deletion that rule (B) of
  `ios/Pods/leveldb-library/db/db_impl.cc:959-969` drops, the older value in the file left behind becomes visible.
  `CompactionMeaning.Uncovers` is the exact condition: the compaction has inputs in the lower level, a file of
  that level that is not an input starts at the user key of the last of them and starts with a value, and the
  newest entry of that key visible at the oldest snapshot is an input that rule (B) drops.
  `CompactionMeaning.CompactionKeepsReads` proves that reads are unchanged if and only if it fails;
  `Resurrection.DeletedKeyComesBack` is a run of eleven steps that meets it. The run theorems of `Database` therefore
  speak of runs whose compactions do not uncover anything (`AllHarmless`); `RunKeepsState` needs no such condition.
- **The maximum sequence number.** Rule (A) compares with the number remembered for the user key, which starts at the
  maximum (`ios/Pods/leveldb-library/db/db_impl.cc:953` and `:956`). If the oldest snapshot is the maximum sequence
  number itself, every input entry is dropped (`CompactionMeaning.CompactionAtMaximum`). Below it, `CompactionKeepsReads` holds.
- **A request for a new memtable may be absorbed.** A write without a batch only forces a memtable switch, and only if
  it reaches the front of the queue. Behind another write it is served by that one without a switch and reports
  success (`WriteQueue.SwitchIsAbsorbed`; `ios/Pods/leveldb-library/db/db_impl.cc:1297-1313`).
- **Decoding an edit adds compaction pointers.** `VersionEdit::Clear` leaves them, so decoding into an object that has
  some keeps those in front (`VersionEdits.EditReadsBack`; `ios/Pods/leveldb-library/db/version_edit.cc:26-39`).
- **A record type can end the log.** `ReadPhysicalRecord` returns the type byte of a fragment, and 5 and 6 for the end
  of the file and for a bad record (`ios/Pods/leveldb-library/db/log_reader.h:64-73`), so a fragment of type 5 with a
  right checksum ends the reading silently, and one of type 6 counts as bad without a report
  (`LogReader.TypeEndsLog`, `LogReader.CheckedIsRead`). No writer of this version writes them.
- **The overlap is counted on over a file closed for its size.** Only a stop for overlap resets the count
  (`ios/Pods/leveldb-library/db/version_set.cc:1545-1548`), so an output file may end before the next key overlaps too
  much itself (`OutputCuts.SizeCutKeepsCounting`). `Compactions.PiecesAreWellCut` states exactly where files end.
- **High bits of a 32-bit varint can be lost.** The three bits that a fifth byte has above the 32 are looked at only if
  it is the last (`ios/Pods/nanopb/pb_decode.c:238`). With a byte behind it that holds no bits, a number of 35 bits is
  read as its low 32 (`ProtoScalars.HighBitsAreLost`); `ProtoScalars.Varint32Exact` says exactly what is accepted.
- **A full string does not come back.** nanopb encodes a string that fills its buffer without a terminator, and refuses
  to decode it into the same buffer (`ProtoRoundTrip.MessageRoundTrip`; `ios/Pods/nanopb/pb_encode.c:873-897`,
  `ios/Pods/nanopb/pb_decode.c:1487-1523`).

## Left out

- Concurrency: each section under the mutex is one step; one compaction is atomic, without the flush of an immutable
  memtable inside its loop (`ios/Pods/leveldb-library/db/db_impl.cc:918-928`). The write queue lets requests arrive
  while a group is written.
- Failures of the file system, `bg_error_`, paranoid checks, corrupted internal keys, repair and dumping.
- When work happens: compaction scores, seek counters, read sampling, slowdowns and waits in `MakeRoomForWrite`.
- User keys are byte strings in the byte layers and numbers in the upper layers: `Comparators.RankKeepsOrder` and
  `Comparators.DecodedKeepsOrder` connect the two for the bytewise order.
- Sizes of table files and of open builders are functions given as options, fixed in `Resurrection` to what the
  formats give; the theorems hold for all of them.
- Log: `initial_offset` above zero, which no caller in the repository uses, and the checksum polynomial, which is any
  function of the bytes.
- Tables: compression, the footer, the metaindex block and the filter's place in the file, the block cache behind
  `BlockReader`, and blocks whose bytes are damaged.
- Integer limits that the formats do not show: reference counts, charges and sizes are unbounded, and file offsets are
  below 2^64 by precondition.
- `class DBImpl` keeps its memtables as sorted lists; `SkipLists` shows that a skip list is such a list. The encoded
  form of a memtable entry is not modelled, and neither are the memory order of links and reading during an insertion.
- Cache: the sixteen shards, the destructor, and handles moved by `malloc` to an address used before.
- VersionSet: log numbers, the compaction pointers in edits and the manifest file itself; its records are in
  `VersionEdits`. `DBImpl` keeps the compaction pointers of a store that was opened empty.
- ManualCompactions.CompactRange: no writes or other background work in between.
- nanopb: callbacks, extensions, pointer allocation, fixed-count arrays, default values given in descriptors, streams
  read through callbacks, and builds without 64-bit integers. Encodings are below 4 GB.
- ProtoTypes.More32: a varint of more than 36 bytes, where the bit counter of the original may wrap, is read with an
  unbounded counter.
- ProtoTypes.FieldAt: the search for a field starts at the first one, not at the last one found, and a record with
  field number zero in a message without fields counts as unknown.
- WriteBatches.WriteBatch.Append: counts above 2^31 - 1 are excluded, as the count is a signed 32-bit number.
- Everything outside the two libraries: the app's own code calls remote services and shows views.
