# LevelDB storage engine: model and proofs

This project models the storage engine in `leveldb/` and proves what its parts promise to one another and to the
caller, from the bytes of a log record to what a read of the whole database answers. `dafny verify dfyconfig.toml`
checks everything.

How the modules fit together:

- **The database as a transition system.** `Lsm` is the state (memtables, seven levels of tables, logs, manifest,
  snapshots, the group in flight, and the plain history as specification) and its steps; `LsmSafety`, `LsmRuns`,
  `LsmNumbers`, `LsmManifest`, `LsmReopen` and `LsmReads` prove what every step and every run keeps, crashes
  included; `LsmDrop` says exactly what a compaction drops. `LsmStale` and `LsmSplitKey` say exactly when a move or a
  compaction makes a read wrong.
- **The engine's own form.** `VersionSet`, `VersionGet`, `Builder`, `Database` and `Recovery` are the loops and
  objects of the source; every method of `Database.DBImpl` is proved to be one step of `Lsm`.
- **Iterators.** `DbIter`, `Merger`, `TwoLevel` and, for all of them over a reached state, `Scan`.
- **Concurrency.** `SkipList` (one inserter, any number of readers, one load or store per step), `GroupCommit` and
  `GroupLog` (the writers' queue), `Files` (version references, pending outputs, deletion) and `LogFiles` (deletion of
  logs and recovery). `Runs` is induction over a run.
- **Storage formats.** `Coding`, `Crc32c`, `Log`, `TornLog`, `WriteBatch`, `VersionEdit`, `Block`, `Comparator`,
  `Bloom`, `FilterBlock`, `Table`, `TableBytes`. `Formats` fixes the bytes that round trips leave open, and
  `CrcVectors`, with `MachineWords`, the checksum.
- **Cache.** `HandleTable`, `Cache` and, for the order of use over runs, `CacheRuns`.

User keys are bytes in the format modules. The modules that use nothing but their order represent a user key by a real
number; `Keys.PositionOrdersBytes` gives the embedding for the bytewise comparator and `Comparator.RankOrdersKeys` the
one for encoded internal keys. Sizes that only steer heuristics (when a memtable is full, when an output is cut, how
much may overlap) are parameters over which every theorem quantifies.

## Findings

- **A point read can go back in time.** An output of a compaction may end between two versions of one user key
  (`leveldb/db/db_impl.cc:997-1003`), and neither `SetupOtherInputs` nor the trivial move takes the neighbouring file
  along. `LsmSplitKey.SplitKeyRun` is a run of the engine's own steps, under a snapshot taken between the two writes,
  after which a read at the last sequence number answers the older value; the values are arbitrary, so the first entry
  can be as long as the output size limit (`leveldb/db/version_set.cc:23`) asks for. `LsmStale.MoveReadIff`,
  `LsmStale.CompactReadIff` and `LsmStale.CompactAnswerIff` say for every state, key and sequence number that counts
  exactly when this happens; `LsmReads.MoveKeepsAgeIff` and `LsmReads.CleanIffNewer` say which file boundaries allow
  it, and `LsmReads.UnwatchedRunReadsHistory` that it needs a snapshot.
- **`VersionEdit::Clear` does not empty the compaction pointers** (`leveldb/db/version_edit.cc:26-39`), so decoding
  into a used edit keeps the old ones in front; `VersionEdit.RoundTrip` states both cases.
- **A flushed table is unprotected until it is installed** (`leveldb/db/db_impl.cc:510`): only the single background
  worker keeps it from being deleted as obsolete. `Files.DeletionMustWait` shows the state, `Files.DeletionIsSafeIff`
  is the exact condition, and `Files.DeleteKeepsInv` where the single worker is used.

## Model

| member | source | states |
|---|---|---|
| `LsmRuns.RunReadsHistory` | leveldb/db/db_impl.cc:886-1045 | In every run of writes, memtable switches, flushes, trivial moves, compactions, snapshots and crashes whose moves and compactions have complete inputs, memtables and tables together show at every live snapshot, and at the last sequence number, exactly what the plain sequence of acknowledged operations shows. |
| `LsmRuns.RunKeepsInv` | leveldb/db/version_set.cc:811-894 | Every state of such a run has its levels in order of age, disjoint files below level 0, memtables that are the tail of the history, and logs that spell out exactly that tail. |
| `LsmRuns.CrashKeepsInv` | leveldb/db/db_impl.cc:273-362 | After a crash at any point and recovery, no acknowledged operation is lost or reordered; the group in flight is there whole or not at all; the recovered last sequence number is at least every stored one. |
| `LsmRuns.ReplayIsTail` | leveldb/db/db_impl.cc:316-355 | The logs from the manifest's log number on, replayed in order of their numbers, are the history from the immutable memtable's start on, as the crash left it. |
| `LsmReads.GetReadsHistory` | leveldb/db/db_impl.cc:1108-1153 | In every such run a point read (memtable, immutable memtable, level 0 newest file first, deeper levels) answers what the plain history answers, whether it stops at an entry or finds nothing. |
| `LsmReads.StopIsNewest` | leveldb/db/version_set.cc:323-420 | Stopping at the first level that has a visible entry never misses a newer one further down. |
| `LsmReads.UnwatchedRunReadsHistory` | leveldb/db/db_impl.cc:899-903 | If no snapshot older than the last sequence number is held while a compaction runs, reads are right in every run, found or not, with no hypothesis on the inputs. |
| `LsmReads.MoveKeepsAgeIff` | leveldb/db/db_impl.cc:716-726 | A trivial move from below level 0 keeps the levels in order of age if and only if the moved file's last user key is not also the first one of the next file. |
| `LsmReads.CleanIffNewer` | leveldb/db/version_set.cc:1335-1400 | That no input ends in the user key with which a file left behind begins is equivalent to all of the inputs' keys being older there. |
| `LsmStale.MoveReadIff` | leveldb/db/db_impl.cc:716-726 | After a trivial move a point read still finds the newest entry if and only if that entry did not move or no visible entry of its user key stayed behind on its level. |
| `LsmStale.CompactReadIff` | leveldb/db/db_impl.cc:886-1045 | After a compaction a point read at a sequence number that still counts is right if and only if it is not stale: the newest entry is not an input, or nothing visible of its user key stayed behind on the inputs' level, nor, if it is a deletion that rule (B) drops, on the next level. |
| `LsmStale.CompactAnswerIff` | leveldb/db/db_impl.cc:886-1045 | The value that the read answers is the right one if and only if the read is not stale or the entry that it stops at instead answers the same. |
| `LsmStale.CompactShowsNothingNew` | leveldb/db/db_impl.cc:954-968 | A key that had nothing visible has nothing visible after a compaction. |
| `LsmStale.CompleteIsNeverStale` | leveldb/db/version_set.cc:1335-1400 | With complete inputs no read is ever stale. |
| `LsmDrop.CompactKeepsExactly` | leveldb/db/db_impl.cc:944-970 | An input entry is written out if and only if no newer input of its user key is at or before the oldest live sequence number, and it is not a deletion at or before that number with no file two or more levels down whose range holds its user key. |
| `LsmDrop.ObsoleteDeletionGoes` | leveldb/db/version_set.cc:1472-1491 | A deletion that every live reader sees, with no file two or more levels down whose range holds its user key, is not written out. |
| `LsmDrop.OneOldVersionStays` | leveldb/db/db_impl.cc:954-957 | Of the versions of a user key at or before the oldest live sequence number a compaction leaves at most one. |
| `LsmDrop.BottomHoldsValues` | leveldb/db/db_impl.cc:958-968 | With nothing two or more levels down and no older snapshot, a compaction leaves values only. |
| `LsmDrop.HorizonIsOldest` | leveldb/db/db_impl.cc:899-903 | The number that decides what may be dropped is the oldest live sequence number. |
| `LsmSplitKey.SplitKeyRun` | leveldb/db/db_impl.cc:997-1003 | For any two distinct values there is a run, without crashes or errors, at whose end a point read at the last sequence number answers the older one: a compaction splits a user key between two files and a trivial move takes only the newer part down. |
| `LsmSafety.DropKeepsView` | leveldb/db/db_impl.cc:954-968 | Dropping exactly the entries that the two rules drop changes nothing for any reader from the oldest snapshot on, whatever is above and below the inputs. |
| `LsmSafety.CompactKeepsInv` | leveldb/db/db_impl.cc:886-1045 | A compaction of complete inputs keeps the whole invariant, in particular every live reader's view. |
| `LsmSafety.FlushKeepsInv` | leveldb/db/db_impl.cc:533-564 | Flushing the immutable memtable to level 0, or past levels that it does not meet, keeps the invariant, and letting its log go loses nothing. |
| `LsmSafety.SwitchKeepsInv` | leveldb/db/db_impl.cc:1353-1374 | Starting a new memtable and a new log keeps the invariant. |
| `LsmSafety.WritesKeepInv` | leveldb/db/db_impl.cc:1213-1244 | Logging, inserting and publishing a group each keep the invariant: nothing of the group can be read before the last sequence number moves. |
| `LsmNumbers.StepKeepsNumbers` | leveldb/db/version_set.h:191-191 | After every step, crashes included, a file number names one table on one level. |
| `LsmManifest.NumbersNameTables` | leveldb/db/version_set.h:191-191 | In every run, with no hypothesis on the inputs, all tables ever installed have their own numbers, and these are below the manifest's next file number. |
| `LsmManifest.EditsGiveLevels` | leveldb/db/version_set.cc:811-894 | From any moment of a run on, installing the edits of its steps one at a time gives every level of every later moment. |
| `LsmManifest.ManifestGivesLevels` | leveldb/db/version_set.cc:896-1016 | In every run, a manifest that lists the levels of one moment and records the edits up to another is read back as the levels of that other moment. |
| `LsmReopen.InterruptedIsOneCrash` | leveldb/db/db_impl.cc:1489-1531 | A crash, any number of recoveries that are cut short before their manifest counts, and one that is not, are together one Crash step: the invariant holds again and nothing acknowledged is lost. |
| `Database.DBImpl.Write` | leveldb/db/db_impl.cc:1193-1264 | A write appends its operations to the history under the next sequence numbers and keeps the database valid. |
| `Database.DBImpl.SwitchMemTable` | leveldb/db/db_impl.cc:1353-1374 | The switching branch is one Switch step and keeps the database valid. |
| `Database.DBImpl.Get` | leveldb/db/db_impl.cc:1108-1153 | A read at a live sequence number returns what the plain history says, in any valid state. |
| `Database.DBImpl.CompactMemTable` | leveldb/db/db_impl.cc:533-564 | A flush is one Flush step of the transition system, with all of the immutable memtable's entries in a table under the next number, on the deepest level allowed; the database stays valid. |
| `Database.WriteLevel0Table` | leveldb/db/db_impl.cc:487-531 | The new table is put in its place on the deepest level that may take it, and nothing else changes. |
| `Database.PickCompaction` | leveldb/db/version_set.cc:1281-1333 | Below level 0 the picked file alone; on level 0 exactly the files that meet the least range around it that no file sticks out of. |
| `Database.CompactRange` | leveldb/db/version_set.cc:1402-1435 | Nothing is picked if and only if no file of the level meets the range; on level 0 exactly the files of the least range that no file sticks out of; below, the files that meet the range, in order, cut after the first one with which their size reaches the limit. |
| `Database.DBImpl.CompactInputs` | leveldb/db/db_impl.cc:735-742 | From seeded inputs to the installed version: one Compact step of the transition system, of exactly the files that the seed leads to, after which the database is valid if the inputs were complete. |
| `Database.DBImpl.MoveInput` | leveldb/db/db_impl.cc:716-726 | A trivial move is the Move step of exactly this file, after which the database is valid if the input was complete. |
| `Database.DBImpl.GetSnapshot` | leveldb/db/db_impl.cc:1174-1177 | A snapshot is the last sequence number and stays live until it is released. |
| `Database.DBImpl.ReleaseSnapshot` | leveldb/db/db_impl.cc:1179-1182 | Releasing a snapshot keeps the others and the database valid. |
| `Database.MergeLevels` | leveldb/db/db_impl.cc:886-1045 | The levels after a compaction hold exactly the outputs in place of the inputs; the outputs have new and distinct numbers, and a deletion that everybody sees is in them only above a file whose range holds its user key. |
| `Recovery.RecoverLogFile` | leveldb/db/db_impl.cc:364-485 | The tables written hold exactly the log's records, in order, under increasing numbers, one table for each stretch after which the memtable is full and one for a rest. |
| `Recovery.RecoverLogs` | leveldb/db/db_impl.cc:343-355 | Over all live logs, the tables written hold exactly their records, in order; afterwards the next file number is beyond every log replayed. |
| `Recovery.LiveLogNumbers` | leveldb/db/db_impl.cc:316-343 | Exactly the logs at or after the manifest's log number, in increasing order. |
| `Recovery.Reopen` | leveldb/db/db_impl.cc:1489-1531 | A crash followed by opening the database is one Crash step of the transition system, and the database is valid again. |
| `TornLog.ReadTornLog` | leveldb/db/log_reader.cc:60-176 | Reading a log that ends anywhere inside its last record, or after it, yields all records or all but the last, and reports nothing. |
| `TornLog.RecoverCurrentLog` | leveldb/db/db_impl.cc:364-485 | Reading and decoding the bytes of a current log that was cut anywhere in its last record yields exactly the batches that the Crash step lets survive. |
| `TornLog.InsertRecords` | leveldb/db/db_impl.cc:412-449 | A record that spells out a batch becomes exactly that batch's entries. |
| `VersionSet.FindFile` | leveldb/db/version_set.cc:77-96 | The first file whose largest key is at or after the key, by binary search. |
| `VersionSet.SomeFileOverlapsRange` | leveldb/db/version_set.cc:112-147 | True if and only if some file meets the range, open bounds included, for level 0 and for sorted levels. |
| `VersionSet.PickLevelForMemTableOutput` | leveldb/db/version_set.cc:493-519 | Past level 0 no level on the way meets the table's range and all are roomy; the level is 2, or the next one may not be entered: it is met, level 0 is, or there is too much below. |
| `VersionSet.GetOverlappingInputs` | leveldb/db/version_set.cc:522-563 | Exactly the files that meet the range, in the level's order; on level 0 the range is the least one around the query that no file sticks out of. |
| `VersionSet.MeetsIffShares` | leveldb/db/version_set.cc:98-110 | A file meets a range if and only if some user key lies in both, open bounds included. |
| `VersionSet.GetRange` | leveldb/db/version_set.cc:1214-1234 | The smallest and the largest internal key of the files, and so their user-key range. |
| `VersionSet.SetupOtherInputs` | leveldb/db/version_set.cc:1335-1400 | The lower inputs are exactly the files that meet the range of the upper ones. The upper inputs are the seed, or exactly the files that the common range reaches: when these are more, below the size limit together, and meet no further lower file. |
| `VersionSet.Compaction.IsBaseLevelForKey` | leveldb/db/version_set.cc:1472-1491 | For keys asked in non-decreasing order, the pointers that never move back decide exactly whether no file two or more levels down has this key between its smallest and its largest user key. |
| `VersionSet.HiddenByPrevious` | leveldb/db/db_impl.cc:944-970 | In the merged order, some newer input entry old enough for everybody exists if and only if the entry just before is one. |
| `VersionSet.DoCompactionWork` | leveldb/db/db_impl.cc:915-1014 | The outputs are sorted and disjoint, numbered one after the other, cut exactly where the parent overlap or the size asks for it, and hold exactly the input entries that neither rule drops; a deletion that everybody sees survives only above a file whose range holds its user key. |
| `VersionGet.Get` | leveldb/db/version_set.cc:323-420 | The search over the levels stops at the entry that the specification names, or nothing on any level is visible. |
| `VersionGet.SortedGet` | leveldb/db/memtable.cc:108-143 | The first entry at or after the lookup key is the newest visible one for its user key, or there is none. |
| `Builder.ReplayEqualsInstalls` | leveldb/db/version_set.cc:656-748 | Replaying all edits into one builder and saving once equals installing them one at a time, if a file number names one table, as it does in every run. |
| `Builder.RecoverFromSnapshot` | leveldb/db/version_set.cc:1092-1120 | Replaying a descriptor that starts with a snapshot record gives the version that was installed, if a file number names one table, as it does in every run. |
| `Builder.VersionBuilder.Apply` | leveldb/db/version_set.cc:656-699 | Each level's deleted and added sets become what the edit says, with an added number taken back out of the deleted ones. |
| `Builder.VersionBuilder.SaveTo` | leveldb/db/version_set.cc:702-748 | The merge holds exactly the base and added files that are not deleted, in order. |
| `DbIter.ShownIsView` | leveldb/db/db_iter.cc:42-128 | The entries that an iterator at a sequence number shows are exactly the map that point reads at that number answer. |
| `DbIter.ShownIncrease` | leveldb/db/db_iter.cc:42-128 | The entries shown have strictly increasing user keys. |
| `DbIter.DBIter.Next` | leveldb/db/db_iter.cc:146-203 | From any shown entry, whatever the direction before, to the next shown one. |
| `DbIter.DBIter.Prev` | leveldb/db/db_iter.cc:205-272 | From any shown entry, whatever the direction before, to the previous shown one. |
| `DbIter.DBIter.Seek` | leveldb/db/db_iter.cc:274-286 | The first shown entry whose user key is at or after the target, or none. |
| `DbIter.DBIter.SeekToFirst` | leveldb/db/db_iter.cc:288-297 | The first shown entry, or none. |
| `DbIter.DBIter.SeekToLast` | leveldb/db/db_iter.cc:299-304 | The last shown entry, or none. |
| `Merger.StepInMerge` | leveldb/table/merger.cc:14-30 | Moving to the next or previous entry among the children is moving by one position in the sorted merge of all of them. |
| `Merger.SeekInMerge` | leveldb/table/merger.cc:51-57 | Seeking among the children reaches the position in their merge that seeking there would. |
| `Merger.EndsOfMerge` | leveldb/table/merger.cc:35-49 | The first and the last entry of all children are the first and the last of their merge. |
| `Merger.MergingIterator.Next` | leveldb/table/merger.cc:59-83 | The next entry of all children, also right after moving backward. |
| `Merger.MergingIterator.Prev` | leveldb/table/merger.cc:85-112 | The previous entry of all children, also right after moving forward. |
| `Merger.MergingIterator.Seek` | leveldb/table/merger.cc:51-57 | The first entry of all children at or after the key. |
| `Merger.MergingIterator.SeekToFirst` | leveldb/table/merger.cc:35-41 | The smallest entry of all children. |
| `Merger.MergingIterator.SeekToLast` | leveldb/table/merger.cc:43-49 | The largest entry of all children. |
| `TwoLevel.TwoLevelIterator.Seek` | leveldb/table/two_level_iterator.cc:91-96 | The first row at or after the key, over any cut of the rows into blocks, empty ones included. |
| `TwoLevel.TwoLevelIterator.Next` | leveldb/table/two_level_iterator.cc:112-136 | One row forward, across empty blocks. |
| `TwoLevel.TwoLevelIterator.Prev` | leveldb/table/two_level_iterator.cc:118-149 | One row back, across empty blocks. |
| `TwoLevel.TwoLevelIterator.SeekToFirst` | leveldb/table/two_level_iterator.cc:98-103 | The first row. |
| `TwoLevel.TwoLevelIterator.SeekToLast` | leveldb/table/two_level_iterator.cc:105-110 | The last row. |
| `Scan.ScanShowsHistory` | leveldb/db/db_impl.cc:1066-1095 | In every run with complete inputs the children of the internal iterator can be merged, and the entries that their merge shows at a live sequence number are exactly the keys and values of the plain history. |
| `Scan.ChildrenMergeable` | leveldb/db/version_set.cc:225-242 | No two of the memtables, level-0 tables and deeper levels hold the same internal key. |
| `GroupCommit.BuildBatchGroup` | leveldb/db/db_impl.cc:1268-1313 | The longest group that the size limit and the sync rule allow, its batch the members' batches in queue order. |
| `GroupCommit.GroupLimits` | leveldb/db/db_impl.cc:1277-1300 | No group grows by a batch beyond 1 MB, or 128 KB beyond a first batch of at most 128 KB, none has a sync writer behind a leader that is not one, and the writer after a group had to stay out for one of these reasons. |
| `GroupCommit.RunKeepsInv` | leveldb/db/db_impl.cc:1193-1264 | In every interleaving of writers the queue, the phases, the log, the memtable and the sequence number agree with the completed groups. |
| `GroupCommit.OneLeader` | leveldb/db/db_impl.cc:1199-1206 | At most one writer leads at any moment. |
| `GroupCommit.TmpIsEmpty` | leveldb/db/db_impl.cc:1213-1242 | The shared batch is empty whenever a leader starts to form a group. |
| `GroupCommit.MemHoldsAcknowledged` | leveldb/db/db_impl.cc:1223-1256 | The memtable holds exactly the batches of the writers told OK, each once, in queue order. |
| `GroupLog.LogHoldsAcknowledged` | leveldb/db/db_impl.cc:1223-1240 | The log holds exactly the batches of the writers told OK, each once, in queue order, followed at most by one group whose sync failed. |
| `GroupLog.AcknowledgedIsLogged` | leveldb/db/db_impl.cc:1223-1256 | Every writer told OK finds its batch in one piece in a record of the log. |
| `GroupCommit.SyncedWriteIsDurable` | leveldb/db/db_impl.cc:1225-1230 | Every sync writer told OK finds its batch in a record of the synced part of the log. |
| `GroupCommit.NumbersIncrease` | leveldb/db/db_impl.cc:1210-1244 | Every entry and every record has its own sequence numbers, in increasing order, none beyond the last one given out. |
| `GroupCommit.CompletedInOrder` | leveldb/db/db_impl.cc:1247-1256 | Writers are completed in the order in which they joined the queue. |
| `SkipList.SearchIsRight` | leveldb/db/skiplist.h:262-322 | In every interleaving of one inserter with any readers, a search that ends with a load returns the right node for the keys linked at level 0 at that moment. |
| `SkipList.MoveIsRight` | leveldb/db/skiplist.h:208-232 | An iterator that moves on, or starts, reaches the next key linked at that moment. |
| `SkipList.KeysGrow` | leveldb/db/skiplist.h:13-28 | Keys are never unlinked on any level. |
| `SkipList.LoadsAreDefined` | leveldb/db/skiplist.h:337-370 | No thread loads a pointer that was not stored before. |
| `SkipList.ChainIsPath` | leveldb/db/skiplist.h:337-370 | The pointers of a level visit its keys, each once, in increasing order. |
| `SkipList.RunKeepsInv` | leveldb/db/skiplist.h:337-370 | Every step of the inserter and of the readers keeps the list's structure on every level. |
| `SkipList.List.Insert` | leveldb/db/skiplist.h:337-370 | The key is linked on exactly its levels; all others stay. |
| `SkipList.List.Contains` | leveldb/db/skiplist.h:373-380 | True if and only if the key was inserted. |
| `SkipList.List.FindGreaterOrEqual` | leveldb/db/skiplist.h:262-281 | The first node at or after the key, and on each level the last node before it. |
| `SkipList.List.FindLessThan` | leveldb/db/skiplist.h:285-302 | The last node before the key, or the head. |
| `SkipList.List.FindLast` | leveldb/db/skiplist.h:305-322 | The last node, or the head. |
| `Log.WriteLog` | leveldb/db/log_writer.cc:36-82 | A log is the image of its records: fragments that fit their 32 KB blocks, trailers of zeros, checksums over type and data. |
| `Log.Writer.AddRecord` | leveldb/db/log_writer.cc:36-82 | A record appends exactly its fragments, at least one, also when only a header fits in the block. |
| `Log.ReadLog` | leveldb/db/log_reader.cc:60-176 | Of any prefix of a log exactly the records whose last byte is there are returned, in order, and nothing is reported as corrupt, with and without checksums. |
| `Log.Reader.ReadRecord` | leveldb/db/log_reader.cc:60-176 | The next record if all of it is there; otherwise the end, without a report. |
| `Log.Reader.ReadPhysicalRecord` | leveldb/db/log_reader.cc:193-275 | The next fragment if all of it is there; otherwise the end, without a report. |
| `Crc32c.Extend` | leveldb/util/crc32c.cc:286-329 | Whatever the buffer's alignment, four bytes at a time through the tables computes the bitwise CRC-32C, whose polynomial and inversions the entries and vectors below fix. |
| `CrcVectors.TableBasis` | leveldb/util/crc32c.cc:16-81 | The entries 1, 2, 4, and so on to 128 of the first table are the listed constants; by linearity they fix all others. |
| `CrcVectors.Zeros` | leveldb/util/crc32c_test.cc:17-18 | The checksum of 32 zero bytes (section B.4 of RFC 3720). |
| `CrcVectors.AllSet` | leveldb/util/crc32c_test.cc:20-21 | The checksum of 32 bytes 0xff. |
| `CrcVectors.Increasing` | leveldb/util/crc32c_test.cc:23-26 | The checksum of the bytes 0 to 31. |
| `CrcVectors.Decreasing` | leveldb/util/crc32c_test.cc:28-31 | The checksum of the bytes 31 down to 0. |
| `CrcVectors.Command` | leveldb/util/crc32c_test.cc:33-47 | The checksum of an iSCSI read command. |
| `Formats.MaskedSum` | leveldb/util/crc32c.h:24-34 | A masked checksum is the checksum rotated right by 15 bits plus 0xa282ead8, modulo two to the 32. |
| `Formats.WordBytes` | leveldb/util/coding.cc:9-18 | A word is stored low byte first. |
| `Formats.FragmentBytes` | leveldb/db/log_format.h:27-30 | A fragment has its length in bytes four and five, its type in byte six, and then its data. |
| `Formats.FragmentChecksum` | leveldb/db/log_writer.cc:84-104 | The stored checksum, unmasked, is that of the type byte and the data. |
| `Formats.FragmentTypes` | leveldb/db/log_writer.cc:46-81 | From the start of a block, a record of up to 32761 bytes is one whole fragment (type 1); a longer one is a first (2), middle (3) and a last one (4), cut at the ends of the blocks. |
| `Formats.EndOfBlock` | leveldb/db/log_writer.cc:46-60 | Fewer than seven bytes at the end of a block are skipped; exactly seven take an empty first fragment. |
| `Crc32c.ExtendedSplits` | leveldb/util/crc32c.h:14-17 | Extending a checksum piece by piece is the checksum of the whole. |
| `Crc32c.MaskRoundTrip` | leveldb/util/crc32c.h:31-40 | Unmask inverts Mask. |
| `Crc32c.Fixed32RoundTrip` | leveldb/util/coding.cc:9-18 | Words and strings of four bytes correspond one to one. |
| `Coding.EncodeVarint32` | leveldb/util/coding.cc:47-73 | The unrolled encoder produces the same bytes as the general definition, at most five. |
| `Coding.EncodeVarint64` | leveldb/util/coding.cc:81-90 | The loop produces the bytes of the general definition. |
| `Coding.GetVarint` | leveldb/util/coding.cc:112-158 | The decoding loop computes what the recursive definition decodes, and fails where it fails; `Formats.Decodes32` and `Formats.Decodes64` say on every input what that is. |
| `Formats.VarintBytes` | leveldb/util/coding.cc:47-90 | A varint has seven bits of the number in each byte, lowest first, the high bit on all but the last, and no byte too many. |
| `Formats.Decodes32` | leveldb/util/coding.cc:112-141 | On every input: a varint of at most five bytes, shortest or not, decodes to its bits modulo two to the 32, and nothing else decodes. |
| `Formats.Decodes64` | leveldb/util/coding.cc:143-158 | The same for ten bytes and 64 bits. |
| `Coding.Varint32RoundTrip` | leveldb/util/coding.cc:112-141 | Every 32-bit number that stands at a place decodes to itself, and decoding ends where it ends. |
| `Coding.Varint64RoundTrip` | leveldb/util/coding.cc:143-170 | The same for 64 bits. |
| `Coding.FixedRoundTrip` | leveldb/util/coding.h:58-83 | A fixed-width number decodes to itself. |
| `Coding.GetLengthPrefixedSlice` | leveldb/util/coding.cc:172-192 | A length-prefixed slice decodes to itself. |
| `WriteBatch.Iterate` | leveldb/db/write_batch.cc:42-80 | A batch's bytes give back exactly its operations, in order. |
| `WriteBatch.InsertInto` | leveldb/db/write_batch.cc:128-134 | The operations of a batch get consecutive sequence numbers from the batch's own. |
| `WriteBatch.WriteBatch.Put` | leveldb/db/write_batch.cc:98-103 | The batch holds one operation more; its sequence number stays. |
| `WriteBatch.WriteBatch.Delete` | leveldb/db/write_batch.cc:105-109 | The same for a deletion. |
| `WriteBatch.WriteBatch.Append` | leveldb/db/write_batch.cc:141-145 | The batch holds the other's operations after its own. |
| `Formats.OperationBytes` | leveldb/db/write_batch.cc:98-109 | The bytes of a short put and of a short deletion: tag, length, key, length, value. |
| `Formats.BatchBytes` | leveldb/db/write_batch.cc:5-14 | A batch: eight bytes of sequence number, four of count, then the operations. |
| `VersionEdit.RoundTrip` | leveldb/db/version_edit.cc:26-210 | Decoding into a fresh edit inverts encoding; into a used one, the old compaction pointers stay in front. |
| `VersionEdit.EncodeTo` | leveldb/db/version_edit.cc:41-86 | The bytes hold tagged fields which, applied in order to a fresh edit, make the edit. |
| `VersionEdit.DecodeFrom` | leveldb/db/version_edit.cc:109-210 | Any bytes that hold tagged fields decode to the edit that these make. |
| `Formats.NumberFields` | leveldb/db/version_edit.cc:46-61 | The tags and bytes of the number fields of an edit. |
| `Formats.NamedFields` | leveldb/db/version_edit.cc:42-75 | The tags and bytes of the comparator, compaction pointer and deleted file fields. |
| `Formats.NewFileField` | leveldb/db/version_edit.cc:77-85 | The tag and the bytes of a new file field. |
| `Formats.PackedKey` | leveldb/db/dbformat.cc:12-21 | An internal key is the user key, one byte of type (1 for a value, 0 for a deletion) and seven of sequence number, low byte first. |
| `Block.BlockBuilder.Add` | leveldb/table/block_builder.cc:73-107 | The layout grows by one pair; at a restart point it shares nothing, and otherwise exactly the longest common prefix with the last key; restart points come after every interval. |
| `Block.BlockBuilder.Finish` | leveldb/table/block_builder.cc:63-71 | The bytes, if fewer than 4 GB, are the layout's block, with its restart array; every entry between restart points shares the longest common prefix. |
| `Block.Open` | leveldb/table/block.cc:23-38 | A well-formed block opens at its restart array. |
| `Block.DecodeEntry` | leveldb/table/block.cc:53-74 | An entry's header decodes to its three lengths; whatever is returned ends before the limit. |
| `Block.ReadAll` | leveldb/table/block.cc:76-254 | Iterating a finished block gives back exactly the pairs that were added. |
| `Block.Iter.Seek` | leveldb/table/block.cc:165-203 | The first pair at or after the target in the comparator's order, or the end. |
| `Block.Iter.Next` | leveldb/table/block.cc:139-142 | The next pair, with its key put together from the shared bytes. |
| `Block.Iter.Prev` | leveldb/table/block.cc:144-163 | The previous pair, or the end before the first. |
| `Block.Iter.SeekToFirst` | leveldb/table/block.cc:205-208 | The first pair, or the end. |
| `Block.Iter.SeekToLast` | leveldb/table/block.cc:210-215 | The last pair, or the end. |
| `Comparator.RankOrdersKeys` | leveldb/db/dbformat.cc:50-66 | Encoded internal keys have ranks on the real line that are ordered exactly as the internal comparator orders the keys. |
| `Comparator.OrderAtDifference` | leveldb/util/comparator.cc:25-27 | Byte strings are ordered by the first byte that differs, and a string comes before its extensions. |
| `Comparator.PrecedesIsKeyLess` | leveldb/db/dbformat.cc:50-66 | Internal keys in bytes are ordered as the entries of the database model are: by user key, then newest first. |
| `Keys.PositionOrdersBytes` | leveldb/util/comparator.cc:25-27 | Byte strings have positions on the real line that are ordered exactly as the bytewise comparator orders them. |
| `Comparator.FindShortestSeparator` | leveldb/util/comparator.cc:29-51 | Exactly the start, unless its first byte that differs from the limit can go up by one and stay below: then cut after that byte, strictly between the two. |
| `Comparator.FindShortSuccessor` | leveldb/util/comparator.cc:53-65 | Exactly the key with its first byte that is not 0xff increased and cut there; the key itself if there is none. |
| `Comparator.InternalSeparator` | leveldb/db/dbformat.cc:68-85 | The start, or, exactly when the cut is shorter and lies between, the shorter user key with the largest tag; then strictly between the two. |
| `Comparator.InternalSuccessor` | leveldb/db/dbformat.cc:87-99 | The key, or, exactly when the cut is shorter, the shorter and larger user key with the largest tag. |
| `Comparator.SeparatorSeparates` | leveldb/table/table_builder.cc:100-107 | An index key is at or after every key of its block and before every key of the next. |
| `Bloom.CreateFilter` | leveldb/util/bloom.cc:35-61 | A bit is set if and only if it is a probe of some key, the size is the bits per key times the keys rounded up to bytes and at least 8 bytes, and the last byte is the number of probes; so every key that went in matches. |
| `Bloom.KeyMayMatch` | leveldb/util/bloom.cc:63-87 | True if and only if all probes of the key are set, or the filter is of a reserved kind; a filter that is too short matches nothing. |
| `Formats.ProbeStep` | leveldb/util/bloom.cc:52-52 | Probes are apart by the hash rotated right by 17 bits. |
| `Formats.ProbeSequence` | leveldb/util/bloom.cc:52-58 | Each probe is the one before plus that step on 32 bits, modulo the number of bits. |
| `FilterBlock.FilterBlockBuilder.Finish` | leveldb/table/filter_block.cc:36-76 | There is one filter for every 2 KB of offsets, empty without keys and otherwise exactly the Bloom filter of the keys added for it; every key matches the filter of the block offset that it was added for. |
| `FilterBlock.FilterBlockBuilder.StartBlock` | leveldb/table/filter_block.cc:22-28 | The keys that wait become those of the next filter, and the filters from there to the block's offset have no keys. |
| `FilterBlock.KeyMayMatch` | leveldb/table/filter_block.cc:95-109 | On a finished filter block, what the filter of the block's offset says; an offset beyond the last filter, and contents that are too short, match. |
| `Table.TableBuilder.Add` | leveldb/table/table_builder.cc:92-121 | The row is added; pending index entries get a separating key. |
| `Table.TableBuilder.Flush` | leveldb/table/table_builder.cc:123-137 | The data block is written and its index entry left pending; no row is lost. |
| `Table.TableBuilder.Finish` | leveldb/table/table_builder.cc:199-254 | The table holds exactly the rows added: blocks, a filter that knows every row's user key, and index keys that are exactly the comparator's short separators of the rows on either side, and its short successor of the last row. |
| `TableBytes.InternalGet` | leveldb/table/table.cc:226-255 | In the bytes of a table (index block, handles, filter block, data blocks) the search through one index entry, one filter and one block finds the pair of the first row at or after the key if it has the key's user key, and otherwise none with that user key. |
| `TableBytes.EncodeBlock` | leveldb/table/block_builder.cc:63-107 | Rows added to a block builder one after the other become the bytes of a block of these rows. |
| `TableBytes.SeekBlock` | leveldb/table/block.cc:165-203 | Seek on the bytes of a block of rows finds the first row at or after the internal key, in the internal comparator's order. |
| `TableBytes.DecodeHandle` | leveldb/table/format.cc:15-30 | A block handle decodes to its offset. |
| `TableBytes.IndexSorted` | leveldb/table/table_builder.cc:100-107 | The keys of a table's index strictly increase. |
| `HandleTable.HandleTable.Lookup` | leveldb/util/cache.cc:58-60 | The one handle with this key, or none. |
| `HandleTable.HandleTable.Insert` | leveldb/util/cache.cc:62-76 | The handle replaces the one with its key, which is returned; all others stay. |
| `HandleTable.HandleTable.Remove` | leveldb/util/cache.cc:78-86 | The handle with this key goes; all others stay. |
| `HandleTable.Resize` | leveldb/util/cache.cc:107-131 | The new array has the least power-of-two size, from four on, of at least the number of handles, and holds the same handles. |
| `Cache.LRUCache.Insert` | leveldb/util/cache.cc:230-261 | The new handle is last in the list and one with its key is gone before eviction; then as many from the front go as the charge needs; reference counts and charge are exact. |
| `Cache.LRUCache.Lookup` | leveldb/util/cache.cc:214-223 | The handle with this key, if any, is referenced once more and is last in the list, where all others keep their order. |
| `Cache.LRUCache.Release` | leveldb/util/cache.cc:225-228 | One reference less; the last one frees the handle once. |
| `Cache.LRUCache.Erase` | leveldb/util/cache.cc:263-270 | The handle with this key leaves table and list, and is freed once nobody holds it. |
| `Cache.LRUCache.Evict` | leveldb/util/cache.cc:253-258 | Exactly as many handles go from the front of the list as the charge needs, and the rest keeps its order. |
| `Cache.LRUCache.Prune` | leveldb/util/cache.cc:272-283 | The pruning loop leaves the cache in the state that the specification of pruning gives. |
| `Cache.EvictedOldest` | leveldb/util/cache.cc:253-258 | Evicting takes a prefix of the list, oldest first, and keeps every reference count exact. |
| `Cache.PrunedHeld` | leveldb/util/cache.cc:272-283 | Pruning keeps exactly the handles that a caller holds. |
| `CacheRuns.ListIsByUse` | leveldb/util/cache.cc:212-261 | In every run of insertions, lookups, releases, erasures and prunings the list is in the order in which the handles were last put in or looked up. |
| `CacheRuns.EvictedWasUsedBefore` | leveldb/util/cache.cc:253-258 | In every run, what an insertion evicts was last used before everything that it leaves. |
| `CacheRuns.DoInsert` | leveldb/util/cache.cc:230-261 | An insertion is one step of such a run. |
| `CacheRuns.DoLookup` | leveldb/util/cache.cc:214-223 | A lookup that finds its key is one step of such a run; another changes nothing. |
| `Files.RunKeepsInv` | leveldb/db/version_set.cc:473-484 | In every run every reference count counts what it should, everything that a version lists was written, and whatever was written and may still be named is on disk. |
| `Files.HeldFilesExist` | leveldb/db/db_impl.cc:217-271 | A reader that holds a version finds every file of it on disk, whatever was installed and deleted since. |
| `Files.DeleteKeepsInv` | leveldb/db/db_impl.cc:217-271 | Deleting obsolete files keeps every file of a live version and every pending output. |
| `Files.DeletionIsSafeIff` | leveldb/db/db_impl.cc:217-271 | Deletion by anybody at any moment between edits is safe if and only if there was a background error or every table that was built and is not installed yet is live or pending. |
| `Files.DeleteObsoleteFiles` | leveldb/db/db_impl.cc:217-271 | After a background error all files stay. Otherwise a log stays if and only if its number is at least the log number or is the previous one; a descriptor, at least the manifest's; a table or temporary file, pending or listed by a version; the rest stays. |
| `LogFiles.DeleteLogs` | leveldb/db/db_impl.cc:217-271 | In every state with the database's invariant the logs that deletion leaves have the same live order and the same replay, for a clean and for a torn crash, and the invariant still holds. |
| `Files.DeletionMustWait` | leveldb/db/db_impl.cc:510-560 | A run reaches a state in which a flushed table is neither pending nor live, and deletion there would break the invariant. |

## Left out

- LsmRuns.RunReadsHistory: assumes that the inputs of moves and compactions are complete, because without that the property is false (see Findings); the exact condition on each read is `LsmStale.CompactReadIff` and `LsmStale.MoveReadIff`, and no condition is needed without old snapshots.
- LsmRuns.RunKeepsInv: assumes complete inputs, for the same reason.
- LsmReads.GetReadsHistory: assumes complete inputs, for the same reason.
- Scan.ScanShowsHistory: assumes complete inputs, for the same reason.
- Database.DBImpl.CompactInputs: promises a valid database only for complete inputs, for the same reason.
- Database.DBImpl.MoveInput: promises a valid database only for complete inputs, for the same reason.
- Builder.ReplayEqualsInstalls: assumes that a file number names one table; `LsmManifest.ManifestGivesLevels` is the statement for runs, without the assumption.
- Builder.RecoverFromSnapshot: assumes that a file number names one table, as above.
- Log.ReadLog: for bytes that no writer produced only termination is stated, not which corruption is reported.
- Log.Reader.ReadRecord: says nothing about corrupt input beyond progress, as above.
- Log.Reader.ReadPhysicalRecord: says nothing about corrupt input beyond progress, as above.
- Block.Iter.Seek: for bytes that no builder produced only termination and bounds are stated.
- WriteBatch.Iterate: for bytes that are no batch only termination and bounds are stated.
- VersionEdit.DecodeFrom: for bytes that are no edit only termination and bounds are stated.
- Writes that fail are modelled in `GroupCommit` and `GroupLog`, where they use up sequence numbers; in `Lsm` every group that is started is committed or lost in a crash.
- The previous-log number of databases written by older versions.
- Block.DecodeEntry: does not model the 32-bit overflow of the sum of the two lengths, which only a corrupt block can cause.
- Table.TableBuilder.Finish: works on rows (`TableBytes` joins them to bytes); filter blocks of 4 GB and more are outside the promise, because their offsets are stored in 32 bits.
- Block.BlockBuilder.Finish: blocks of 4 GB and more are outside the promise, for the same reason.
- SkipList.SearchIsRight: loads and stores take effect in one order; memory barriers and the arena are not modelled.
- A memtable flush inside a running compaction is modelled as a step before or after it, not in its middle.
- `reuse_logs`, reuse of the manifest, `initial_offset` and resynchronising readers.
- Loss of acknowledged writes that were not synced when the machine, and not only the process, stops.
- I/O errors inside recovery and table writing, and what a failed log append leaves in the file (`GroupCommit` takes it to leave nothing).
- Which compaction is picked: scores, seek counts, byte limits and compaction pointers are parameters.
- The 1024 constants of the CRC tables are defined by the polynomial instead of listed (`CrcVectors.TableBasis` compares the eight that fix the first table); the Bloom hash is a parameter.
- Block compression, block trailers, the footer, the block cache and the table cache, sharding of the cache, and flattening of keys in the filter builder.
- Wake-ups and liveness of writers and of the background thread, write throttling, and a NULL batch that forces a compaction.
- `DestroyDB`, repair, properties, approximate sizes, the C binding, environments and file names, and everything outside `leveldb/`.
