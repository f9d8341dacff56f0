# Verified models of LevelDB and nanopb as vendored in Mystagram

Two libraries under `Mystagram/Pods` have real cores: the LevelDB storage engine and the nanopb
protocol buffer codec. This project models both in Dafny and proves what they are for.

**Storage engine.** Four layers of results build on one another.

* *Meaning.* `history.dfy` says what the database is: a map that changes by whole batch groups.
  `layers.dfy` and `database.dfy` model memtables, tables, snapshots, flushes, compactions and readers
  as atomic steps between releases of the mutex, and prove over every interleaving that each reader
  sees the map after a whole number of groups. `group_sets.dfy`, `store.dfy`, `reopening.dfy`,
  `durability.dfy` and `replay_cuts.dfy` add logs, tables, the manifest, syncs, failures, garbage
  collection, crashes of the process or of the machine, and recoveries, any number of them in one run;
  `collection.dfy` says that what is deleted on the disk is what the state machine gives up.
* *Rules.* `compaction.dfy` proves exactly when the drop rules keep every admissible read;
  `compaction_work.dfy` is the loop that applies them, `file_selection.dfy` and `chosen_jobs.dfy` choose
  its inputs, and `version_search.dfy` is the search of a version file by file. `version_files.dfy` finds
  the lists of files of every version that a run reaches; `flushed_reads.dfy` is about flushes in
  mid-compaction.
* *Structures.* `skip_list.dfy`, `skip_list_race.dfy` (single stores against single loads),
  `mem_table.dfy`, `snapshot_list.dfy`, `internal_key.dfy`, `db_iter.dfy` (a bidirectional cursor over
  the visible map), `db_get.dfy`, `write_queue.dfy` (group commit), `unit_of_work.dfy` and
  `background.dfy` (scheduling) and `recovery.dfy`.
* *Log.* `log_format.dfy`, `log_writer.dfy`, `log_reader.dfy`, `log_replay.dfy`, `log_damage.dfy`,
  `log_failures.dfy` and `log_misplaced.dfy` prove round trip, crash prefix, resynchronisation after
  damage, reading from an offset, and exactly when a log is still readable after a failed append.
  `log_reports.dfy` says exactly what is reported of any file. `log_genuine.dfy` and `log_calls.dfy` prove what any run of calls, failed or not, leaves to be read,
  and `ledger.dfy` that it is what the state machine says of a log.

**Codec.** `varint.dfy`, `field_iter.dfy`, `message.dfy`, `encode.dfy`, `decode.dfy`,
`decode_stream.dfy` and `round_trip.dfy` follow the Encoding specification of Protocol Buffers
(sections "Base 128 Varints", "Signed Integers", "Length-Delimited Records" and "Packed Repeated
Fields"); `wire_format.dfy` has its rules and examples. `capacities.dfy` says what the encoder refuses,
`required_fields.dfy` what the decoder demands, and `decoded_values.dfy`, `concatenation.dfy` and
`foreign_bytes.dfy` what it makes of bytes from elsewhere.

Methods work on classes with the fields of the original objects, and are proved against specification
functions; lemmas then prove what the library promises about those functions. A user key stands for its
place in the order of the user comparator. An operation that may fail has an arbitrary outcome; a
constant `faulty` says whether failures occur at all, so that a method cannot meet its contract by
failing always. The checksum is any function. A data race is modelled as an interleaving of single
loads and stores.

Where the code does not do what one would hope, the model keeps the code and says exactly when:

* A compaction that meets an unparseable key forgets the deletion before it and may bring an older value
  back (`CompactionRules.CompactionPreservesReads` is an equivalence, `UnparseableKeyResurrects` a case).
* AddBoundaryInputs is called for the upper level of a compaction only (`version_set.cc:1403-1411`). What
  SetupOtherInputs chooses leaves an entry of intermediate age behind if and only if a table of the output
  level goes on with the last user key of one that was taken (`ChosenJobs.ChosenFits`); the installation
  then keeps all admissible reads if and only if it drops no marker that covers a value elsewhere
  (`Layers.InstallKeepsReadsExactly`). `ChosenJobs.BoundaryTableLeftBehind` is a version and the choice the
  code makes in it after which a deleted value is back.
* A memtable that is flushed while a compaction runs may go to the compaction's output level, between its
  outputs. The tables of that level stay apart if and only if it does not (`Layers.FlushAndInstall`), and
  if and only if it does not, a Get of a new key is right however the outputs are cut
  (`FlushedReads.GetStaysRight`). `VersionSearch.FlushIntoCompaction` is a version, a compaction and a
  flush that the code chooses, and a Get that misses the value.
* AddRecord advances its place in the block whether or not the bytes got on the file, and ignores the status
  of the trailer's append. After a call that fails, everything written later is read back if and only if the
  file ends where the writer goes on, as to the place in the block (`LogMisplaced.ReadBackExactly`). After any
  number of calls, failed or not, the same condition says whether everything is read back from the next block
  on (`LogMisplaced.HealsExactly`). `LostAfterFailure` and `LostTrailer` are acknowledged records that are lost.
  Whatever happens, a log that is read with checksums gives back records that were written whole, in order,
  and among them all whose calls succeeded in step (`LogCalls.ReadsWhatWasWritten`); it gives back what the
  state machine says it may, and no less than it says it must (`Ledgers.ReadableIsKept`). Over whole runs with
  crashes, `Reopening.MayBeLost`, `MayReturn` and `Durability.MayBeLostToPower` say exactly which groups may
  go missing or come back.
* `BackgroundCompaction` looks its manual request up again at the end, and dereferences a null pointer if
  the requester has given up (`db_impl.cc:754-766`). A unit of work survives every schedule if and only if
  there is a memtable to flush, or no request, or nothing to compact for it (`UnitOfWork.SurvivedExactly`);
  `LosesRequest` is the schedule: a sync of the log fails while the compaction runs.
* The 32-bit varint decoder checks a sign extension byte by byte and has no limit on the length of a number:
  `Varints.Accepts32` says what it accepts, `AcceptedByOne` what only one of the decoders accepts, and
  `LooseSignExtension` and `OverlongAccepted` are cases.
* A string that fills its array is encoded, and then refused by the decoder; a message comes back if and only
  if it has no such string (`RoundTrip.SameDescriptorRoundTrip`, `FullStringRefused`).
* `pb_field_iter_find` with tag zero finds the terminator of an empty message
  (`FieldIterators.FieldIter.Find`), and so does the decoder.

## Model

| member | source | states |
|---|---|---|
| `Database.RunOk` | Mystagram/Pods/leveldb-library/db/db_impl.cc:1185-1256 | after every run of the atomic steps of writers, readers, snapshots, memtable switches, flushes, compactions and trivial moves, in any order: newer layers hold newer entries of each key, nothing a live snapshot needs is lost, and the floor of a running compaction is at or below every live snapshot |
| `Database.RunTidy` | Mystagram/Pods/leveldb-library/db/version_set.cc:326-421 | over every run in which no memtable is flushed between what a running compaction keeps, at its output level, the tables of each level stay apart, each table is at one level and no entry is stored twice |
| `Database.StepTidy` | Mystagram/Pods/leveldb-library/db/db_impl.cc:535-566 | each step but such a flush keeps that, whatever is flushed beside the kept entries |
| `Database.StepOk` | Mystagram/Pods/leveldb-library/db/db_impl.cc:535-566 | each single step keeps that invariant |
| `Database.WriteEndedOk` | Mystagram/Pods/leveldb-library/db/db_impl.cc:1209-1237 | moving the last sequence number past a group, applied or failed, keeps it; snapshots stay at group boundaries |
| `Database.OneInsertedOk` | Mystagram/Pods/leveldb-library/db/db_impl.cc:1228-1230 | inserting one more op of the unlocked writer keeps it, and no reader that has pinned the memtable sees a difference |
| `Database.SnapshotTakenOk` | Mystagram/Pods/leveldb-library/db/db_impl.cc:1166-1169 | a new snapshot is at the newest boundary, and never below the floor of a running compaction |
| `Database.SnapshotReleasedOk` | Mystagram/Pods/leveldb-library/db/db_impl.cc:1171-1174 | releasing one keeps the rest in order and above the floor |
| `Database.ImmFlushedOk` | Mystagram/Pods/leveldb-library/db/db_impl.cc:535-560 | installing the table of imm_ at any level that PickLevelForMemTableOutput may choose keeps the invariant, also in the middle of a compaction; that tables stay apart is StepTidy's |
| `Database.CompactionStartedOk` | Mystagram/Pods/leveldb-library/db/db_impl.cc:890-897 | the number taken at the start is at or below every live snapshot and the last sequence number |
| `Database.CompactionInstalledOk` | Mystagram/Pods/leveldb-library/db/db_impl.cc:860-876 | installing the results keeps it, with snapshots and writes that came in between |
| `Database.TableMovedOk` | Mystagram/Pods/leveldb-library/db/db_impl.cc:718-735 | a trivial move keeps it and changes no read |
| `Database.ReaderSeesWholeGroups` | Mystagram/Pods/leveldb-library/db/db_impl.cc:1100-1145 | whatever has happened since, what a reader has pinned shows the state after some whole number of groups, for every key: no part of a batch is ever visible |
| `Database.IteratorListsWholeGroups` | Mystagram/Pods/leveldb-library/db/db_impl.cc:1062-1087 | an iterator over the pinned layers lists exactly the keys that have a value in that state, with those values |
| `Database.NewReaderSeesAll` | Mystagram/Pods/leveldb-library/db/db_impl.cc:1104-1110 | a read without a snapshot sees every finished group |
| `Database.GetIsExact` | Mystagram/Pods/leveldb-library/db/db_impl.cc:1112-1137 | in such a run, a Get that looks at the two memtables at different moments and then, file by file, into whatever tables its pinned version consists of returns the last write of the key in the groups before its snapshot |
| `Database.AnswersStand` | Mystagram/Pods/leveldb-library/db/memtable.cc:100-134 | what a pinned memtable answers at a snapshot does not change while newer entries are inserted |
| `History.ReadsTheState` | Mystagram/Pods/leveldb-library/db/db_impl.cc:1212-1237 | reading the written entries at a group boundary gives the map that the groups, applied one after the other, leave behind |
| `History.ReadsAnEarlierState` | Mystagram/Pods/leveldb-library/db/db_impl.cc:1104-1110 | and at an earlier boundary the map of the groups before it |
| `Layers.SearchIsView` | Mystagram/Pods/leveldb-library/db/db_impl.cc:1125-1137 | searching memtable, immutable memtable and version in turn gives the newest entry at or below the snapshot in all of them |
| `Layers.VersionDecides` | Mystagram/Pods/leveldb-library/db/version_set.cc:326-421 | an answer that is the newest of its depth, with nothing at smaller depths, is the version's, because entries of smaller depth are newer |
| `Layers.FlushKeepsLayers` | Mystagram/Pods/leveldb-library/db/version_set.cc:491-516 | the places a memtable table may go to, by its range, keep the age order and the entries |
| `Layers.FlushKeepsJob` | Mystagram/Pods/leveldb-library/db/db_impl.cc:911-923 | a flush in the middle of a compaction leaves its inputs closed and its base levels valid |
| `Layers.InstallKeepsReads` | Mystagram/Pods/leveldb-library/db/db_impl.cc:860-876 | for every key and every snapshot at or above the smallest, a read of all layers is the same before and after the results are installed |
| `Layers.InstallKeepsReadsExactly` | Mystagram/Pods/leveldb-library/db/db_impl.cc:860-876 | whatever tables were chosen, the installation keeps every read of a key at or above the smallest snapshot if and only if it drops no deletion marker that covers an older value in a layer that is no input |
| `Layers.FlushKeepsApart` | Mystagram/Pods/leveldb-library/db/version_set.cc:491-516 | the level that is picked for a memtable has no table that the new one reaches into |
| `Layers.InstallKeepsApart` | Mystagram/Pods/leveldb-library/db/db_impl.cc:860-876 | the outputs of a compaction whose inputs leave the rest of the output level aside reach into no other table |
| `Layers.FlushAndInstall` | Mystagram/Pods/leveldb-library/db/db_impl.cc:911-923 | after a flush in mid-compaction, the tables are apart however the outputs are cut, if and only if the memtable did not go between the outputs at their level |
| `Layers.FlushKeepsKeptAside` | Mystagram/Pods/leveldb-library/db/db_impl.cc:911-923 | a flush in mid-compaction that does not go between the kept entries leaves every other table of the output level wholly before or wholly behind them |
| `Layers.InstallKeepsLayers` | Mystagram/Pods/leveldb-library/db/db_impl.cc:860-876 | newer layers still hold newer entries |
| `Layers.OnRecordGrounds` | Mystagram/Pods/leveldb-library/db/version_set.cc:1533-1552 | a key that a recorded deeper file spans is not at its base level |
| `Layers.MoveKeepsLayers` | Mystagram/Pods/leveldb-library/db/db_impl.cc:719-727 | moving one table down keeps the age order and the entries |
| `Layers.MoveKeepsApart` | Mystagram/Pods/leveldb-library/db/db_impl.cc:719-727 | and keeps the tables of each level apart |
| `FileSelection.GetOverlappingInputs` | Mystagram/Pods/leveldb-library/db/version_set.cc:519-559 | exactly the tables that meet a range: above level 0 the given one, at level 0 the least range round it that no such table sticks out of; the restarts end |
| `FileSelection.AddBoundaryInputs` | Mystagram/Pods/leveldb-library/db/version_set.cc:1378-1401 | adds, one after the other, the first table of the level that goes on with the last user key, until there is none, and nothing else; leaves no gap |
| `FileSelection.FindSmallestBoundaryFile` | Mystagram/Pods/leveldb-library/db/version_set.cc:1344-1362 | the boundary table with the smallest key, or none exactly if there is no boundary table |
| `FileSelection.GetRange` | Mystagram/Pods/leveldb-library/db/version_set.cc:1205-1226 | the least and the greatest key of a list of tables |
| `FileSelection.SetupOtherInputs` | Mystagram/Pods/leveldb-library/db/version_set.cc:1403-1462 | the tables it is given, with their boundary tables, are taken, and of the lower level exactly those that meet their range; or all of the upper level in the range of both, exactly if these are more, stay below the size limit and add nothing to the lower level |
| `FileSelection.PickCompaction` | Mystagram/Pods/leveldb-library/db/version_set.cc:1270-1322 | takes the first table that ends behind the compact pointer, or the first of all if there is none, with what comes along |
| `FileSelection.PickTable` | Mystagram/Pods/leveldb-library/db/version_set.cc:1296-1322 | takes the picked table, at level 0 with all tables that meet it, and those, and so on, and with what comes along |
| `FileSelection.CompactRange` | Mystagram/Pods/leveldb-library/db/version_set.cc:1464-1495 | finds inputs exactly if a table of the level meets the range; at level 0 takes every table that does, above it the first ones, up to the one that reaches the size limit, with what comes along |
| `FileSelection.FindsFirst` | Mystagram/Pods/leveldb-library/db/version_set.cc:88-106 | in tables one behind the other the binary search finds the first that does not end before the key |
| `FileSelection.OverlapInLevel` | Mystagram/Pods/leveldb-library/db/version_set.cc:122-158 | true exactly if a table meets the range, by a scan or by one binary search |
| `FileSelection.PickLevelForMemTableOutput` | Mystagram/Pods/leveldb-library/db/version_set.cc:491-516 | as deep as one can go without a table that meets the range, there or above, and without too much of it in the level below the next, but to level 2 at most |
| `ChosenJobs.ChosenFits` | Mystagram/Pods/leveldb-library/db/version_set.cc:1403-1462 | the inputs that are chosen leave the rest of the output level aside, and leave no entry of intermediate age behind if and only if no table of the output level goes on with the last user key of one taken |
| `ChosenJobs.ChosenMoves` | Mystagram/Pods/leveldb-library/db/db_impl.cc:718-735 | a single chosen table that meets none of the next level may be moved there |
| `ChosenJobs.PickedFits` | Mystagram/Pods/leveldb-library/db/version_set.cc:491-516 | the level picked for a memtable suits its range |
| `ChosenJobs.BoundaryTableLeftBehind` | Mystagram/Pods/leveldb-library/db/version_set.cc:1403-1411 | a concrete version in which the choice takes the first of two tables that share a user key, drops its deletion, and the older value in the second is back |
| `VersionSearch.SearchFindsFirst` | Mystagram/Pods/leveldb-library/db/version_set.cc:326-421 | in a version whose tables are apart, the files that Get looks into, one per level above 0 and the newest that knows the key at level 0, give the answer of a search of all of them |
| `VersionSearch.LevelGet` | Mystagram/Pods/leveldb-library/db/version_set.cc:360-375 | one binary search and one file per level |
| `VersionSearch.ZeroGet` | Mystagram/Pods/leveldb-library/db/version_set.cc:349-359 | at level 0 the tables whose range has the key, the newest first |
| `VersionSearch.TableGet` | Mystagram/Pods/leveldb-library/db/version_set.cc:263-276 | what SaveValue makes of the entry that a seek in a table finds |
| `VersionSearch.FlushIntoCompaction` | Mystagram/Pods/leveldb-library/db/version_set.cc:360-371 | a concrete version, the inputs that CompactRange chooses in it, and a memtable that PickLevelForMemTableOutput puts between their outputs, after which Get looks into the wrong table and misses the value |
| `FlushedReads.GetStaysRight` | Mystagram/Pods/leveldb-library/db/db_impl.cc:911-923 | a memtable of new keys is flushed in mid-compaction: however the outputs are then cut, and for every list of the files, every Get answers as a search of everything would, if and only if the memtable does not go between the kept entries at their level |
| `VersionFiles.ReaderHasFiles` | Mystagram/Pods/leveldb-library/db/version_set.cc:326-421 | the version that a reader has pinned, at any moment of a run, is a list of files for each level, so that GetIsExact speaks of every Get |
| `VersionFiles.CurrentIsOrderly` | Mystagram/Pods/leveldb-library/db/version_set.cc:1403-1462 | the current version of any reachable state is a list of files that describes it, so that what is said of the choice of inputs holds of every choice |
| `VersionFiles.ChosenStarts` | Mystagram/Pods/leveldb-library/db/version_set.cc:1403-1462 | of such a version, what the code chooses may be started as a compaction if and only if no boundary table is left at the output level |
| `DbGet.Get` | Mystagram/Pods/leveldb-library/db/db_impl.cc:1121-1137 | the value delivered is the view of the union of the layers at the snapshot |
| `VersionSearch.VersionGet` | Mystagram/Pods/leveldb-library/db/version_set.cc:326-421 | the loop over levels answers as the first level that knows the key |
| `MemTables.MemTable.Get` | Mystagram/Pods/leveldb-library/db/memtable.cc:100-134 | one seek answers with the newest entry of the key at or below the snapshot; unknown exactly when there is none |
| `MemTables.MemTable.Add` | Mystagram/Pods/leveldb-library/db/memtable.cc:75-98 | the contents grow by exactly the new entry |
| `MemTables.MemTable.SeekFindsNewest` | Mystagram/Pods/leveldb-library/db/memtable.cc:104-118 | the first node at or after (key, snapshot, value) is the newest visible entry of the key, or there is none |
| `InternalKeys.KeyRoundTrip` | Mystagram/Pods/leveldb-library/db/dbformat.h:165-175 | ParseInternalKey gets back what AppendInternalKey packed, for every 56-bit sequence number, and fails exactly for other type bytes |
| `InternalKeys.CompareIsBefore` | Mystagram/Pods/leveldb-library/db/dbformat.cc:51-67 | comparing packed numbers is ordering by user key up, sequence down, type down, also for keys that do not parse |
| `InternalKeys.SeekKeySplits` | Mystagram/Pods/leveldb-library/db/dbformat.cc:121-138 | an entry comes before the lookup key of a snapshot exactly when the snapshot does not see it |
| `InternalKeys.SeparatorSeparates` | Mystagram/Pods/leveldb-library/db/dbformat.cc:69-86 | the shortened separator lies at or after start and before limit |
| `InternalKeys.SuccessorFollows` | Mystagram/Pods/leveldb-library/db/dbformat.cc:88-101 | the shortened successor is not before the key |
| `CompactionRules.CompactionPreservesReads` | Mystagram/Pods/leveldb-library/db/db_impl.cc:929-964 | a compaction keeps every read of a key at or above the smallest snapshot, whatever else is stored, if and only if no unparseable key stands between a droppable deletion and an older value of it |
| `CompactionRules.ParseableCompactionPreservesReads` | Mystagram/Pods/leveldb-library/db/db_impl.cc:929-964 | in particular when every key parses |
| `CompactionRules.ReadsKeptExactly` | Mystagram/Pods/leveldb-library/db/db_impl.cc:929-964 | with the other layers given, whatever their age, it keeps every read of a key at or above the smallest snapshot if and only if it drops no marker that covers a value of theirs |
| `CompactionRules.NothingSpare` | Mystagram/Pods/leveldb-library/db/db_impl.cc:929-964 | nothing is kept that no read needs: of a key at most one entry at or below the smallest snapshot, and no deletion marker there unless a deeper table may have the key |
| `CompactionRules.UnparseableKeyResurrects` | Mystagram/Pods/leveldb-library/db/db_impl.cc:931-935 | a concrete input for which a deleted value comes back |
| `CompactionRules.KeptMembers` | Mystagram/Pods/leveldb-library/db/db_impl.cc:949-961 | an entry is kept exactly if no rule drops an occurrence of it |
| `CompactionRules.KeptSorted` | Mystagram/Pods/leveldb-library/db/db_impl.cc:904-1004 | what is kept stays sorted |
| `CompactionWork.Compaction.IsBaseLevelForKey` | Mystagram/Pods/leveldb-library/db/version_set.cc:1533-1552 | with pointers that only move forward, queries in key order are answered exactly: no deeper file spans the key |
| `CompactionWork.CompactionState.DecideDrop` | Mystagram/Pods/leveldb-library/db/db_impl.cc:931-964 | the three local variables decide each entry as the rules say |
| `CompactionWork.CompactionState.DoCompactionWork` | Mystagram/Pods/leveldb-library/db/db_impl.cc:878-1024 | on success the outputs have new numbers, are finished, non-empty, registered under their exact first and last key, pending, and together hold exactly the kept entries in order |
| `CompactionWork.CompactionState.Emit` | Mystagram/Pods/leveldb-library/db/db_impl.cc:976-1001 | one kept entry goes to the end of the outputs, opening and closing tables as needed |
| `CompactionWork.CompactionState.OpenCompactionOutputFile` | Mystagram/Pods/leveldb-library/db/db_impl.cc:786-809 | a new output gets a number that was not pending, and is pending from the start; no two outputs share a number |
| `CompactionWork.CompactionState.FinishCompactionOutputFile` | Mystagram/Pods/leveldb-library/db/db_impl.cc:811-858 | finishing a table keeps what was written |
| `CompactionWork.OutputsDisjoint` | Mystagram/Pods/leveldb-library/db/db_impl.cc:978-1001 | all of one output comes before all of the next |
| `CompactionWork.CompactedTables` | Mystagram/Pods/leveldb-library/db/db_impl.cc:878-1024 | the outputs are sorted, ordered among each other, and show every admissible read what the inputs did |
| `DbIter.TableIsTheView` | Mystagram/Pods/leveldb-library/db/db_iter.cc:168-198 | the cursor's table is the map of visible keys: ascending, holding u with v exactly if a read of u finds v |
| `DbIter.DBIter.Next` | Mystagram/Pods/leveldb-library/db/db_iter.cc:141-166 | moves to the next row, from either direction, or becomes invalid after the last; an unparseable key passed on the way is reported |
| `DbIter.DBIter.Prev` | Mystagram/Pods/leveldb-library/db/db_iter.cc:200-225 | moves to the row before, from either direction, or becomes invalid before the first; an unparseable key that is scanned is reported, versions of the current key that are stepped over are not looked at |
| `DbIter.DBIter.FindNextUserEntry` | Mystagram/Pods/leveldb-library/db/db_iter.cc:168-198 | skips hidden, deleted, invisible and unparseable entries to the next row; the status is corrupt afterwards exactly if it was before or an unparseable key was met |
| `DbIter.DBIter.FindPrevUserEntry` | Mystagram/Pods/leveldb-library/db/db_iter.cc:227-267 | scans back over all versions of a key and saves the one that is visible; the status is corrupt afterwards exactly if it was before or an unparseable key was met |
| `DbIter.DBIter.Seek` | Mystagram/Pods/leveldb-library/db/db_iter.cc:269-281 | stands on the first row at or after the target |
| `DbIter.DBIter.SeekToFirst` | Mystagram/Pods/leveldb-library/db/db_iter.cc:283-292 | stands on the first row |
| `DbIter.DBIter.SeekToLast` | Mystagram/Pods/leveldb-library/db/db_iter.cc:294-299 | stands on the last row |
| `DbIter.DBIter.Key` | Mystagram/Pods/leveldb-library/db/db_iter.cc:64-67 | the key of the row, in both directions |
| `DbIter.DBIter.Value` | Mystagram/Pods/leveldb-library/db/db_iter.cc:68-71 | the value of the row, in both directions |
| `DbIter.DBIter.ParseKey` | Mystagram/Pods/leveldb-library/db/db_iter.cc:122-139 | fails exactly on an unparseable key, and then, and only then, sets the status |
| `DbIter.WriterInserts` | Mystagram/Pods/leveldb-library/db/db_iter.cc:141-267 | entries above the iterator's sequence number that writers insert meanwhile leave it on its row |
| `LogFormat.ReadsBack` | Mystagram/Pods/leveldb-library/db/log_writer.cc:82-109 | a physical record reads back as it was written |
| `LogFormat.FragmentsPlaced` | Mystagram/Pods/leveldb-library/db/log_writer.cc:34-80 | every fragment follows exactly the trailer its place requires and ends in its block |
| `LogFormat.FragmentsOfAllConcat` | Mystagram/Pods/leveldb-library/db/log_writer.cc:27-30 | writing a list of records and then, resumed at the length reached, another is writing them all |
| `LogWriter.Writer.AddRecord` | Mystagram/Pods/leveldb-library/db/log_writer.cc:34-80 | whatever appends and flushes fail, in this call or an earlier one: appends the fragments of the record at the writer's place, all of each but the last tried, of the last and of the trailer any prefix; the place advances as if all had got through; the loop ends for every length |
| `LogWriter.Writer.EmitPhysicalRecord` | Mystagram/Pods/leveldb-library/db/log_writer.cc:82-109 | appends header and payload, or on an error a prefix of them, and advances the block offset in any case |
| `LogWriter.AddRecords` | Mystagram/Pods/leveldb-library/db/log_writer.cc:23-30 | from an empty file or resumed, the file then spells the records |
| `LogWriter.SamePlaces` | Mystagram/Pods/leveldb-library/db/log_writer.cc:23-30 | the fragments of a record depend on the place in the block only |
| `LogReader.Reader.ReadRecord` | Mystagram/Pods/leveldb-library/db/log_reader.cc:56-174 | each call answers with the next record of the reading of the file, with the reports that lead to it, and its offset |
| `LogReader.Reader.ReadPhysicalRecord` | Mystagram/Pods/leveldb-library/db/log_reader.cc:189-270 | one physical record, end or bad record, as parsing the file at that offset says |
| `LogReader.Reader.SkipToInitialBlock` | Mystagram/Pods/leveldb-library/db/log_reader.cc:33-54 | starts at the block that can hold the first header at or after the offset |
| `LogReplay.RoundTrip` | Mystagram/Pods/leveldb-library/db/log_reader.cc:56-174 | any list of records of any lengths reads back as written, with no report |
| `LogReplay.CrashPrefix` | Mystagram/Pods/leveldb-library/db/log_reader.cc:206-233 | on any byte prefix the reader returns exactly the records whose last fragment lies in it, and reports nothing |
| `LogReplay.PrefixOfRecords` | Mystagram/Pods/leveldb-library/db/db_impl.cc:418-453 | and these are a prefix of the records, each whole |
| `LogReplay.Replay` | Mystagram/Pods/leveldb-library/db/db_impl.cc:424-453 | the loop of calls delivers the whole reading of the file and ends |
| `LogFailures.AppendingUnreadsNothing` | Mystagram/Pods/leveldb-library/db/log_reader.cc:189-270 | whatever is appended to a log, in whatever state, the records that were read of it are still read first |
| `LogFailures.InStepReadsBack` | Mystagram/Pods/leveldb-library/db/log_writer.cc:34-80 | behind a file on which reading comes to the end however it goes on, records written in their places are all read back, in order and last |
| `LogFailures.CallKeepsStep` | Mystagram/Pods/leveldb-library/db/log_writer.cc:82-109 | a call that leaves the end of the file at the writer's place in the block keeps the log so |
| `LogMisplaced.ReadBackExactly` | Mystagram/Pods/leveldb-library/db/log_writer.cc:34-109 | after any one call, failed or not, on a log in step: everything written later is read back if and only if the file ends at the writer's place in the block |
| `LogMisplaced.HealsExactly` | Mystagram/Pods/leveldb-library/db/log_writer.cc:34-109 | whatever is on the file, after any number of calls that failed or not: everything written from the next block on is read back, if and only if the file ends at the writer's place in the block |
| `LogMisplaced.MisplacedLoses` | Mystagram/Pods/leveldb-library/db/log_reader.cc:189-270 | behind any file that does not, some record written later is lost, whatever the checksum is and whether or not it is verified |
| `LogMisplaced.LostAfterFailure` | Mystagram/Pods/leveldb-library/db/log_writer.cc:82-109 | a call that fails and leaves nothing behind, and a later one that succeeds and whose record is lost |
| `LogMisplaced.LostTrailer` | Mystagram/Pods/leveldb-library/db/log_writer.cc:44-48 | a trailer whose append fails unnoticed, and the record of the same successful call is lost |
| `LogGenuine.ReadsOnlyWritten` | Mystagram/Pods/leveldb-library/db/log_reader.cc:59-187 | in a file with fragments anywhere and anything else between, with checksums that are right nowhere else, the records read are some of those whose fragments are all there, in order |
| `LogCalls.SureIsFound` | Mystagram/Pods/leveldb-library/db/log_writer.cc:34-80 | a record whose call succeeded while the log was in step is found at its offset, whatever is called later and whatever becomes of it |
| `LogCalls.ReadsWhatWasWritten` | Mystagram/Pods/leveldb-library/db/log_writer.cc:34-109 | of any run of calls, any of which may fail in any way: what is read are records written whole, in the order of the calls and each once, and among them every one whose call succeeded in step |
| `Ledgers.ReadableIsKept` | Mystagram/Pods/leveldb-library/db/db_impl.cc:1219-1236 | for the log of any such run, the groups that the state machine takes to be in it for sure are found in its bytes, and what is found are groups that it takes to be in it for sure or perhaps |
| `LogDamage.ReadsWhatSurvives` | Mystagram/Pods/leveldb-library/db/log_reader.cc:71-173 | whatever damage the length, type or checksum test catches in blocks that are not the last, and from whatever offset, the reader returns exactly the records with no fragment lost, in order, and never joins fragments across the damage |
| `LogDamage.InitialOffset` | Mystagram/Pods/leveldb-library/db/log_reader.cc:33-54 | on an intact log it returns exactly the records that begin at or after the offset, for offsets in trailers and inside fragments too |
| `LogDamage.FromOffsetIsSuffix` | Mystagram/Pods/leveldb-library/db/log_reader.cc:80-89 | and these are a suffix of the records |
| `LogReports.ReportsExactly` | Mystagram/Pods/leveldb-library/db/log_reader.cc:56-270 | exactly what is reported of any file: at each place that the reader visits, the rest of a block given up for its length or checksum, what was read of a record that is cut off there, a middle or end without its beginning, an unknown type; nothing else |
| `LogReports.DamageIsReported` | Mystagram/Pods/leveldb-library/db/log_reader.cc:206-256 | a block that is given up for a length that does not fit or a wrong checksum is reported, with its size |
| `LogReports.CutOffIsReported` | Mystagram/Pods/leveldb-library/db/log_reader.cc:152-158 | a record of which some fragments were read before the damage is reported too, with the size of these |
| `LogReports.FirstDamageIsReported` | Mystagram/Pods/leveldb-library/db/log_reader.cc:240-256 | in a log whose first fragments are as AddRecord wrote them, damage to the next one is reported |
| `LogReports.StartsWithBlock` | Mystagram/Pods/leveldb-library/db/log_reader.cc:33-54 | reading begins with the block of the offset, or with the next one if the offset is in a trailer |
| `SkipLists.SkipList.FindGreaterOrEqual` | Mystagram/Pods/leveldb-library/db/skiplist.h:261-281 | the least node at or after the key, and on every level in use the last node before it |
| `SkipLists.SkipList.FindLessThan` | Mystagram/Pods/leveldb-library/db/skiplist.h:284-302 | the last node before the key, or the head |
| `SkipLists.SkipList.FindLast` | Mystagram/Pods/leveldb-library/db/skiplist.h:305-322 | the last node, or the head |
| `SkipLists.SkipList.Contains` | Mystagram/Pods/leveldb-library/db/skiplist.h:371-378 | exactly if some node compares equal |
| `SkipLists.SkipList.Prepare` | Mystagram/Pods/leveldb-library/db/skiplist.h:361-365 | the store into the unpublished node keeps every level sorted, linked and within the one below |
| `SkipLists.SkipList.Publish` | Mystagram/Pods/leveldb-library/db/skiplist.h:361-367 | the publishing store inserts the node at its place of one level and keeps the same |
| `SkipLists.Iterator.Prev` | Mystagram/Pods/leveldb-library/db/skiplist.h:213-221 | steps back by a search, or off the front |
| `SkipLists.Iterator.Seek` | Mystagram/Pods/leveldb-library/db/skiplist.h:224-226 | stands on the first node at or after the target |
| `SkipLists.Iterator.SeekToLast` | Mystagram/Pods/leveldb-library/db/skiplist.h:234-239 | stands on the last node, or nowhere in an empty list |
| `SkipListRace.Inserter.Step` | Mystagram/Pods/leveldb-library/db/skiplist.h:348-367 | after each single store of an insertion the list is valid and no level has lost a node |
| `SkipListRace.Insert` | Mystagram/Pods/leveldb-library/db/skiplist.h:337-368 | the bottom level is the old one with the new node inserted in order |
| `SkipListRace.Reader.Step` | Mystagram/Pods/leveldb-library/db/skiplist.h:266-280 | one load keeps a lookup on a node before the key, moves it on, and when it answers, the answer is right at that load |
| `SkipListRace.Race` | Mystagram/Pods/leveldb-library/db/skiplist.h:337-368 | with any number of insertions going on, and an old or new max_height_, a lookup answers with the least node at or after the key at its last load, and passes over none that was there when it began |
| `SkipListRace.RandomHeight` | Mystagram/Pods/leveldb-library/db/skiplist.h:242-252 | between 1 and 12 |
| `SnapshotLists.SnapshotList.New` | Mystagram/Pods/leveldb-library/db/snapshot.h:57-70 | appends to the ring, which stays linked both ways and in order |
| `SnapshotLists.SnapshotList.Delete` | Mystagram/Pods/leveldb-library/db/snapshot.h:79-86 | unlinks one and leaves the others as they were |
| `SnapshotLists.SnapshotList.Oldest` | Mystagram/Pods/leveldb-library/db/snapshot.h:47-50 | the least number of all |
| `SnapshotLists.SnapshotList.Newest` | Mystagram/Pods/leveldb-library/db/snapshot.h:51-54 | the greatest number of all |
| `SkipListRace.Inserter.Raise` | Mystagram/Pods/leveldb-library/db/skiplist.h:348-359 | the height of the list grows to that of the new node, before any link to it |
| `WriteQueue.BuildBatchGroup` | Mystagram/Pods/leveldb-library/db/db_impl.cc:1260-1306 | the concatenation, in queue order, of the batches of the longest run of writers from the front none of which is barred by the sync or the size rule |
| `WriteQueue.GroupIsFair` | Mystagram/Pods/leveldb-library/db/db_impl.cc:1280-1293 | a non-sync leader takes no sync writer along, and a group of several batches has at most 1 MiB, and adds at most 128 KiB to a small first batch |
| `WriteQueue.GroupIsLongest` | Mystagram/Pods/leveldb-library/db/db_impl.cc:1266-1293 | the group ends only where the next writer would break one of these rules |
| `WriteQueue.Queue.Join` | Mystagram/Pods/leveldb-library/db/db_impl.cc:1185-1195 | joining does not disturb a leader that is away from the mutex |
| `WriteQueue.Queue.Wake` | Mystagram/Pods/leveldb-library/db/db_impl.cc:1193-1198 | a thread leaves the wait loop only when it is done or at the front; over every interleaving of arrivals, wake-ups, groups and departures, whoever is past the loop is the front of the queue, so that it is one at most |
| `WriteQueue.Queue.Lead` | Mystagram/Pods/leveldb-library/db/db_impl.cc:1201-1210 | a writer that has made room takes its group, or leaves alone with its status; that it is the front and nobody is away from the mutex follows from the wait loop |
| `WriteQueue.Queue.Finish` | Mystagram/Pods/leveldb-library/db/db_impl.cc:1234-1256 | the group of the writer that comes back leaves the queue, its sequence numbers are used up, and every follower is told the leader's status |
| `WriteQueue.AppliedOnceInOrder` | Mystagram/Pods/leveldb-library/db/db_impl.cc:1185-1256 | when nothing fails, the ops of all turns are the batches of all writers that have left, each once, in the order in which they came |
| `WriteQueue.TurnsAreDisjoint` | Mystagram/Pods/leveldb-library/db/db_impl.cc:1207-1213 | the sequence numbers of different turns do not overlap |
| `WriteQueue.BatchIsWhole` | Mystagram/Pods/leveldb-library/db/db_impl.cc:1287-1301 | each writer's batch is one contiguous stretch of its turn |
| `Durability.RunKeepsStore` | Mystagram/Pods/leveldb-library/db/db_impl.cc:1185-1256 | over every run, with failing log appends and syncs, torn logs, failing flushes and compactions, garbage collection, crashes of the process or the machine, and recoveries: the manifest's tables and the logs from its log number on hold what memory holds, every table of a pinned version and every output in progress exists, and outputs are protected |
| `Durability.OpenedFine` | Mystagram/Pods/leveldb-library/db/db_impl.cc:1474-1505 | a new database starts in such a state |
| `Durability.EventKeepsStore` | Mystagram/Pods/leveldb-library/db/db_impl.cc:223-278 | each event keeps that |
| `Durability.RunKeepsAcknowledged` | Mystagram/Pods/leveldb-library/db/db_impl.cc:1219-1236 | however often the process crashes and recovers in a run, no group that was acknowledged on a log in step is lost |
| `Durability.RunKeepsSynced` | Mystagram/Pods/leveldb-library/db/db_impl.cc:1219-1236 | however often the process or the machine stops in a run, no group that was acknowledged and has been synced is lost |
| `Durability.MayBeLostToPower` | Mystagram/Pods/leveldb-library/db/db_impl.cc:1222-1236 | exactly which acknowledged groups may be gone when the machine stops: those in no table and not synced |
| `Durability.SyncLogFine` | Mystagram/Pods/leveldb-library/db/db_impl.cc:1222-1226 | a sync of the log that succeeds keeps the store in order |
| `Durability.EventKeepsTidy` | Mystagram/Pods/leveldb-library/db/db_impl.cc:299-369 | tables stay apart over crashes as well, but for flushes between what a running compaction keeps |
| `Durability.TornLogLoses` | Mystagram/Pods/leveldb-library/db/log_writer.cc:44-48 | a run in which a group is acknowledged on a log that has lost a trailer, after which a crash need not find it |
| `Durability.AppendRecordFine` | Mystagram/Pods/leveldb-library/db/db_impl.cc:1219-1227 | a log append that succeeds, fails, or leaves the log out of step |
| `Durability.FailSyncFine` | Mystagram/Pods/leveldb-library/db/db_impl.cc:1222-1236 | a failed sync: the record may or may not show up, and no further write is let in |
| `Durability.RefuseFine` | Mystagram/Pods/leveldb-library/db/db_impl.cc:1237-1256 | a group that the log refused uses up its sequence numbers and shows in no read |
| `Reopening.CrashRecoversTheState` | Mystagram/Pods/leveldb-library/db/db_impl.cc:299-369 | after a crash at any moment, every read of what recovery puts together is the state after the groups that survive, each of them whole |
| `Reopening.AcknowledgedSurvive` | Mystagram/Pods/leveldb-library/db/db_impl.cc:1219-1236 | and no group acknowledged on a log in step is missing from them |
| `Reopening.SureSurvive` | Mystagram/Pods/leveldb-library/db/db_impl.cc:345-361 | whatever else of the logs is found, every acknowledged group that is in tables, or in a log for sure, is there as it was |
| `Reopening.MayBeLost` | Mystagram/Pods/leveldb-library/db/log_writer.cc:44-48 | exactly which acknowledged groups a crash may lose: those in no table and with no record for sure in a log |
| `Reopening.MayReturn` | Mystagram/Pods/leveldb-library/db/db_impl.cc:1228-1236 | exactly which refused or unfinished groups a crash may bring back: those of which a log may have the record |
| `Reopening.ReopenedFine` | Mystagram/Pods/leveldb-library/db/db_impl.cc:1474-1505 | the tables that recovery makes, in front of the manifest's, a new log numbered above all others and the last sequence number found are a database in order, from which runs go on |
| `Reopening.ReopenedTidy` | Mystagram/Pods/leveldb-library/db/db_impl.cc:299-369 | with tables apart and no entry twice |
| `ReplayCuts.ReplayMakesCuts` | Mystagram/Pods/leveldb-library/db/db_impl.cc:371-489 | the tables that the replay of the logs cuts, with damage reported anywhere on the way, and the numbers that Recover gives out, are those of the reopened database |
| `ReplayCuts.ReplayFindsLast` | Mystagram/Pods/leveldb-library/db/db_impl.cc:435-439 | the higher of the manifest's last sequence number and the replay's, past any damage, covers exactly the groups that survive |
| `Durability.SwitchLogFine` | Mystagram/Pods/leveldb-library/db/db_impl.cc:1345-1366 | after a switch the logs of imm_ and mem_ are still the ones from the manifest's number on, and the new log is in step |
| `Durability.EndFlushFine` | Mystagram/Pods/leveldb-library/db/db_impl.cc:535-560 | a flushed table takes the place of its log |
| `Durability.InstallJobFine` | Mystagram/Pods/leveldb-library/db/db_impl.cc:860-876 | installed outputs exist and hold exactly the kept entries, cut into tables |
| `Durability.CollectGarbageFine` | Mystagram/Pods/leveldb-library/db/db_impl.cc:233-266 | collection spares every table of a pinned version, every pending output and every log that is still needed; it does not run between a flush and its installation, where the flushed table is pending no more |
| `Recovery.RecoverLogFile` | Mystagram/Pods/leveldb-library/db/db_impl.cc:371-489 | the tables made hold exactly what the log handed over, cut in order, and the last sequence number is the highest found; it fails only for an unwritable table or, with paranoid_checks, a bad log |
| `Recovery.NumberFiles` | Mystagram/Pods/leveldb-library/db/db_impl.cc:350-361 | the numbers given out to the tables of several logs ascend above the manifest's, and the new log's is above all of them and above every old log |
| `Recovery.CutsOfTwoLogs` | Mystagram/Pods/leveldb-library/db/db_impl.cc:351-361 | the tables of several logs, one after the other, are cut from all that the logs handed over, damage at their ends included |
| `Recovery.LaterTablesAreNewer` | Mystagram/Pods/leveldb-library/db/db_impl.cc:439-453 | the tables of one log are in the age order that Get relies on |
| `Recovery.MemTable.InsertFrom` | Mystagram/Pods/leveldb-library/db/write_batch.cc:42-80 | all ops that parse go in, with consecutive numbers, and a batch that is not intact is an error |
| `Recovery.Directory.DeleteObsoleteFiles` | Mystagram/Pods/leveldb-library/db/db_impl.cc:223-278 | exactly the files that Needed names stay, and after a background error all of them; CollectsGarbage says which these are |
| `Collection.CollectsGarbage` | Mystagram/Pods/leveldb-library/db/db_impl.cc:223-278 | in every state of a run: exactly the logs stay from the manifest's number on, the current one among them, and exactly the tables that a pinned version has or that are being written; the current manifest stays and older ones go; the directory is then that of the state machine's collection |
| `Background.DBImpl.MaybeScheduleCompaction` | Mystagram/Pods/leveldb-library/db/db_impl.cc:648-663 | a call is handed out exactly if there is work, nothing forbids it, and none is under way; then everything is settled |
| `Background.DBImpl.BackgroundCall` | Mystagram/Pods/leveldb-library/db/db_impl.cc:669-686 | when a call ends, whatever is left to do has been handed on, and a waiting imm_ was flushed or an error is on record; it always ends if there is a memtable to flush or no request |
| `Background.DBImpl.BackgroundCompaction` | Mystagram/Pods/leveldb-library/db/db_impl.cc:688-767 | one unit of work, which is a schedule of UnitOfWork's relation: its request is told that it is done exactly if nothing was found for it or the compaction failed, and no other is; it always ends if there is a memtable to flush, or no request, or nothing found |
| `Background.DBImpl.CompactMemTable` | Mystagram/Pods/leveldb-library/db/db_impl.cc:535-566 | imm_ is flushed and freed, or an error is on record and it is kept |
| `Background.DBImpl.SwitchMemTable` | Mystagram/Pods/leveldb-library/db/db_impl.cc:1345-1366 | imm_ is set only when it was free: no memtable is lost |
| `Background.DBImpl.MakeRoomForWrite` | Mystagram/Pods/leveldb-library/db/db_impl.cc:1310-1370 | on success there is room and the memtable was switched exactly if forced or full, and never while there were 12 level-0 tables or more; it waits only while a background call is on its way |
| `Background.DBImpl.OneOther` | Mystagram/Pods/leveldb-library/db/db_impl.cc:609-621 | what other threads do keeps everything settled |
| `UnitOfWork.SurvivedExactly` | Mystagram/Pods/leveldb-library/db/db_impl.cc:688-767 | over all schedules of one unit of background work with the sections of other threads: it survives every one if and only if there is a memtable to flush, or no request, or nothing to compact for it |
| `UnitOfWork.LosesRequest` | Mystagram/Pods/leveldb-library/db/db_impl.cc:754-766 | the schedule to the null pointer: a writer's sync fails while the compaction runs, RecordBackgroundError wakes the requester, and it takes its request back |
| `UnitOfWork.ScheduleOrderly` | Mystagram/Pods/leveldb-library/db/db_impl.cc:609-646 | whatever the schedule, the null pointer needs an error on record or a shutdown, and no request is told that it is done but the one that the unit found |
| `Varints.EncodeVarint` | Mystagram/Pods/nanopb/pb_encode.c:608-628 | writes the base 128 form, or fails exactly if it does not fit |
| `Varints.DecodeVarint` | Mystagram/Pods/nanopb/pb_decode.c:255-275 | the loop computes Decode64 and takes exactly the bytes used |
| `Varints.DecodeVarint32Eof` | Mystagram/Pods/nanopb/pb_decode.c:187-247 | the loop computes Decode32, with its eight-bit position, and sets eof exactly on an empty stream |
| `Varints.VarintRoundTrip` | Mystagram/Pods/nanopb/pb_decode.c:255-275 | every 64-bit value comes back from at most ten bytes, exactly those |
| `Varints.DecodersAgree` | Mystagram/Pods/nanopb/pb_decode.c:187-247 | where both decoders accept they use the same bytes and the results agree modulo 2^32 |
| `Varints.Varint32RoundTrip` | Mystagram/Pods/nanopb/pb_decode.c:187-247 | every 32-bit value and every sign-extended negative one is accepted |
| `Varints.Accepts32` | Mystagram/Pods/nanopb/pb_decode.c:187-247 | exactly which numbers the 32-bit decoder accepts, of every length, with the wrap-around of its eight-bit position |
| `Varints.AcceptedByOne` | Mystagram/Pods/nanopb/pb_decode.c:187-275 | exactly which numbers only one of the two decoders accepts |
| `Varints.OverlongAccepted` | Mystagram/Pods/nanopb/pb_decode.c:187-247 | an eleven-byte number that only the 32-bit one accepts |
| `Varints.AcceptsTenBytes` | Mystagram/Pods/nanopb/pb_decode.c:222-231 | in particular, exactly which ten-byte numbers it accepts |
| `Varints.LooseSignExtension` | Mystagram/Pods/nanopb/pb_decode.c:222-231 | one that is not a sign-extended 32-bit number is among them |
| `Varints.ZigZagRoundTrip` | Mystagram/Pods/nanopb/pb_encode.c:630-639 | zigzag is undone both ways for all 64-bit numbers |
| `Varints.OStream.Write` | Mystagram/Pods/nanopb/pb_encode.c:103-124 | bytes are taken exactly if they fit; a sizing stream only counts |
| `FieldIterators.FieldIter.Next` | Mystagram/Pods/nanopb/pb_common.c:20-76 | pData, pSize and required_field_index are those of a fresh walk |
| `FieldIterators.FieldsApart` | Mystagram/Pods/nanopb/pb_common.c:44-66 | outside unions, a field lies behind all that an earlier one has: each entry of its array, its pointer, or its value |
| `FieldIterators.NextField` | Mystagram/Pods/nanopb/pb_common.c:44-66 | the next field lies at its offset behind the space of the one before, or in the same place in a union |
| `FieldIterators.FieldIter.Find` | Mystagram/Pods/nanopb/pb_common.c:78-95 | ends, and finds a field exactly if a non-extension field has the tag (or the message is empty and the tag zero); otherwise stays where it was |
| `FieldIterators.FieldIter.CountRequired` | Mystagram/Pods/nanopb/pb_decode.c:1033-1050 | counts all required fields from wherever the iterator stands |
| `FieldIterators.AllRequiredSeen` | Mystagram/Pods/nanopb/pb_decode.c:1052-1072 | passes exactly if each of the first 64 required fields was seen |
| `FieldIterators.MarkSeen` | Mystagram/Pods/nanopb/pb_decode.c:1015-1020 | sets exactly the bit of one required field below 64 |
| `Encode.PbEncode` | Mystagram/Pods/nanopb/pb_encode.c:528-550 | succeeds exactly if nothing is refused and the encoding fits, and then appends exactly the encoding |
| `Encode.SizeThenEncode` | Mystagram/Pods/nanopb/pb_encode.c:567-576 | the sizing pass succeeds exactly if every array and all bytes, at every depth, are within their room; encoding into n bytes exactly if it does with a size of at most n, and writes exactly that many |
| `Capacities.EncodableExactly` | Mystagram/Pods/nanopb/pb_encode.c:147-160 | what is refused: exactly a message in which some array, at any depth, has more entries than there is room for, or some bytes are longer than theirs |
| `WireFormat.VarintIsBase128` | Mystagram/Pods/nanopb/pb_encode.c:608-628 | the groups of seven bits, least significant first, are those of the number, every byte but the last says that more follow, and none is superfluous |
| `WireFormat.OneVarint` | Mystagram/Pods/nanopb/pb_encode.c:608-628 | no other string of that form is the same number |
| `WireFormat.FixedIsLittleEndian` | Mystagram/Pods/nanopb/pb_encode.c:641-676 | fixed widths are written least significant byte first |
| `WireFormat.ExamplePacked` | Mystagram/Pods/nanopb/pb_encode.c:162-205 | the packed example of the Encoding specification |
| `WireFormat.ExampleMessage` | Mystagram/Pods/nanopb/pb_encode.c:717-765 | its example of a message inside a message |
| `Encode.EncodeSubmessage` | Mystagram/Pods/nanopb/pb_encode.c:717-765 | the length written is the length of what follows; the second pass never changes size |
| `Encode.EncodePackedArray` | Mystagram/Pods/nanopb/pb_encode.c:162-205 | the packed length is the length of the entries, by multiplication or by a sizing pass |
| `Encode.EncodeArray` | Mystagram/Pods/nanopb/pb_encode.c:147-236 | refuses exactly arrays with more entries than room, or with such an array or bytes too long inside an entry |
| `Encode.EncodeBasicField` | Mystagram/Pods/nanopb/pb_encode.c:341-426 | writes a field as its label and state require |
| `Encode.EncodeOne` | Mystagram/Pods/nanopb/pb_encode.c:769-907 | the encoder of each kind |
| `RoundTrip.MessageRoundTrip` | Mystagram/Pods/nanopb/pb_decode.c:928-1076 | a reader whose descriptors list any subset of the writer's fields, at every depth, gets exactly the projection of any message that was encoded, or refuses it exactly if it would have to read a string that fills its array |
| `RoundTrip.SameDescriptorRoundTrip` | Mystagram/Pods/nanopb/pb_decode.c:1078-1090 | with the same descriptor it gets the message back if and only if no string fills its array |
| `RoundTrip.FullStringRefused` | Mystagram/Pods/nanopb/pb_decode.c:1471-1504 | a concrete message that is encoded and then refused |
| `RoundTrip.SkipExact` | Mystagram/Pods/nanopb/pb_decode.c:321-331 | skipping passes over exactly one value |
| `RoundTrip.ValueRoundTrip` | Mystagram/Pods/nanopb/pb_decode.c:1321-1528 | a value of every kind comes back and nothing after it is touched, or it is a string that fills its array and is refused |
| `RoundTrip.NumberRoundTrip` | Mystagram/Pods/nanopb/pb_decode.c:1321-1432 | every number in the range of its field comes back |
| `DecodeStream.DecodeNoInit` | Mystagram/Pods/nanopb/pb_decode.c:928-1076 | for every message type, those without fields included, the loop with its iterator and bit set computes DecodeMessage |
| `RequiredFields.RequiredExactly` | Mystagram/Pods/nanopb/pb_decode.c:1033-1072 | a message is decoded, to the same values, exactly if it would be without the demand and each of its first 64 required fields occurs in the bytes, as a walk over keys and values finds them |
| `RequiredFields.NothingSent` | Mystagram/Pods/nanopb/pb_decode.c:1033-1072 | of no bytes at all a message is decoded exactly if it has no required field |
| `DecodedValues.DecodedFits` | Mystagram/Pods/nanopb/pb_decode.c:406-483 | whatever the bytes are: in what is decoded no array has more entries than room, no bytes are longer than theirs, every string leaves room for its final zero and every number is one of its type |
| `DecodedValues.DecodedComesBack` | Mystagram/Pods/nanopb/pb_decode.c:1078-1090 | whatever was decoded can be encoded, and is then received as it is |
| `DecodedValues.ReceivedExactly` | Mystagram/Pods/nanopb/pb_decode.c:1471-1504 | a message within its room comes back exactly if every string leaves room for its final zero |
| `Concatenation.Merges` | Mystagram/Pods/nanopb/pb_decode.c:928-1032 | one message behind another: the same as to decode the second into what the first left, where nothing is required any more |
| `ForeignBytes.LastWins` | Mystagram/Pods/nanopb/pb_decode.c:406-422 | of a field with one value the last occurrence counts |
| `ForeignBytes.SubmessageMerges` | Mystagram/Pods/nanopb/pb_decode.c:1506-1528 | but a submessage that occurs again is decoded into the one that is there |
| `ForeignBytes.OneMoreEntry` | Mystagram/Pods/nanopb/pb_decode.c:460-477 | an entry with its own key, of a packable kind as well, goes behind those that are there, as long as there is room |
| `ForeignBytes.MorePacked` | Mystagram/Pods/nanopb/pb_decode.c:423-459 | the entries of a packed array go behind those that are there, all or none |
| `ForeignBytes.BlobExactly` | Mystagram/Pods/nanopb/pb_decode.c:1434-1469 | bytes longer than their room are refused, whoever sent them |
| `ForeignBytes.TruncatedRefused` | Mystagram/Pods/nanopb/pb_decode.c:255-275 | a value of which any bytes are missing at the end is refused |
| `ForeignBytes.TruncatedNotSkipped` | Mystagram/Pods/nanopb/pb_decode.c:321-331 | and is not skipped |
| `ForeignBytes.OddWireTypeRefused` | Mystagram/Pods/nanopb/pb_decode.c:321-331 | an unknown field with any other wire type is refused |
| `ForeignBytes.ShortNegative` | Mystagram/Pods/nanopb/pb_decode.c:1332-1367 | a negative number of up to 32 bits may come without the upper half of its sign extension |
| `ForeignBytes.AnyBool` | Mystagram/Pods/nanopb/pb_decode.c:1321-1330 | any number but zero is true |
| `ForeignBytes.WireTypeIgnored` | Mystagram/Pods/nanopb/pb_decode.c:406-422 | the wire type of a known field decides between a packed array and an entry, and nothing else |
| `ForeignBytes.ZeroEnds` | Mystagram/Pods/nanopb/pb_decode.c:298-319 | a key of zero ends the message, whatever follows |
| `ForeignBytes.DefaultsAre` | Mystagram/Pods/nanopb/pb_decode.c:839-926 | what a field has that does not occur |
| `DecodeStream.DecodeInit` | Mystagram/Pods/nanopb/pb_decode.c:1078-1090 | pb_decode starts from the defaults and computes PbDecode |
| `DecodeStream.ReadSlot` | Mystagram/Pods/nanopb/pb_decode.c:406-483 | one field, packed or not, as DecodeSlot says |
| `DecodeStream.ReadValue` | Mystagram/Pods/nanopb/pb_decode.c:1434-1528 | one value as DecodeValue says; a submessage is read from a stream of its own |
| `DecodeStream.ReadNumber` | Mystagram/Pods/nanopb/pb_decode.c:1321-1432 | one number as DecodeNumber says |
| `DecodeStream.ReadTag` | Mystagram/Pods/nanopb/pb_decode.c:298-319 | a key, the end of the message, or an error |
| `DecodeStream.MakeSubstream` | Mystagram/Pods/nanopb/pb_decode.c:372-400 | the substream holds the delimited bytes and the parent goes on behind them |
| `DecodeStream.Skip` | Mystagram/Pods/nanopb/pb_decode.c:321-331 | one value of any wire type is passed over |

## Left out

- Application code, user interface and wrappers: no core.
- Env, files, mutex and condition variables: atomic steps, sequential consistency and abstract files; only a possibly old `max_height_` is kept from the C++ memory model.
- VersionSet, table files, table cache and WriteBatch encoding: contracts only. A version is a set of entries, each with the table that holds it and the depth at which Get finds it; LogAndApply is atomic, and one that fails has changed nothing; MakeInputIterator delivers the inputs sorted.
- FileSelection.PickCompaction: which level has the highest score is given; sizes are those of the files, and a limit on them is a parameter. The compact pointer decides where a compaction starts and nothing else.
- Database.RunOk: memtables and versions are values in the state machine; that the skip list and the tables answer as those values say is proved in `mem_table.dfy`, `version_search.dfy` and `db_get.dfy`. A compaction starts on inputs that leave no entry of intermediate age behind; ChosenJobs.ChosenFits says exactly when the inputs that are chosen do.
- Database.GetIsExact: unparseable keys cannot arise from writes and are therefore not in the machine; compaction and iteration treat them. Runs with a flush between what a running compaction keeps are left out, since the claim is false of them (FlushedReads.GetStaysRight, VersionSearch.FlushIntoCompaction).
- FlushedReads.GetStaysRight: the flushed memtable has values of keys that the version does not have; of other memtables, a wrong table may by chance hold the right answer. That a flush beside the kept entries is harmless is StepTidy for every memtable.
- Durability.RunKeepsStore: recovery is one step of the run; a crash in the middle of it leaves the manifest and the logs as they were, and the tables made so far unreferenced, so that the next recovery starts from the same state. Tables and the manifest are taken to be on disk once they are synced.
- Ledgers.ReadableIsKept: a reading with checksums, as recovery does, of bytes in which no checksum is right by accident (`Unforged`); a checksum that is right by accident can make a record that was never written.
- Recovery.RecoverLogFile: reusing the last log with `reuse_logs` is not modelled, and neither are the errors of opening files. A batch of no ops with the sequence number zero, which no writer makes, would wrap round in C++.
- Recovery.MemTable.InsertFrom: which ops of a batch parse, and whether it is intact, are given and not read from its bytes.
- CompactionWork.CompactionState.DoCompactionWork: ShouldStopBefore, table sizes, statistics and the shutdown flag are arbitrary; flushing imm_ in the middle is in `background.dfy` and `database.dfy`.
- LogReader.Reader.ReadRecord: read errors and failures of Skip do not occur, and it is not called again after the end when an initial offset was given and nothing was found.
- LogReader.Reader.ReadPhysicalRecord: a failing read of the file.
- LogReader.Reader.SkipToInitialBlock: a failing Skip and its report.
- LogWriter.Writer.AddRecord: a file whose append or flush fails drops what it has buffered, as PosixWritableFile does.
- LogMisplaced.ReadBackExactly: one call on a log in step, and so any number of calls up to the first that leaves it out of step. Of a log that is out of step already, LogMisplaced.HealsExactly says when everything is read back from the next block on, and LogCalls.ReadsWhatWasWritten what may be read; which records of the broken block are read is not stated.
- DbIter.DBIter.Next: the merged list is fixed but for invisible entries that writers insert; read sampling is left out.
- SkipListRace.Race: one lookup by FindGreaterOrEqual at a time; several lookups do not influence one another.
- SkipListRace.RandomHeight: the distribution of heights.
- WriteQueue.Queue.Lead: waiting in MakeRoomForWrite is in `background.dfy`; that a null batch forces a flush is not claimed, since it can be absorbed into an earlier group.
- Background.DBImpl.MakeRoomForWrite: the number of turns is bounded by a parameter, because waiting may go on for ever; fairness is not modelled.
- Background.DBImpl.BackgroundCompaction: which range a manual compaction has reached.
- InternalKeys.SeparatorSeparates: the user comparator's own separators are given; filters are left out.
- MemTables.MemTable.Add: the arena and the length-prefixed bytes of an entry.
- nanopb callbacks, extensions, pointer fields, oneofs, fixed-count arrays, fixed-length bytes, fields without has_ members of proto3, 32-bit-only builds and raw structure layout: messages are typed values indexed by descriptor. The iterator does model offsets, unions and pointer sizes.
- Varints.OStream.Write: a failing callback; byte counts are below 2^64, so that size_t does not overflow.
- Encode.PbEncode: sizes are below 2^64, so that size_t does not overflow.
- Encode.EncodeBasicField: oneofs, pointers and fields without has_ members.
- Encode.EncodeOne: fixed-length bytes.
- LogReports.ReportsExactly: which numbers of bytes are reported, not how often or with which words.
- Collection.CollectsGarbage: the manifest's own number is a parameter; PrevLogNumber is zero, as it always is since the engine writes one log at a time.
- RoundTrip.MessageRoundTrip: encodings are shorter than 2^32 bytes, as the decoder's 32-bit lengths require.
- Decode.Default: field defaults other than zero.
- Property queries, option clipping, info logging, repair, the C interface, dump tool and file names: plumbing.
