# LevelDB and nanopb, modelled and proved

The application in this repository stores its data through two vendored libraries: the LevelDB storage engine
(`QADS Cafe and Bar/Pods/leveldb-library`) and the nanopb protocol buffer codec (`QADS Cafe and Bar/Pods/nanopb`).
This Dafny project models both and proves that what they build agrees with simple specifications.
`dafny verify dfyconfig.toml` checks everything.

## LevelDB as a whole

An entry is a user key, a sequence number and a value or a deletion. A read of a key at sequence number s answers with the
newest entry of the key at or below s (`Format.Read`). The engine is a state machine (`Machine`, `Runs`): memtable and
immutable memtable, seven levels of table files, snapshots, pinned versions, write-ahead logs, manifest, a flush and a
compaction under way. Its steps are logging a batch, applying it, switching memtables, building and installing a flush,
building and installing a compaction, the trivial move, deleting obsolete files (or any part of them), taking and releasing
snapshots and versions, and a crash followed by recovery. The specification is a plain map updated by one operation after
another (`Runs.MapAt`).

The main results: every reachable state keeps the invariant (`Runs.ReachableInv`); a lookup through memtable, immutable
memtable and the levels one by one answers like the map at every live snapshot (`Runs.ReadsLikeMap`), and so does the
database object's own Get (`Service.GetLikeMap`); a crash after any run loses no logged operation (`Runs.Durable`,
`Service.GetAfterCrash`); and no needed file is ever deleted (`Runs.NothingNeededDeleted`).

They rest on input selection and level order (`Inputs`, `Setup`, `Selection`, `LevelOrder`), on the exact condition under
which a compaction preserves reads, stated on the drop rules (`Compaction.ReadsPreservedIff`) and on files
(`CompactionReads.CompactionKeepsReadsIff`), on the exact condition under which a flush keeps clear of a running compaction
(`Gaps.OutliesIffCovered`), and on recovery (`Recovery`, `Database`). `Background` joins selection, the merging iterator, the
compaction loop and the numbering of its outputs into a step of the state machine; `ManifestBuilder`, `ManifestRuns` and
`Service` carry the file lists of every reachable version along, from edit to edit and across a crash.

## The structures underneath

Each has its own module, in the imperative form of its source file, proved against a simple reference: skiplist with readers
between any two stores, memtable, write batch and group commit, LRU cache with its hash table and rings, block builder and
iterator, table builder and lookup with shortened separators, filter block and Bloom filter, merging, two-level and database
iterators, fragmenting log writer and reader, version edit codec, integer coding, and the strided CRC-32C (RFC 3720, section
12.1). User keys are compared through an order embedding into the reals; `Keys.LessIsBytewise` says what that order is
without it.

What the readers make of bytes no writer made is stated apart from their own definitions. `WireForms` names every constant
of the stored forms in numbers and examples. `Cuts` shows that a batch or a manifest record cut off anywhere, or with an
unknown tag or level, is refused. `CrcErrors` proves that any change of up to four consecutive bytes changes the checksum,
and `LogDamage` what such damage costs a log: the records that reach into the rest of the damaged block, and no others.

## nanopb

`Pb` gives field tables, structs and the wire form (Protocol Buffers Encoding, "Base 128 Varints" and "Message Structure").
`PbEncode` has the streams and encoding loops, `PbDecode` the meaning of decoding on any bytes, `PbDecoder` the decoding loops
and `PbRoundTrip` the connection: the sizing pass counts what the writing pass emits, and decoding restores the message.
`PbLaws` says in terms of the values alone which fields are written, what comes back, and that unknown fields anywhere change
nothing; `PbRefusals` what is refused: truncated messages, numbers and strings too large for their fields, arrays too long.

## Findings

Where the code does not do what its documentation, its comments or its callers count on. Each has a concrete input and the
exact condition under which the code is right.

| finding | input | exact condition |
|---|---|---|
| Input selection closes the inputs of the level under boundary files, but not those of the level below (`db/version_set.cc:1407-1411`). A compaction can then drop a deletion and leave the value it hid, so a deleted key is readable again. | `HazardRuns.DeletedKeyComesBack`: puts, a snapshot, a manual compaction and two flushes from a fresh database; then every selection does it | `CompactionReads.ExposedIff`, `CompactionReads.CompactionKeepsReadsIff`, on files that can be inspected before the compaction starts |
| A memtable flushed while a manual compaction runs may be placed at its output level inside a gap of its inputs (`db/db_impl.cc:907-918`, `db/version_set.cc:491-516`). Level files then overlap and a search of the level misses the newer entry. | `HazardRuns.FlushReachesGap`, `Hazards.SelectAroundGap`, `Hazards.FlushIntoGapOverlaps` | `Gaps.OutliesIffCovered`; compactions the database picks itself leave no gap (`Setup.PickCompaction`, `Background.FlushUnhindered`) |
| `VersionEdit::Clear` leaves the compaction pointers (`db/version_edit.cc:26-39`), so decoding into a used edit does not restore the encoded one. | any receiver that holds a compaction pointer | `VersionEdit.RoundTripIff` |
| The manifest builder brings a deleted file back when an edit reuses its number at the level (`db/version_set.cc:688-690`). No run of the database does (`ManifestRuns.ReachableNumbers`). | `ManifestBuilder.ReusedNumberComesBack` | `ManifestBuilder.AddIsExactIff` |
| nanopb writes an unterminated string in full, and then refuses to read the whole message back (`pb_decode.c`). | any text field without a zero byte among its stored bytes | `PbRoundTrip.StructBack` |

A writer with no batch that a leader absorbs into its group is completed without forcing a memtable switch; the group still
replays as its batches alone (`GroupCommit.Grouped`).

## Model

| member | source | states |
|---|---|---|
| Keys.Compare | QADS Cafe and Bar/Pods/leveldb-library/util/comparator.cc:25-27 | negative exactly when the first key is a proper prefix of the second or has the smaller byte where they first differ; positive in the opposite case; zero only for equal keys |
| Keys.LessIsBytewise | QADS Cafe and Bar/Pods/leveldb-library/include/leveldb/slice.h:101-111 | the order all of the project uses, said without its embedding into the reals: a proper prefix comes first, otherwise the first differing byte decides |
| Keys.FirstDifference | QADS Cafe and Bar/Pods/leveldb-library/include/leveldb/slice.h:101-111 | keys that differ inside both differ first at one place, and there the smaller byte makes the smaller key |
| Keys.RankCommon | QADS Cafe and Bar/Pods/leveldb-library/util/comparator.cc:25-27 | keys with a common prefix compare as their remainders do |
| Format.NewestIs | QADS Cafe and Bar/Pods/leveldb-library/db/dbformat.cc:51-67 | with one entry per user key and sequence number, the entry that no visible one exceeds is the newest: what a read at a sequence number means |
| Levels.TableGetIsNewest | QADS Cafe and Bar/Pods/leveldb-library/db/version_set.cc:263-276 | seeking to (key, s) in one table and comparing user keys returns the newest entry of the key at or below s in that table |
| Levels.FindFile | QADS Cafe and Bar/Pods/leveldb-library/db/version_set.cc:88-106 | binary search: everything before the result ends before the key, everything from it on does not |
| Levels.OnlyCandidate | QADS Cafe and Bar/Pods/leveldb-library/db/version_set.cc:365-380 | in a sorted level only the first file whose largest key reaches the lookup key can hold the newest visible entry; if its seek misses, no file of the level shows the key |
| Levels.Version.OverlappingLevel0 | QADS Cafe and Bar/Pods/leveldb-library/db/version_set.cc:349-364 | exactly the level-0 files covering the key, in descending file number |
| Levels.Version.SearchLevel | QADS Cafe and Bar/Pods/leveldb-library/db/version_set.cc:335-420 | given that no shallower level shows the key, the level's answer is the newest entry over ALL files, and a miss means no file of this level shows it |
| Levels.Version.Get | QADS Cafe and Bar/Pods/leveldb-library/db/version_set.cc:326-421 | level-by-level lookup returns what the newest entry at or below s over all files says: its value, or nothing for a deletion or no entry |
| Compaction.KeptExactly | QADS Cafe and Bar/Pods/leveldb-library/db/db_impl.cc:931-960 | an input entry is in the output exactly when the drop rules keep it |
| Compaction.ReadsPreservedIff | QADS Cafe and Bar/Pods/leveldb-library/db/db_impl.cc:890-996 | every read at or above the smallest snapshot is unchanged by the drop rules IF AND ONLY IF no dropped tombstone uncovers an older value outside the inputs |
| Compaction.OneVisibleKept | QADS Cafe and Bar/Pods/leveldb-library/db/db_impl.cc:931-944 | of the versions of one key at or below the smallest snapshot at most the newest is in the output |
| CompactionWork.BaseLevelCursor.IsBaseLevelForKey | QADS Cafe and Bar/Pods/leveldb-library/db/version_set.cc:1533-1552 | the advancing level cursors answer, for user keys asked in ascending order, whether any deeper level has a file whose range covers the key |
| CompactionWork.ShouldDrop | QADS Cafe and Bar/Pods/leveldb-library/db/db_impl.cc:931-960 | the branch on last_sequence_for_key drops the next entry exactly when the declarative rule drops it |
| CompactionWork.DoCompactionWork | QADS Cafe and Bar/Pods/leveldb-library/db/db_impl.cc:899-996 | draining the merging iterator yields exactly the inputs' entries in order, and the output files, wherever the size limits cut them, concatenate to exactly the entries the drop rules keep, none of them empty |
| CompactionWork.PartsOrdered | QADS Cafe and Bar/Pods/leveldb-library/db/db_impl.cc:974-996 | however the output is cut, the files are sorted and each lies wholly before the next |
| Inputs.GetOverlappingInputs | QADS Cafe and Bar/Pods/leveldb-library/db/version_set.cc:519-559 | terminates; at level 0 the result is exactly the files overlapping the LEAST range around the request that no overlapping file sticks out of, elsewhere exactly the overlapping files |
| Inputs.FindLargestKey | QADS Cafe and Bar/Pods/leveldb-library/db/version_set.cc:1326-1340 | the greatest largest key, or none for no files |
| Inputs.FindSmallestBoundaryFile | QADS Cafe and Bar/Pods/leveldb-library/db/version_set.cc:1344-1361 | the least file that starts after the key on the same user key, or none exactly when there is none |
| Inputs.AddBoundaryInputs | QADS Cafe and Bar/Pods/leveldb-library/db/version_set.cc:1378-1401 | adds no file twice, each added file is the smallest boundary file of those before it, ends with no boundary file left, leaves a user-closed set alone, and a block of a sorted level stays a block |
| Setup.ExpandInputs | QADS Cafe and Bar/Pods/leveldb-library/db/version_set.cc:1414-1426 | the wider choice contains every file of the level in the range of both halves, and is closed under boundary files |
| Setup.SetupOtherInputs | QADS Cafe and Bar/Pods/leveldb-library/db/version_set.cc:1403-1462 | the inputs at the level are closed and contain the seed, those below are exactly the overlapping ones; the wider choice replaces the first exactly when it has more files, stays under the size limit and adds none below; from a seed without a gap it opens none |
| Setup.TruncateInputs | QADS Cafe and Bar/Pods/leveldb-library/db/version_set.cc:1475-1487 | a manual compaction keeps the shortest prefix of its files that reaches the size limit |
| Setup.PickCompaction | QADS Cafe and Bar/Pods/leveldb-library/db/version_set.cc:1270-1323 | once a level and file are chosen, the inputs are closed, cover what they overlap below, contain the file, and leave no gap in their key range; both halves are exactly what SetupOtherInputs makes of that file, or at level 0 of all files in its closed range |
| Setup.CompactRange | QADS Cafe and Bar/Pods/leveldb-library/db/version_set.cc:1464-1495 | nothing is selected exactly when no file of the level overlaps the range; otherwise the inputs are closed and cover what they overlap below, and at level 0 they take every file in the range; above level 0 they come from the shortest prefix that reaches the size limit |
| Gaps.OutliesIffCovered | QADS Cafe and Bar/Pods/leveldb-library/db/db_impl.cc:907-918 | every table clear of the levels down to a compaction's output level lies to one side of its inputs IF AND ONLY IF each gap of the inputs is covered by some file of those levels |
| Gaps.GaplessGrows | QADS Cafe and Bar/Pods/leveldb-library/db/version_set.cc:1407-1442 | adding files that reach into the key range of a set without gaps opens none |
| Gaps.ClosureIsGapless | QADS Cafe and Bar/Pods/leveldb-library/db/version_set.cc:519-559 | the level-0 closure of a range without gaps has none: the range stops growing at a gap |
| Gaps.BoundaryIsGapless | QADS Cafe and Bar/Pods/leveldb-library/db/version_set.cc:1378-1401 | boundary files open no gap |
| Selection.SelectedInputsAreSafe | QADS Cafe and Bar/Pods/leveldb-library/db/version_set.cc:1403-1495 | whatever the two pickers select can be compacted without breaking the level order: files left at the level are newer, files left below lie wholly to one side |
| Selection.SomeFileOverlapsRange | QADS Cafe and Bar/Pods/leveldb-library/db/version_set.cc:122-155 | linear over overlapping files and by binary search over a sorted level alike: true exactly when some file overlaps the range |
| Selection.PickLevelForMemTableOutput | QADS Cafe and Bar/Pods/leveldb-library/db/version_set.cc:491-516 | exactly how far a flushed table is pushed: level 0 if level 0 is in the way, otherwise the first level from which the next is in the way or the one after holds too many bytes, at most 2; above 0 nothing down to the result overlaps |
| Selection.PickedLevelIsClear | QADS Cafe and Bar/Pods/leveldb-library/db/version_set.cc:491-516 | the picked level meets the condition under which a flush keeps the level order |
| LevelOrder.InstallKeepsOrder | QADS Cafe and Bar/Pods/leveldb-library/db/db_impl.cc:860-876 | installing a compaction keeps levels >= 1 sorted and disjoint and shallower entries newer |
| LevelOrder.FlushKeepsOrder | QADS Cafe and Bar/Pods/leveldb-library/db/db_impl.cc:491-533 | a flushed table placed at a clear level keeps the level order |
| CompactionReads.ResurrectionStraddles | QADS Cafe and Bar/Pods/leveldb-library/db/version_set.cc:1407-1426 | the only way an older value survives a dropped tombstone is a file left at level+1 that starts with the user key an input file there ends with |
| CompactionReads.ExposedIff | QADS Cafe and Bar/Pods/leveldb-library/db/version_set.cc:1403-1462 | on files a caller can look at before the compaction: a key's old value comes back IF AND ONLY IF its newest entry at the floor is an input deletion, no deeper level can hold it, and the first file left past the inputs starts with a value of it |
| CompactionReads.CompactionKeepsReadsIff | QADS Cafe and Bar/Pods/leveldb-library/db/db_impl.cc:886-996 | over the whole tree, a compaction leaves every read at or above its floor unchanged IF AND ONLY IF it exposes no key in that sense |
| CompactionReads.ClosedExposesNothing | QADS Cafe and Bar/Pods/leveldb-library/db/version_set.cc:1378-1401 | if no boundary file is left past the inputs of the next level, nothing is exposed |
| Background.MakeInputIterator | QADS Cafe and Bar/Pods/leveldb-library/db/version_set.cc:1237-1268 | one cursor for each level-0 file and one for each sorted level merge to exactly the entries of all inputs |
| Background.SelectedMergeable | QADS Cafe and Bar/Pods/leveldb-library/db/version_set.cc:1242-1263 | the order of the levels makes the runs of any selection sorted and free of common keys, as merging needs |
| Background.SelectInputs | QADS Cafe and Bar/Pods/leveldb-library/db/version_set.cc:1270-1323 | both pickers give a closed selection; the automatic one has the chosen file and no gap, the manual one is empty exactly when the range is |
| Background.RunCompaction | QADS Cafe and Bar/Pods/leveldb-library/db/db_impl.cc:878-1020 | selection, merge, loop and numbering joined: the inputs are safe, the outputs hold exactly what the drop rules keep of all input entries, and the state machine allows the compaction IF AND ONLY IF no key is exposed |
| Background.SmallestSnapshot | QADS Cafe and Bar/Pods/leveldb-library/db/db_impl.cc:890-894 | the oldest snapshot, or else the last sequence number, is a floor no reader is below |
| Background.IsTrivialMove | QADS Cafe and Bar/Pods/leveldb-library/db/version_set.cc:1515-1523 | one input, none below, and no more than the limit two levels down |
| Background.BackgroundCompaction | QADS Cafe and Bar/Pods/leveldb-library/db/db_impl.cc:688-767 | one round of background work is nothing, exactly for a manual range no file overlaps, or a safe move of the picked file, or a compaction from the oldest snapshot's floor, allowed if and only if no key is exposed |
| Background.ReachableOffers | QADS Cafe and Bar/Pods/leveldb-library/db/db_impl.cc:688-767 | in any reachable state with nothing under way, and any file lists of its version, a round of background work can start |
| Background.RunningIsGapless | QADS Cafe and Bar/Pods/leveldb-library/db/version_set.cc:1270-1323 | in every run whose compactions have no gap, the compaction under way has none |
| Background.FlushUnhindered | QADS Cafe and Bar/Pods/leveldb-library/db/db_impl.cc:907-918 | while the database picks its own compactions, a flush may go to any clear level: the extra condition of the state machine holds by itself |
| Background.PickFlushLevel | QADS Cafe and Bar/Pods/leveldb-library/db/db_impl.cc:491-533 | the level picked for a flushed memtable is one the state machine allows, with or without an automatic compaction under way |
| Hazards.OpenBoundaryResurrects | QADS Cafe and Bar/Pods/leveldb-library/db/version_set.cc:1403-1462 | in the scene where the level+1 inputs are not closed under boundary files, a deleted key reads as absent before the compaction and as the old value after |
| Hazards.OnlySelection | QADS Cafe and Bar/Pods/leveldb-library/db/version_set.cc:1403-1462 | in that scene every selection at the level takes the one file there and leaves the boundary file behind |
| HazardRuns.DeletedKeyComesBack | QADS Cafe and Bar/Pods/leveldb-library/db/version_set.cc:1403-1462 | a run from a fresh database to that scene, whatever the keys and values, after which the only possible selection exposes the deleted key and compacting it makes the key readable |
| Hazards.SelectAroundGap | QADS Cafe and Bar/Pods/leveldb-library/db/version_set.cc:491-516 | in the scene with a gap, CompactRange takes both level-0 files and PickLevelForMemTableOutput sends the flushed table to level 1 |
| Hazards.FlushIntoGapOverlaps | QADS Cafe and Bar/Pods/leveldb-library/db/db_impl.cc:907-918 | installing both leaves two overlapping files at level 1: the level order is gone, and the first file a search opens there misses the new put while the old one is found a level below |
| HazardRuns.FlushReachesGap | QADS Cafe and Bar/Pods/leveldb-library/db/db_impl.cc:907-918 | a run from a fresh database, through a crash, to a manual compaction and a waiting memtable in that position, whatever the keys and values |
| Store.InsertKeeps | QADS Cafe and Bar/Pods/leveldb-library/db/memtable.cc:75-98 | inserting a newer entry keeps the memtable sorted and adds exactly it |
| Store.ReplayTable | QADS Cafe and Bar/Pods/leveldb-library/db/db_impl.cc:404-455 | replaying consecutively numbered log records builds a sorted memtable with exactly their entries |
| Invariant.LogKeeps | QADS Cafe and Bar/Pods/leveldb-library/db/db_impl.cc:1201-1222 | appending a batch to the log keeps the database invariant: memtables match their logs, the manifest replays to the current version, every reachable table is on disk, levels are ordered, and reads from the highest floor up agree with everything ever written |
| Invariant.ApplyKeeps | QADS Cafe and Bar/Pods/leveldb-library/db/db_impl.cc:1223-1237 | applying it to the memtable and publishing the sequence number keeps the database invariant: memtables match their logs, the manifest replays to the current version, every reachable table is on disk, levels are ordered, and reads from the highest floor up agree with everything ever written |
| Invariant.SwitchKeeps | QADS Cafe and Bar/Pods/leveldb-library/db/db_impl.cc:1310-1370 | the memtable switch to a new log keeps the database invariant: memtables match their logs, the manifest replays to the current version, every reachable table is on disk, levels are ordered, and reads from the highest floor up agree with everything ever written |
| Invariant.BuildFlushKeeps | QADS Cafe and Bar/Pods/leveldb-library/db/db_impl.cc:491-533 | writing the level-0 table keeps the database invariant: memtables match their logs, the manifest replays to the current version, every reachable table is on disk, levels are ordered, and reads from the highest floor up agree with everything ever written |
| Invariant.InstallFlushKeeps | QADS Cafe and Bar/Pods/leveldb-library/db/db_impl.cc:535-566 | installing the flush and moving the log number keeps the database invariant: memtables match their logs, the manifest replays to the current version, every reachable table is on disk, levels are ordered, and reads from the highest floor up agree with everything ever written |
| Invariant.BuildCompactionKeeps | QADS Cafe and Bar/Pods/leveldb-library/db/db_impl.cc:878-1020 | a compaction writing its outputs keeps the database invariant: memtables match their logs, the manifest replays to the current version, every reachable table is on disk, levels are ordered, and reads from the highest floor up agree with everything ever written |
| Invariant.InstallCompactionKeeps | QADS Cafe and Bar/Pods/leveldb-library/db/db_impl.cc:860-876 | installing a compaction keeps the database invariant: memtables match their logs, the manifest replays to the current version, every reachable table is on disk, levels are ordered, and reads from the highest floor up agree with everything ever written |
| Invariant.MoveKeeps | QADS Cafe and Bar/Pods/leveldb-library/db/db_impl.cc:718-733 | the trivial move keeps the database invariant: memtables match their logs, the manifest replays to the current version, every reachable table is on disk, levels are ordered, and reads from the highest floor up agree with everything ever written |
| Invariant.DeleteKeeps | QADS Cafe and Bar/Pods/leveldb-library/db/db_impl.cc:223-278 | deleting obsolete files, or any part of them keeps the database invariant: memtables match their logs, the manifest replays to the current version, every reachable table is on disk, levels are ordered, and reads from the highest floor up agree with everything ever written |
| Recovery.RecoveredLevels | QADS Cafe and Bar/Pods/leveldb-library/db/db_impl.cc:280-369 | manifest replay plus the logs from the recorded number up, cut into level-0 tables anywhere, hold exactly the entries the database held |
| Recovery.RecoverKeeps | QADS Cafe and Bar/Pods/leveldb-library/db/db_impl.cc:371-489 | the recovered state satisfies the invariant |
| Runs.ReachableInv | QADS Cafe and Bar/Pods/leveldb-library/db/db_impl.cc:688-767 | every state of every run of writes, switches, flushes, compactions, moves, deletions, snapshots, pins and crashes satisfies the invariant |
| Runs.HistoryReads | QADS Cafe and Bar/Pods/leveldb-library/db/dbformat.cc:51-67 | the newest entry at n of the operation history is what a plain map says after n operations |
| Runs.ReadsLikeMap | QADS Cafe and Bar/Pods/leveldb-library/db/db_impl.cc:1100-1145 | in every reachable state a lookup through memtable, immutable memtable and the levels one by one, at a live snapshot or at the last sequence number, answers like the plain map after that many operations |
| Runs.Durable | QADS Cafe and Bar/Pods/leveldb-library/db/db_impl.cc:280-489 | crash after any run and recover: lookups through the layers of the recovered database answer like the plain map after every logged operation |
| Runs.NothingNeededDeleted | QADS Cafe and Bar/Pods/leveldb-library/db/db_impl.cc:223-278 | in every reachable state every table of the manifest's version and of every pinned version, and every log a memtable came from, is on disk |
| Runs.CanAlwaysRecover | QADS Cafe and Bar/Pods/leveldb-library/db/db_impl.cc:280-369 | recovery can run on any disk contents, so durability is never vacuous |
| Layers.SearchDownFrom | QADS Cafe and Bar/Pods/leveldb-library/db/version_set.cc:326-421 | where shallower levels hold newer entries, the first level that shows the key holds its newest visible entry |
| Layers.LayersDecide | QADS Cafe and Bar/Pods/leveldb-library/db/db_impl.cc:1118-1130 | whichever of memtable, immutable memtable and levels shows the key first decides the read |
| Layers.LayeredIsRead | QADS Cafe and Bar/Pods/leveldb-library/db/db_impl.cc:1100-1145 | in every state the invariant allows, lookup layer by layer finds the newest visible entry of everything the database holds |
| Database.DBImpl.Get | QADS Cafe and Bar/Pods/leveldb-library/db/db_impl.cc:1100-1145 | memtable, immutable memtable, then the levels: the newest visible entry of the whole database at the snapshot or the last sequence number |
| Database.DBImpl.AddLiveFiles | QADS Cafe and Bar/Pods/leveldb-library/db/version_set.cc:1167-1177 | exactly the table numbers of pending outputs and of every version still referenced |
| Database.Sweep | QADS Cafe and Bar/Pods/leveldb-library/db/db_impl.cc:236-277 | exactly the tables not live and the logs below the recorded number are removed |
| Database.DBImpl.DeleteObsoleteFiles | QADS Cafe and Bar/Pods/leveldb-library/db/db_impl.cc:223-278 | removes exactly the listed tables and logs nothing needs, and keeps the invariant |
| Database.WriteLevel0Table | QADS Cafe and Bar/Pods/leveldb-library/db/db_impl.cc:491-533 | during recovery a nonempty memtable becomes a level-0 table under a fresh number and an empty one becomes none |
| Database.RecoverLogFile | QADS Cafe and Bar/Pods/leveldb-library/db/db_impl.cc:371-489 | reading a log with a flush whenever the buffer is full turns exactly its records into tables |
| Database.RecoverLogs | QADS Cafe and Bar/Pods/leveldb-library/db/db_impl.cc:320-366 | the logs read in ascending order make exactly the recovery the state machine allows, with the right last sequence number |
| Database.NumberOutputs | QADS Cafe and Bar/Pods/leveldb-library/db/db_impl.cc:786-858 | outputs get consecutive fresh numbers and record their first and last keys |
| Database.CompactionFits | QADS Cafe and Bar/Pods/leveldb-library/db/db_impl.cc:878-1020 | however the loop's output is cut into files, the result is a compaction the state machine allows, given that no key is exposed |
| VersionEdit.FieldsBack | QADS Cafe and Bar/Pods/leveldb-library/db/version_edit.cc:41-85 | decoding the tagged fields of an edit gives back exactly those fields |
| Cuts.FieldsThen | QADS Cafe and Bar/Pods/leveldb-library/db/version_edit.cc:107-200 | whatever follows whole fields is decoded behind them |
| Cuts.FieldsCut | QADS Cafe and Bar/Pods/leveldb-library/db/version_edit.cc:107-200 | a field cut off anywhere: the fields before it are read, and the record is refused |
| Cuts.UnknownTag | QADS Cafe and Bar/Pods/leveldb-library/db/version_edit.cc:189-191 | tag 0, 8 or above 9: the fields before it are read, and the record is refused |
| Cuts.UnknownLevel | QADS Cafe and Bar/Pods/leveldb-library/db/version_edit.cc:97-105 | a pointer, deletion or new file at level 7 or deeper is refused |
| Cuts.InsertInOrder | QADS Cafe and Bar/Pods/leveldb-library/db/version_edit.h:86-100 | deleted files are kept by level, then by number, each once |
| VersionEdit.RoundTripIff | QADS Cafe and Bar/Pods/leveldb-library/db/version_edit.cc:26-205 | decoding an encoded edit into another gives the edit IF AND ONLY IF the receiver held no compaction pointers, because Clear leaves them |
| VersionEdit.VersionEdit.Clear | QADS Cafe and Bar/Pods/leveldb-library/db/version_edit.cc:26-39 | resets everything but the compaction pointers |
| VersionEdit.VersionEdit.EncodeTo | QADS Cafe and Bar/Pods/leveldb-library/db/version_edit.cc:41-85 | appends the encoding of the fields that are set, in the order written |
| VersionEdit.VersionEdit.DecodeFrom | QADS Cafe and Bar/Pods/leveldb-library/db/version_edit.cc:107-205 | sets the fields at the head of any input, up to the first malformed one, and succeeds exactly when they are all of it |
| VersionEdit.VersionEdit.CopyOf | QADS Cafe and Bar/Pods/leveldb-library/db/version_edit.cc:41-205 | an edit written by one object and read by a fresh one is equal to it |
| ManifestBuilder.AddIsExactIff | QADS Cafe and Bar/Pods/leveldb-library/db/version_set.cc:650-690 | adding a file to the builder adds exactly it to the level IF AND ONLY IF no other file of that number was marked deleted there or stands in its place |
| ManifestBuilder.ReusedNumberComesBack | QADS Cafe and Bar/Pods/leveldb-library/db/version_set.cc:688-690 | a concrete case where reusing a number at a level brings the deleted file back |
| ManifestBuilder.InsertFileKeeps | QADS Cafe and Bar/Pods/leveldb-library/db/version_set.cc:593-606 | the set of added files stays sorted by smallest key and number, and an equivalent file keeps its place |
| ManifestBuilder.SortedListsAgree | QADS Cafe and Bar/Pods/leveldb-library/db/version_set.cc:593-606 | a list sorted by smallest key and number is determined by its files |
| ManifestBuilder.GatherOne | QADS Cafe and Bar/Pods/leveldb-library/db/version_set.cc:650-692 | gathering one more edit in the builder is installing one more edit, given its file numbers are new at their levels |
| ManifestBuilder.UpperBound | QADS Cafe and Bar/Pods/leveldb-library/db/version_set.cc:709-713 | the first base file that comes after the added one |
| ManifestBuilder.MergeLevel | QADS Cafe and Bar/Pods/leveldb-library/db/version_set.cc:695-723 | one pass over base and added files gives the sorted list of exactly those not deleted |
| ManifestBuilder.Builder.Apply | QADS Cafe and Bar/Pods/leveldb-library/db/version_set.cc:650-692 | deletions first, then each new file unmarked and added |
| ManifestBuilder.Builder.SaveTo | QADS Cafe and Bar/Pods/leveldb-library/db/version_set.cc:695-739 | every level's list is sorted and holds exactly the files the gathered edits leave |
| ManifestBuilder.InstallOne | QADS Cafe and Bar/Pods/leveldb-library/db/version_set.cc:816-821 | one builder for one edit gives the edited version |
| ManifestBuilder.InstallAll | QADS Cafe and Bar/Pods/leveldb-library/db/version_set.cc:924-1000 | one builder over the whole manifest gives the sorted lists that installing the edits one at a time gives |
| ManifestBuilder.VersionsAgree | QADS Cafe and Bar/Pods/leveldb-library/db/version_set.cc:695-723 | two ways to the same sets of files give the same lists |
| ManifestBuilder.SavedIsOrdered | QADS Cafe and Bar/Pods/leveldb-library/db/version_set.cc:741-754 | when the version's levels are ordered, each saved file below level 0 lies wholly after the one before it: the assertion cannot fail |
| ManifestRuns.ReachableNumbers | QADS Cafe and Bar/Pods/leveldb-library/db/version_set.cc:801-884 | in every reachable state no file number was added twice to a level, nor a file above a level it was added to before |
| ManifestRuns.ReopenVersion | QADS Cafe and Bar/Pods/leveldb-library/db/version_set.cc:886-1011 | after any run, one builder over the manifest gives a valid version with exactly the current files, ready for lookups |
| Service.FileLists | QADS Cafe and Bar/Pods/leveldb-library/db/version_set.cc:695-723 | every reachable version has file lists, one sorted vector for each level |
| Service.LogAndApply | QADS Cafe and Bar/Pods/leveldb-library/db/version_set.cc:801-821 | at any step that logs an edit, one builder turns the file lists of the version before into those of the version after |
| Service.Open | QADS Cafe and Bar/Pods/leveldb-library/db/db_impl.cc:1474-1515 | opening what any run and a crash left builds a valid database object for the recovered state of the machine, with every logged operation counted |
| Service.GetLikeMap | QADS Cafe and Bar/Pods/leveldb-library/db/db_impl.cc:1100-1145 | DBImpl::Get on the object, after any run, answers like the plain map at the snapshot or the last sequence number |
| Service.GetAfterCrash | QADS Cafe and Bar/Pods/leveldb-library/db/db_impl.cc:280-489 | open after a crash and get: the plain map's answer after every operation ever logged |
| DbIter.ShowsIsRead | QADS Cafe and Bar/Pods/leveldb-library/db/db_iter.cc:168-198 | an entry the iterator shows is what a plain read of its key returns |
| DbIter.ReadIsShown | QADS Cafe and Bar/Pods/leveldb-library/db/db_iter.cc:168-198 | every key that reads as present is shown by an entry |
| DbIter.DBIter.FindNextUserEntry | QADS Cafe and Bar/Pods/leveldb-library/db/db_iter.cc:168-198 | stops at the first entry wanted and passes none that shows |
| DbIter.DBIter.FindPrevUserEntry | QADS Cafe and Bar/Pods/leveldb-library/db/db_iter.cc:227-267 | stops at the nearest shown entry behind and passes none that shows |
| DbIter.DBIter.Value | QADS Cafe and Bar/Pods/leveldb-library/db/db_iter.cc:68-71 | the value at the current key is what a read at the snapshot returns |
| DbIter.DBIter.Seek | QADS Cafe and Bar/Pods/leveldb-library/db/db_iter.cc:269-281 | the least live key at or after the target, from any state |
| DbIter.DBIter.SeekToFirst | QADS Cafe and Bar/Pods/leveldb-library/db/db_iter.cc:283-292 | the least live key |
| DbIter.DBIter.SeekToLast | QADS Cafe and Bar/Pods/leveldb-library/db/db_iter.cc:294-299 | the greatest live key |
| DbIter.DBIter.Next | QADS Cafe and Bar/Pods/leveldb-library/db/db_iter.cc:141-166 | the least live key after the current one, whichever direction came before |
| DbIter.DBIter.Prev | QADS Cafe and Bar/Pods/leveldb-library/db/db_iter.cc:200-225 | the greatest live key before the current one, whichever direction came before |
| Merger.MergingIterator.SeekToFirst | QADS Cafe and Bar/Pods/leveldb-library/table/merger.cc:31-37 | the least entry of the union |
| Merger.MergingIterator.SeekToLast | QADS Cafe and Bar/Pods/leveldb-library/table/merger.cc:39-45 | the greatest entry of the union |
| Merger.MergingIterator.Seek | QADS Cafe and Bar/Pods/leveldb-library/table/merger.cc:47-53 | the least entry at or after the target |
| Merger.MergingIterator.Next | QADS Cafe and Bar/Pods/leveldb-library/table/merger.cc:55-79 | the least entry after the current one, with every child brought past the key on a change of direction |
| Merger.MergingIterator.Prev | QADS Cafe and Bar/Pods/leveldb-library/table/merger.cc:81-108 | the greatest entry before the current one, with every child brought before the key on a change of direction |
| Merger.MergingIterator.FindSmallest | QADS Cafe and Bar/Pods/leveldb-library/table/merger.cc:148-161 | the child with the least current key |
| Merger.MergingIterator.FindLargest | QADS Cafe and Bar/Pods/leveldb-library/table/merger.cc:163-176 | the child with the greatest current key |
| TwoLevel.FlattenAt | QADS Cafe and Bar/Pods/leveldb-library/table/two_level_iterator.cc:15-70 | position k of block i is position offset(i)+k of the concatenation |
| TwoLevel.TwoLevelIterator.Seek | QADS Cafe and Bar/Pods/leveldb-library/table/two_level_iterator.cc:82-87 | lands where the concatenation splits at the target |
| TwoLevel.TwoLevelIterator.SeekToFirst | QADS Cafe and Bar/Pods/leveldb-library/table/two_level_iterator.cc:89-94 | the first entry of the concatenation, if any |
| TwoLevel.TwoLevelIterator.SeekToLast | QADS Cafe and Bar/Pods/leveldb-library/table/two_level_iterator.cc:96-101 | its last entry, if any |
| TwoLevel.TwoLevelIterator.Next | QADS Cafe and Bar/Pods/leveldb-library/table/two_level_iterator.cc:103-107 | one position on in the concatenation |
| TwoLevel.TwoLevelIterator.Prev | QADS Cafe and Bar/Pods/leveldb-library/table/two_level_iterator.cc:109-113 | one position back in the concatenation |
| TwoLevel.TwoLevelIterator.Current | QADS Cafe and Bar/Pods/leveldb-library/table/two_level_iterator.cc:32-39 | key and value are those at the iterator's position in the concatenation |
| TwoLevel.TwoLevelIterator.SkipEmptyDataBlocksForward | QADS Cafe and Bar/Pods/leveldb-library/table/two_level_iterator.cc:115-126 | the next position across any number of empty blocks |
| TwoLevel.TwoLevelIterator.SkipEmptyDataBlocksBackward | QADS Cafe and Bar/Pods/leveldb-library/table/two_level_iterator.cc:128-139 | the previous position across any number of empty blocks |
| SkipList.PublishKeeps | QADS Cafe and Bar/Pods/leveldb-library/db/skiplist.h:352-367 | linking a prepared node into one level keeps every level a sorted sublist of the one below |
| SkipList.StoresGrow | QADS Cafe and Bar/Pods/leveldb-library/db/skiplist.h:344-367 | after each single store of an insertion the list is the same or one node larger |
| SkipList.TurnKeeps | QADS Cafe and Bar/Pods/leveldb-library/db/skiplist.h:262-283 | each read of a search leaves it before the key, or answers for the list as it is at that read |
| SkipList.SearchStarts | QADS Cafe and Bar/Pods/leveldb-library/db/skiplist.h:262-283 | a search may start at the head from any height it has seen |
| SkipList.SearchLinearizes | QADS Cafe and Bar/Pods/leveldb-library/db/skiplist.h:262-283 | however stores and reads interleave, a finished search answers exactly for the list at its last read |
| SkipList.List.FindGreaterOrEqual | QADS Cafe and Bar/Pods/leveldb-library/db/skiplist.h:262-283 | the first node at or after the key, with the last node before it at every level in use |
| SkipList.List.FindLessThan | QADS Cafe and Bar/Pods/leveldb-library/db/skiplist.h:285-303 | the last node before the key |
| SkipList.List.FindLast | QADS Cafe and Bar/Pods/leveldb-library/db/skiplist.h:305-322 | the last node |
| SkipList.List.Insert | QADS Cafe and Bar/Pods/leveldb-library/db/skiplist.h:336-368 | level 0 becomes the sorted insertion of the new entry, and the structure stays valid |
| SkipList.List.Contains | QADS Cafe and Bar/Pods/leveldb-library/db/skiplist.h:370-380 | true exactly when the key was inserted |
| SkipList.List.RandomHeight | QADS Cafe and Bar/Pods/leveldb-library/db/skiplist.h:241-253 | one level for each time the coin says so, up to 12 |
| SkipList.Iter.Seek | QADS Cafe and Bar/Pods/leveldb-library/db/skiplist.h:223-226 | the first entry at or after the target |
| SkipList.Iter.SeekToFirst | QADS Cafe and Bar/Pods/leveldb-library/db/skiplist.h:228-231 | the first entry of the list |
| SkipList.Iter.Next | QADS Cafe and Bar/Pods/leveldb-library/db/skiplist.h:206-210 | one entry on |
| SkipList.Iter.Prev | QADS Cafe and Bar/Pods/leveldb-library/db/skiplist.h:212-221 | one entry back, by a fresh search |
| SkipList.Iter.SeekToLast | QADS Cafe and Bar/Pods/leveldb-library/db/skiplist.h:233-239 | the last entry |
| MemTable.DecodeEncode | QADS Cafe and Bar/Pods/leveldb-library/db/memtable.cc:75-98 | reading an entry's buffer back gives the entry, whatever follows in the arena |
| MemTable.EncodedLength | QADS Cafe and Bar/Pods/leveldb-library/db/memtable.cc:82-88 | the computed buffer size is the entry's length |
| MemTable.MemTable.Add | QADS Cafe and Bar/Pods/leveldb-library/db/memtable.cc:75-98 | the contents become the sorted insertion of the entry |
| MemTable.MemTable.Get | QADS Cafe and Bar/Pods/leveldb-library/db/memtable.cc:100-134 | the newest entry of the key at or below the sequence number: found or not, its value unless a deletion |
| WriteBatch.DecodeOpsBack | QADS Cafe and Bar/Pods/leveldb-library/db/write_batch.cc:42-80 | iterating over encoded operations gives back the operations |
| WriteBatch.RecordBack | QADS Cafe and Bar/Pods/leveldb-library/db/write_batch.cc:82-96 | sequence, count and operations read back from a batch's bytes |
| WriteBatch.WriteBatch.Sequence | QADS Cafe and Bar/Pods/leveldb-library/db/write_batch.cc:90-92 | the sequence number of the record the batch's bytes stand for |
| WriteBatch.WriteBatch.SetSequence | QADS Cafe and Bar/Pods/leveldb-library/db/write_batch.cc:94-96 | replaces the sequence number and nothing else |
| WriteBatch.WriteBatch.Put | QADS Cafe and Bar/Pods/leveldb-library/db/write_batch.cc:98-103 | the operation is appended and the count grows by one |
| WriteBatch.WriteBatch.Delete | QADS Cafe and Bar/Pods/leveldb-library/db/write_batch.cc:105-109 | the operation is appended and the count grows by one |
| WriteBatch.WriteBatch.Append | QADS Cafe and Bar/Pods/leveldb-library/db/write_batch.cc:111-113 | the other batch's operations follow this one's, its sequence number dropped |
| WriteBatch.InsertInto | QADS Cafe and Bar/Pods/leveldb-library/db/write_batch.cc:42-137 | on any bytes: the operations before the first malformed one enter the memtable under consecutive sequence numbers; success exactly for a header, whole operations and their right count |
| WriteBatch.OwnBytes | QADS Cafe and Bar/Pods/leveldb-library/db/write_batch.cc:132-137 | a batch's own bytes insert exactly its operations |
| Cuts.OpsThen | QADS Cafe and Bar/Pods/leveldb-library/db/write_batch.cc:50-74 | whatever follows whole operations is decoded behind them |
| Cuts.OpsCut | QADS Cafe and Bar/Pods/leveldb-library/db/write_batch.cc:50-74 | a put or deletion cut off anywhere: the operations before it decode, and the batch is malformed |
| Cuts.UnknownOp | QADS Cafe and Bar/Pods/leveldb-library/db/write_batch.cc:71-73 | a tag that is neither 0 nor 1: the operations before it decode, and the batch is malformed |
| Cuts.TruncatedBatch | QADS Cafe and Bar/Pods/leveldb-library/db/write_batch.cc:42-80 | of the prefixes of a stored batch only the whole is accepted |
| Cuts.WrongCountRefused | QADS Cafe and Bar/Pods/leveldb-library/db/write_batch.cc:75-79 | the bytes of some operations under any stored count are accepted exactly when the count is theirs |
| GroupCommit.BuildBatchGroup | QADS Cafe and Bar/Pods/leveldb-library/db/db_impl.cc:1260-1306 | the longest front run that fits the size limit with no sync writer behind a non-sync leader, and its operations in order |
| GroupCommit.GroupIsBounded | QADS Cafe and Bar/Pods/leveldb-library/db/db_impl.cc:1270-1277 | a group of more than its leader holds at most 1048576 bytes, and at most 131072 more than a leader of at most 131072 |
| GroupCommit.StopsOnlyWhenFull | QADS Cafe and Bar/Pods/leveldb-library/db/db_impl.cc:1280-1300 | a group ends before the queue does only at a sync writer behind a non-sync leader or where the next batch would pass that bound |
| GroupCommit.OneRecordOrTwo | QADS Cafe and Bar/Pods/leveldb-library/db/write_batch.cc:115-137 | one record for two batches inserts what two consecutive records insert |
| GroupCommit.Grouped | QADS Cafe and Bar/Pods/leveldb-library/db/db_impl.cc:1185-1258 | a log that replays like the first writers alone, with one record for the next group, replays like all of them alone in queue order |
| GroupCommit.WriteQueue.Join | QADS Cafe and Bar/Pods/leveldb-library/db/db_impl.cc:1185-1199 | a writer may join at any point without disturbing a group in progress |
| GroupCommit.WriteQueue.Lead | QADS Cafe and Bar/Pods/leveldb-library/db/db_impl.cc:1200-1237 | the front writer logs one record for its group |
| GroupCommit.WriteQueue.Complete | QADS Cafe and Bar/Pods/leveldb-library/db/db_impl.cc:1239-1256 | the group's writers are popped front first, each exactly once |
| Rings.RemoveKeeps | QADS Cafe and Bar/Pods/leveldb-library/util/cache.cc:239-242 | unlinking a node removes exactly it from its circular list |
| Rings.AppendKeeps | QADS Cafe and Bar/Pods/leveldb-library/util/cache.cc:244-250 | appending before the dummy head makes the node the newest |
| HandleTable.Table.FindPointer | QADS Cafe and Bar/Pods/leveldb-library/util/cache.cc:114-121 | the slot pointing at the matching handle, or the chain's trailing slot when none matches |
| HandleTable.Table.Lookup | QADS Cafe and Bar/Pods/leveldb-library/util/cache.cc:74-76 | the matching handle, none exactly when the table has none |
| HandleTable.Table.Insert | QADS Cafe and Bar/Pods/leveldb-library/util/cache.cc:78-92 | the table gains the handle in place of the matching one, which is returned; the buckets double exactly when a new handle finds as many handles as buckets |
| HandleTable.Table.Remove | QADS Cafe and Bar/Pods/leveldb-library/util/cache.cc:94-102 | the matching handle leaves, nothing else changes |
| HandleTable.Table.Resize | QADS Cafe and Bar/Pods/leveldb-library/util/cache.cc:123-146 | every handle is moved to its new chain and the contents stay; the buckets become the least power of two, from 4 on, that is not below their number |
| HandleTable.MaskIsRemainder | QADS Cafe and Bar/Pods/leveldb-library/util/cache.cc:114-121 | for a power of two, masking the low bits of a 32-bit hash is the remainder, by which the chains are defined |
| Cache.RefKeeps | QADS Cafe and Bar/Pods/leveldb-library/util/cache.cc:217-223 | a client reference moves an entry to the in-use list and keeps the cache invariant |
| Cache.ReleaseKeeps | QADS Cafe and Bar/Pods/leveldb-library/util/cache.cc:225-237 | the last reference of all runs the deleter, once; the last client reference to a cached entry makes it the newest of the LRU list |
| Cache.EraseKeeps | QADS Cafe and Bar/Pods/leveldb-library/util/cache.cc:307-316 | finishing an erase takes the entry off its list, its charge off the usage and the cache's reference off its count, keeping the invariant |
| Cache.JoinKeeps | QADS Cafe and Bar/Pods/leveldb-library/util/cache.cc:283-288 | a fresh entry joins with the cache's own reference and its charge |
| Cache.LRUCache.Ref | QADS Cafe and Bar/Pods/leveldb-library/util/cache.cc:217-223 | one more handle out, nothing deleted |
| Cache.LRUCache.Release | QADS Cafe and Bar/Pods/leveldb-library/util/cache.cc:225-264 | one handle fewer; the deleter runs exactly when it was the last reference of all |
| Cache.LRUCache.Lookup | QADS Cafe and Bar/Pods/leveldb-library/util/cache.cc:252-259 | the cached entry of the key with one more handle, or none exactly when there is none |
| Cache.LRUCache.FinishErase | QADS Cafe and Bar/Pods/leveldb-library/util/cache.cc:307-316 | the entry leaves its list and the usage; its deleter runs exactly when no handle is out |
| Cache.LRUCache.EvictOldest | QADS Cafe and Bar/Pods/leveldb-library/util/cache.cc:293-299 | the oldest unheld entry leaves and its deleter runs |
| Cache.LRUCache.EvictToFit | QADS Cafe and Bar/Pods/leveldb-library/util/cache.cc:293-299 | the oldest unheld entries leave in order, only as many as needed; afterwards the charges fit or nothing is evictable |
| Cache.LRUCache.Insert | QADS Cafe and Bar/Pods/leveldb-library/util/cache.cc:266-302 | the new entry replaces one with its key; afterwards usage is within capacity or nothing is evictable, and what left was the replaced entry or the oldest unheld ones, no more than needed |
| Cache.LRUCache.Erase | QADS Cafe and Bar/Pods/leveldb-library/util/cache.cc:318-321 | exactly the entry with the key leaves the cache; entries held live on |
| Cache.LRUCache.Prune | QADS Cafe and Bar/Pods/leveldb-library/util/cache.cc:323-333 | exactly the entries with a handle out stay |
| Block.SharedPrefix | QADS Cafe and Bar/Pods/leveldb-library/table/block_builder.cc:76-85 | the longest common prefix with the last key |
| Block.DecodeEncoded | QADS Cafe and Bar/Pods/leveldb-library/table/block.cc:54-74 | decoding an encoded entry header gives back its three lengths and the rest |
| Block.FastDecodeEntry | QADS Cafe and Bar/Pods/leveldb-library/table/block.cc:54-74 | the one-byte fast path agrees with three varints on every input |
| Block.BlockBuilder.Add | QADS Cafe and Bar/Pods/leveldb-library/table/block_builder.cc:72-106 | the block's list gains exactly the entry; it shares with the key before it all they have in common, or nothing where the interval is full and a restart point is added |
| Block.BlockBuilder.Finish | QADS Cafe and Bar/Pods/leveldb-library/table/block_builder.cc:62-70 | the bytes describe exactly the list added, with its restart points |
| BlockIter.Iter.ParseNextKey | QADS Cafe and Bar/Pods/leveldb-library/table/block.cc:224-251 | from entry i's offset the next entry's full key and value are rebuilt, or the end reported |
| BlockIter.Iter.FindRestart | QADS Cafe and Bar/Pods/leveldb-library/table/block.cc:163-190 | binary search: the last restart point whose key is below the target, or the first |
| BlockIter.Iter.Seek | QADS Cafe and Bar/Pods/leveldb-library/table/block.cc:163-201 | lands on the first entry at or after the target, or past the end |
| BlockIter.Iter.SeekToFirst | QADS Cafe and Bar/Pods/leveldb-library/table/block.cc:203-206 | the first entry of the list that was added |
| BlockIter.Iter.SeekToLast | QADS Cafe and Bar/Pods/leveldb-library/table/block.cc:208-213 | the last entry of the list that was added |
| BlockIter.Iter.Next | QADS Cafe and Bar/Pods/leveldb-library/table/block.cc:137-140 | one entry on in the list that was added |
| BlockIter.Iter.Prev | QADS Cafe and Bar/Pods/leveldb-library/table/block.cc:142-161 | one entry back: it undoes Next |
| Separator.ShortestSeparator | QADS Cafe and Bar/Pods/leveldb-library/util/comparator.cc:29-50 | the first differing byte is bumped exactly when it stays below the limit's; the result is then strictly between, otherwise the start |
| Separator.ShortSuccessor | QADS Cafe and Bar/Pods/leveldb-library/util/comparator.cc:52-62 | the first byte below 0xff is bumped and the rest dropped; a key of all 0xff stays |
| Separator.InternalSeparator | QADS Cafe and Bar/Pods/leveldb-library/db/dbformat.cc:69-86 | exactly: the user key one byte past the first difference, that byte bumped, with the earliest sequence position, when the bump stays below the limit and this is shorter; otherwise the key |
| Separator.InternalSuccessor | QADS Cafe and Bar/Pods/leveldb-library/db/dbformat.cc:88-101 | exactly: the key cut off behind its first byte below 0xff, that byte bumped, with the earliest sequence position, when this is shorter; otherwise the key |
| FilterBlock.FilterBlockBuilder.StartBlock | QADS Cafe and Bar/Pods/leveldb-library/table/filter_block.cc:21-27 | filters are finished until the one for the offset is being collected; those skipped over are empty |
| FilterBlock.FilterBlockBuilder.AddKey | QADS Cafe and Bar/Pods/leveldb-library/table/filter_block.cc:29-33 | the key joins the filter being collected |
| FilterBlock.FilterBlockBuilder.GenerateFilter | QADS Cafe and Bar/Pods/leveldb-library/table/filter_block.cc:51-75 | the collected keys become one filter, an empty one for no keys |
| FilterBlock.FilterBlockBuilder.Finish | QADS Cafe and Bar/Pods/leveldb-library/table/filter_block.cc:35-49 | the bytes hold every group's filter and their offsets |
| FilterBlock.ReadsFinished | QADS Cafe and Bar/Pods/leveldb-library/table/filter_block.cc:77-88 | a reader parses a finished block's layout back |
| FilterBlock.FilterBlockReader.KeyMayMatch | QADS Cafe and Bar/Pods/leveldb-library/table/filter_block.cc:90-104 | on a finished block the answer is the policy's on the filter of the offset's group, and true beyond the last; on any bytes an entry out of bounds matches, an empty one there does not |
| FilterBlock.NeverHides | QADS Cafe and Bar/Pods/leveldb-library/table/filter_block.cc:90-104 | any key added for an offset may match there, for any faithful policy |
| Bloom.CreateFilter | QADS Cafe and Bar/Pods/leveldb-library/util/bloom.cc:28-54 | in the filter appended a bit is set exactly when it is one of the probes, in numbers, of a key added, and its last byte is the probe count |
| Bloom.KeyMayMatch | QADS Cafe and Bar/Pods/leveldb-library/util/bloom.cc:56-79 | in numbers: false exactly when the filter has at least two bytes, names at most 30 probes, and one of the bits (h + j * delta) mod 2^32 mod size is clear, delta being h rotated right by 17 |
| Bloom.MatchesAnswers | QADS Cafe and Bar/Pods/leveldb-library/util/bloom.cc:55-81 | the probing loop from its own definition and the answer in numbers agree on any bytes |
| Bloom.FilterIsFor | QADS Cafe and Bar/Pods/leveldb-library/util/bloom.cc:28-53 | the filter of a list of keys has exactly the bits their probes name |
| Bloom.RefusesStrangers | QADS Cafe and Bar/Pods/leveldb-library/util/bloom.cc:55-81 | a key with a probe that no added key has is refused |
| Bloom.NoFalseNegatives | QADS Cafe and Bar/Pods/leveldb-library/util/bloom.cc:28-79 | for any hash function every key the filter was made from matches |
| Bloom.BloomFaithful | QADS Cafe and Bar/Pods/leveldb-library/util/bloom.cc:28-79 | so the Bloom policy is faithful for the filter block |
| Table.InternalMatches | QADS Cafe and Bar/Pods/leveldb-library/db/dbformat.cc:105-119 | an internal key matches when any internal key of the same user key was added |
| Table.TableBuilder.Add | QADS Cafe and Bar/Pods/leveldb-library/table/table_builder.cc:94-123 | the table's entries gain exactly this one; a delayed index entry is added first, its key shortened as the comparator shortens it towards this one; a full block is written, of size + 5 bytes with its trailer |
| Table.TableBuilder.Flush | QADS Cafe and Bar/Pods/leveldb-library/table/table_builder.cc:125-139 | the data block, if any, becomes the next part of the file, its trailer counted, and the filter block moves on |
| Table.TableBuilder.Finish | QADS Cafe and Bar/Pods/leveldb-library/table/table_builder.cc:198-253 | the finished blocks hold exactly the entries added, the index separates them, its last key the short successor of the last entry's, and the filter covers them |
| TableLookup.SeparatorsSeparate | QADS Cafe and Bar/Pods/leveldb-library/table/table_builder.cc:94-123 | each index key is at or after its block's entries and before later ones, by user key unless it is the block's own last key |
| TableLookup.ScanLands | QADS Cafe and Bar/Pods/leveldb-library/table/table.cc:216-244 | a linear scan of the table lands where the seek in the indexed block lands |
| TableLookup.NothingBeyond | QADS Cafe and Bar/Pods/leveldb-library/table/table.cc:216-244 | if that seek runs off the block, no later block has the user key first |
| TableLookup.TableReader.FilterSaysNo | QADS Cafe and Bar/Pods/leveldb-library/table/table.cc:222-228 | a filter's no means the block has no entry of the user key |
| TableLookup.TableReader.InternalGet | QADS Cafe and Bar/Pods/leveldb-library/table/table.cc:216-244 | the entry handed over is where a linear scan lands; with none, the scan lands on another user key |
| TableLookup.TableReader.Get | QADS Cafe and Bar/Pods/leveldb-library/table/table.cc:216-244 | with SaveValue's check, the newest entry of the user key at or below s whenever a linear scan of the table finds it |
| LogFormat.StoredMatches | QADS Cafe and Bar/Pods/leveldb-library/db/log_writer.cc:82-108 | the checksum stored with a fragment is the one the reader computes over type and payload |
| LogFormat.Writer.EmitPhysicalRecord | QADS Cafe and Bar/Pods/leveldb-library/db/log_writer.cc:82-108 | header and payload are appended and the block offset moves by their length |
| LogFormat.Writer.AddRecord | QADS Cafe and Bar/Pods/leveldb-library/db/log_writer.cc:34-80 | the file becomes the written form of all records so far and this one |
| LogReader.Reader.ReadPhysicalRecord | QADS Cafe and Bar/Pods/leveldb-library/db/log_reader.cc:189-271 | on any bytes, block buffering reads what the byte-level definition of the format says, with the bytes reported dropped |
| LogReader.Reader.ReadRecord | QADS Cafe and Bar/Pods/leveldb-library/db/log_reader.cc:56-174 | on any bytes, fragments are joined, dropped and reported as the definition says |
| LogRoundTrip.ReadBack | QADS Cafe and Bar/Pods/leveldb-library/db/log_reader.cc:189-271 | a whole fragment reads back as itself |
| LogRoundTrip.ReadCut | QADS Cafe and Bar/Pods/leveldb-library/db/log_reader.cc:189-271 | a fragment the file breaks off inside reads as the end of the file, with nothing reported |
| LogRoundTrip.ReadFragments | QADS Cafe and Bar/Pods/leveldb-library/db/log_reader.cc:56-174 | a record's fragments join to the record, or to the end of the file when cut |
| LogRoundTrip.WholeIsLongest | QADS Cafe and Bar/Pods/leveldb-library/db/log_writer.cc:34-80 | the records wholly inside a prefix are the longest run whose written form fits |
| LogRoundTrip.LogRoundTrip | QADS Cafe and Bar/Pods/leveldb-library/db/log_reader.cc:56-271 | reading any byte prefix of any written log returns exactly the records wholly inside it and reports no corruption; the whole log returns every record |
| LogDamage.DamageStaysInBlock | QADS Cafe and Bar/Pods/leveldb-library/db/log_reader.cc:153-160 | a fragment the reader refuses, in a written log: the records read are exactly those before the fragment's own and those that start behind the fragment's block |
| LogDamage.ReachedExactly | QADS Cafe and Bar/Pods/leveldb-library/db/log_format.h:28-31 | the records lost are those that start at least a header before the end of the block |
| LogDamage.DamageRefused | QADS Cafe and Bar/Pods/leveldb-library/db/log_reader.cc:243-257 | up to four neighbouring bytes of a fragment's checksum, or of its type and payload, written over with anything else: the reader refuses it and goes to the end of its block |
| LogDamage.SmallDamage | QADS Cafe and Bar/Pods/leveldb-library/db/log_reader.cc:189-271 | so in a log damaged there no record is read that was not written, and only those that reach into the rest of the block are lost |
| LogDamage.HeaderVerdict | QADS Cafe and Bar/Pods/leveldb-library/db/log_reader.cc:217-257 | a length past the block is reported, at the end of the file taken for a writer that died; zeros are passed over in silence; for the rest the masked checksum decides |
| LogDamage.UnfinishedReported | QADS Cafe and Bar/Pods/leveldb-library/db/log_reader.cc:76-109 | a record that starts before the last one is finished is read, and the unfinished bytes are reported |
| Crc.TableStep | QADS Cafe and Bar/Pods/leveldb-library/util/crc32c.cc:287-291 | one table step advances the register by eight bits of the polynomial |
| Crc.ExtendConcat | QADS Cafe and Bar/Pods/leveldb-library/util/crc32c.cc:276-377 | Extend over A then B is Extend over A+B |
| Crc.WordStep | QADS Cafe and Bar/Pods/leveldb-library/util/crc32c.cc:313-320 | adding a word and advancing four bytes is four byte steps |
| Crc.SwathStep | QADS Cafe and Bar/Pods/leveldb-library/util/crc32c.cc:294-311 | one swath over four strides advances the combined register by sixteen bytes |
| Crc.RotateStep | QADS Cafe and Bar/Pods/leveldb-library/util/crc32c.cc:349-358 | one word into the first stride, which becomes the last, advances the combined register by four bytes |
| Crc.Step4 | QADS Cafe and Bar/Pods/leveldb-library/util/crc32c.cc:294-300 | four stride-table lookups advance a register by sixteen bytes and take a word |
| Crc.Bytewise | QADS Cafe and Bar/Pods/leveldb-library/util/crc32c.cc:322-330 | the byte loop folds every byte up to its end |
| Crc.Strided | QADS Cafe and Bar/Pods/leveldb-library/util/crc32c.cc:332-366 | the strided loops over whole swaths and words fold exactly the bytes they pass |
| Crc.Extend | QADS Cafe and Bar/Pods/leveldb-library/util/crc32c.cc:276-377 | given that the stride tables advance by sixteen zero bytes, the strided form equals the byte-at-a-time checksum, whose values the known answers fix, for every length and start address |
| Crc.CheckValue | QADS Cafe and Bar/Pods/leveldb-library/util/crc32c.cc:18-64 | the checksum of the digits 1 to 9 is 0xe3069283, the published check value of CRC-32C |
| Crc.TableEntries | QADS Cafe and Bar/Pods/leveldb-library/util/crc32c.cc:18-64 | any byte table that meets the loop's requirement has 0xf26b8303 at 1 and the code's numbers at every power of two |
| CrcErrors.DamageSeen | QADS Cafe and Bar/Pods/leveldb-library/util/crc32c.h:15-21 | any change of up to four consecutive bytes changes the checksum, wherever they are and whatever surrounds them |
| Crc.PolynomialTables | QADS Cafe and Bar/Pods/leveldb-library/util/crc32c.cc:17-246 | tables filled in from the CRC-32C polynomial meet that requirement |
| Crc.UnmaskMask | QADS Cafe and Bar/Pods/leveldb-library/util/crc32c.h:29-38 | Unmask undoes Mask and Mask undoes Unmask, on every word |
| Crc.MaskedCheck | QADS Cafe and Bar/Pods/leveldb-library/util/crc32c.h:22-32 | the stored form of the check value is 0xc78ab0e5 |
| Coding.Fixed32RoundTrip | QADS Cafe and Bar/Pods/leveldb-library/util/coding.cc:9-18 | decoding undoes encoding |
| Coding.Fixed64RoundTrip | QADS Cafe and Bar/Pods/leveldb-library/util/coding.cc:20-33 | decoding undoes encoding |
| Coding.EncodeVarint32 | QADS Cafe and Bar/Pods/leveldb-library/util/coding.cc:47-73 | the five cases by magnitude are the seven-bit digits of the value, in at most five bytes |
| Coding.EncodeVarint64 | QADS Cafe and Bar/Pods/leveldb-library/util/coding.cc:81-90 | the loop gives the same digits, in at most ten bytes |
| Coding.CountVarint | QADS Cafe and Bar/Pods/leveldb-library/util/coding.cc:103-110 | the length counted is the length written |
| Coding.GetVarint | QADS Cafe and Bar/Pods/leveldb-library/util/coding.cc:112-157 | on any bytes, the decoded value and rest, or none |
| Coding.ParseVarintBack | QADS Cafe and Bar/Pods/leveldb-library/util/coding.cc:112-157 | decoding undoes encoding, whatever follows |
| Coding.PieceBack | QADS Cafe and Bar/Pods/leveldb-library/util/coding.cc:171-190 | a length-prefixed string reads back, whatever follows |
| Coding.VarintCut | QADS Cafe and Bar/Pods/leveldb-library/util/coding.cc:112-160 | a varint cut off is refused |
| Coding.VarintTooLong | QADS Cafe and Bar/Pods/leveldb-library/util/coding.cc:112-160 | five bytes, or ten, that all say more is to come are refused |
| Coding.PieceCut | QADS Cafe and Bar/Pods/leveldb-library/util/coding.cc:171-192 | a length-prefixed string cut off is refused |
| WireForms.Fixed32Places | QADS Cafe and Bar/Pods/leveldb-library/util/coding.h:57-71 | the lowest byte comes first |
| WireForms.Fixed64Places | QADS Cafe and Bar/Pods/leveldb-library/util/coding.cc:20-34 | the low four bytes, then the high four |
| WireForms.VarintExamples | QADS Cafe and Bar/Pods/leveldb-library/util/coding.cc:47-90 | 1, 127, 128, 300 and 2^32 - 1 in bytes |
| WireForms.TagExamples | QADS Cafe and Bar/Pods/leveldb-library/db/dbformat.cc:14-22 | the sequence number above, the type below, up to 56 bits |
| WireForms.MemTableExample | QADS Cafe and Bar/Pods/leveldb-library/db/memtable.cc:82-105 | an entry of the arena, byte by byte |
| WireForms.FragmentTypes | QADS Cafe and Bar/Pods/leveldb-library/db/log_format.h:14-24 | full, first, middle and last are 1, 2, 3 and 4 |
| WireForms.RecordLayout | QADS Cafe and Bar/Pods/leveldb-library/db/log_format.h:28-31 | masked checksum of type and payload in four bytes, length in two, type in one, payload |
| WireForms.EmptyRecord | QADS Cafe and Bar/Pods/leveldb-library/db/log_writer.cc:82-106 | an empty record's seven bytes |
| WireForms.FragmentSpan | QADS Cafe and Bar/Pods/leveldb-library/db/log_writer.cc:36-79 | blocks of 32768 bytes, headers of seven, and no fragment shorter than it could be |
| WireForms.TrailerIsZero | QADS Cafe and Bar/Pods/leveldb-library/db/log_writer.cc:46-57 | a tail too short for a header is filled with zeros |
| WireForms.BatchExample | QADS Cafe and Bar/Pods/leveldb-library/db/write_batch.cc:1-17 | a batch of a put and a deletion, byte by byte |
| WireForms.NumberFields | QADS Cafe and Bar/Pods/leveldb-library/db/version_edit.cc:41-62 | log number, next file, last sequence and previous log number have tags 2, 3, 4 and 9 |
| WireForms.NameField | QADS Cafe and Bar/Pods/leveldb-library/db/version_edit.cc:41-46 | the comparator name has tag 1 |
| WireForms.PointerField | QADS Cafe and Bar/Pods/leveldb-library/db/version_edit.cc:64-68 | a compaction pointer has tag 5, then level and key |
| WireForms.DeletedField | QADS Cafe and Bar/Pods/leveldb-library/db/version_edit.cc:70-75 | a deleted file has tag 6, then level and number |
| WireForms.AddedField | QADS Cafe and Bar/Pods/leveldb-library/db/version_edit.cc:77-85 | a new file has tag 7, then level, number, size and bounds |
| WireForms.BlockEntryExample | QADS Cafe and Bar/Pods/leveldb-library/table/block_builder.cc:91-101 | a block entry byte by byte: shared, own and value lengths, own bytes, value |
| WireForms.BlockExample | QADS Cafe and Bar/Pods/leveldb-library/table/block_builder.cc:60-70 | a block of two entries, byte by byte: entries, restart offsets, their count |
| WireForms.FilterTrailer | QADS Cafe and Bar/Pods/leveldb-library/table/filter_block.cc:35-49 | a filter block ends with where its offsets start and the base 11 |
| PbEncode.OStream.Write | QADS Cafe and Bar/Pods/nanopb/pb_encode.c:103-124 | bytes are counted or written exactly when they fit; otherwise nothing changes |
| PbEncode.OStream.EncodeVarint | QADS Cafe and Bar/Pods/nanopb/pb_encode.c:608-628 | one byte or a buffer of ten: the seven-bit digits of the value |
| PbEncode.OStream.EncodeSubmessage | QADS Cafe and Bar/Pods/nanopb/pb_encode.c:717-765 | sized, then written into a substream of just that size: it succeeds exactly when the data is encodable and the parent has room, and never reports that the size changed |
| PbEncode.OStream.PackedSize | QADS Cafe and Bar/Pods/nanopb/pb_encode.c:169-190 | the size of packed data, computed or counted, is its length |
| PbEncode.OStream.EncodeArray | QADS Cafe and Bar/Pods/nanopb/pb_encode.c:147-236 | packed under one key or one record an item; refused exactly when too long or an item is not encodable |
| PbEncode.OStream.EncodeField | QADS Cafe and Bar/Pods/nanopb/pb_encode.c:341-426 | only a present field is written: required, has_ set, nonzero, nonempty, or the chosen member |
| PbEncode.OStream.Encode | QADS Cafe and Bar/Pods/nanopb/pb_encode.c:528-550 | counting or writing, it ends well exactly when the data is encodable and fits, and then emits exactly the struct's wire form |
| PbEncode.EncodeSized | QADS Cafe and Bar/Pods/nanopb/pb_encode.c:528-576 | the sizing pass counts exactly the bytes the writing pass emits: a buffer of that size is enough |
| PbDecode.FieldIter.Next | QADS Cafe and Bar/Pods/nanopb/pb_common.c:20-76 | the next field, or back to the first with the required count reset |
| PbDecode.FieldIter.FindTag | QADS Cafe and Bar/Pods/nanopb/pb_common.c:78-96 | once round the circle: the first field with the tag from the current one on, else none and the position unchanged |
| PbRoundTrip.NumberBack | QADS Cafe and Bar/Pods/nanopb/pb_decode.c:1279-1439 | each scalar decoder undoes its encoder for every value of the field's width |
| PbRoundTrip.BlobBack | QADS Cafe and Bar/Pods/nanopb/pb_decode.c:1441-1517 | byte strings come back; a string comes back exactly when it left room for its terminator |
| PbRoundTrip.PackedBack | QADS Cafe and Bar/Pods/nanopb/pb_decode.c:425-453 | a packed record's items land in order behind those already there |
| PbRoundTrip.KeyedBack | QADS Cafe and Bar/Pods/nanopb/pb_decode.c:454-464 | records of one repeated field rebuild the array, or the first unterminated string fails the decode |
| PbRoundTrip.StructBack | QADS Cafe and Bar/Pods/nanopb/pb_decode.c:928-1090 | decoding an encoded struct gives it back with defaults where nothing was written IF every written string is terminated inside its buffer, and fails otherwise |
| PbRoundTrip.MessageRestoredIff | QADS Cafe and Bar/Pods/nanopb/pb_decode.c:928-1090 | what comes back is the message itself exactly when every field the encoder left out held its default |
| PbLaws.WrittenIff | QADS Cafe and Bar/Pods/nanopb/pb_encode.c:341-425 | a required field, a set has_ flag, a chosen member and a nonempty array are written, an unset flag, no member and an empty array are not |
| PbLaws.SingularWrittenIff | QADS Cafe and Bar/Pods/nanopb/pb_encode.c:240-336 | a proto3 field is written exactly when it is not zero, not empty, or a submessage of which something is written |
| PbLaws.AdmittedNumbers | QADS Cafe and Bar/Pods/nanopb/pb_encode.c:769-850 | the numbers each width of each C type holds |
| PbLaws.AdmittedSizes | QADS Cafe and Bar/Pods/nanopb/pb_encode.c:147-165 | arrays are encoded up to their full size, byte arrays up to one byte below theirs, strings of any stored length |
| PbLaws.UnsetIsEmpty | QADS Cafe and Bar/Pods/nanopb/pb_encode.c:240-336 | a struct counts as unset exactly when nothing of it is written |
| PbLaws.PlainRoundTrip | QADS Cafe and Bar/Pods/nanopb/pb_decode.c:1079-1090 | for tables of proto3 numbers, strings and bytes, decoding what was encoded gives back every message that ends its strings |
| PbLaws.NumberExample | QADS Cafe and Bar/Pods/nanopb/pb_encode.c:776-797 | the documented examples of the encoding: 150 and 5 in field 1 |
| PbLaws.TextExample | QADS Cafe and Bar/Pods/nanopb/pb_encode.c:875-899 | the documented string example |
| PbLaws.SubmessageExample | QADS Cafe and Bar/Pods/nanopb/pb_encode.c:901-907 | the documented embedded message |
| PbLaws.PackedExample | QADS Cafe and Bar/Pods/nanopb/pb_encode.c:147-190 | the documented packed array |
| PbLaws.FixedExamples | QADS Cafe and Bar/Pods/nanopb/pb_encode.c:835-850 | 32-bit and 64-bit numbers, byte by byte |
| PbLaws.VarintExamples | QADS Cafe and Bar/Pods/nanopb/pb_encode.c:669-705 | wire type 0 for booleans and all varints, 2 for bytes |
| PbLaws.SignedExamples | QADS Cafe and Bar/Pods/nanopb/pb_encode.c:583-639 | zigzag pairs and the two's complement of negative numbers |
| PbDecoder.IStream.DecodeVarint32 | QADS Cafe and Bar/Pods/nanopb/pb_decode.c:187-252 | at most five bytes; bits beyond the 32nd are an error |
| PbDecoder.IStream.SkipField | QADS Cafe and Bar/Pods/nanopb/pb_decode.c:278-333 | an unknown field is passed over by its wire type, eight bytes for 64 bits and four for 32, or fails |
| PbLaws.SkipBack | QADS Cafe and Bar/Pods/nanopb/pb_decode.c:318-330 | the wire type alone tells how far a value reaches: skipping what was written leaves exactly what follows |
| PbLaws.UnknownIgnored | QADS Cafe and Bar/Pods/nanopb/pb_decode.c:956-989 | records of tags the table does not have, anywhere between the fields of an encoded struct, change nothing |
| PbLaws.MissingRequiredFails | QADS Cafe and Bar/Pods/nanopb/pb_decode.c:1033-1072 | a message without one of its first 64 required fields is refused, whatever other records it has |
| PbLaws.EmptyMessage | QADS Cafe and Bar/Pods/nanopb/pb_decode.c:839-930 | an empty message without required fields decodes to its declared defaults |
| PbLaws.UnsetReadsDefault | QADS Cafe and Bar/Pods/nanopb/pb_decode.c:839-930 | a flagged field that was not set reads back as its declared default |
| PbLaws.LastMemberStands | QADS Cafe and Bar/Pods/nanopb/pb_decode.c:466-478 | of two members of one oneof on the wire the last one stands alone |
| PbRefusals.UnsignedAccepted | QADS Cafe and Bar/Pods/nanopb/pb_decode.c:1376-1398 | an unsigned field takes a number exactly when its 1, 2, 4 or 8 bytes hold it |
| PbRefusals.ZigZagAccepted | QADS Cafe and Bar/Pods/nanopb/pb_decode.c:1400-1420 | so does a zigzag field |
| PbRefusals.LowHalfAccepted | QADS Cafe and Bar/Pods/nanopb/pb_decode.c:1339-1374 | a plain signed field of at most four bytes takes the low half of any 64-bit number, as a signed one, if it holds that |
| PbRefusals.BlobAccepted | QADS Cafe and Bar/Pods/nanopb/pb_decode.c:1441-1564 | bytes fit within 255 and below their count, strings below their terminator, fixed bytes exactly or not at all |
| PbRefusals.TruncatedRefused | QADS Cafe and Bar/Pods/nanopb/pb_decode.c:947-1026 | a message of known and unknown records, cut off anywhere inside its last one, is refused |
| PbRefusals.PackedCut | QADS Cafe and Bar/Pods/nanopb/pb_decode.c:425-453 | so is one that breaks off inside a packed array |
| PbRefusals.UnknownWireType | QADS Cafe and Bar/Pods/nanopb/pb_decode.c:324-332 | an unknown field of wire type 3, 4, 6 or 7 is refused |
| PbRefusals.ZeroEnds | QADS Cafe and Bar/Pods/nanopb/pb_decode.c:297-318 | a zero byte in place of a key ends the message, whatever follows |
| PbRefusals.RequiredExactly | QADS Cafe and Bar/Pods/nanopb/pb_decode.c:1033-1072 | what must have been seen is each of the first 64 required fields, and none beyond |
| PbRefusals.OverfullRefused | QADS Cafe and Bar/Pods/nanopb/pb_decode.c:454-464 | more records of an array field than it has room for are refused, whatever else the message holds |
| PbRefusals.PackedOverfull | QADS Cafe and Bar/Pods/nanopb/pb_decode.c:425-453 | so are more packed items than the array has room for |
| PbDecoder.DecodePacked | QADS Cafe and Bar/Pods/nanopb/pb_decode.c:425-453 | items until the data or the array ends; data left over is an error |
| PbDecoder.DecodeField | QADS Cafe and Bar/Pods/nanopb/pb_decode.c:406-483 | the field is decoded by its repetition rule on any bytes |
| PbDecoder.DecodeSubmessage | QADS Cafe and Bar/Pods/nanopb/pb_decode.c:1519-1541 | a substream of the given length; array entries start from defaults, other submessages merge |
| PbDecoder.RequiredSeen | QADS Cafe and Bar/Pods/nanopb/pb_decode.c:1033-1072 | all required fields, up to the 64 tracked, were seen |
| PbDecoder.DecodeStruct | QADS Cafe and Bar/Pods/nanopb/pb_decode.c:928-1076 | on any bytes the record loop computes what the format's definition says: unknown fields skipped, fixed-count arrays whole, required fields seen |
| PbDecoder.RoundTrip | QADS Cafe and Bar/Pods/nanopb/pb_decode.c:928-1090 | encode into a buffer of the counted size and decode: refused exactly when not encodable, and otherwise the struct comes back as StructBack says |

## Left out

- Runs.ReachableInv: under two conditions on the steps that the code does not check, each exact (see Findings): a compaction that starts exposes no key, and a flush does not start in a gap of a running manual compaction. Every other step is as free as in the code.
- Runs.ReadsLikeMap: under the same two conditions on the steps.
- Runs.Durable: under the same two conditions; environment calls succeed, and recovery itself is one step.
- ManifestRuns.ReopenVersion: under the same two conditions.
- Service.GetAfterCrash: under the same two conditions; creating the database and the options checked on opening are absent.
- Background.BackgroundCompaction: sequence numbers stay below 2^56, as their encoding needs; a manual compaction's remaining range, shutdown and failed writes are absent, and the whole compaction starts from one state, flushes coming between its start and its installation.
- Setup.PickCompaction: the level and file come from the caller; the score, seek statistics and round-robin pointer that choose them are not modelled.
- CompactionWork.DoCompactionWork: where outputs are cut is left to two oracles, which covers every choice of ShouldStopBefore and MaxOutputFileSize; keys that do not parse are absent.
- Database.RecoverLogs: logs are not reused as memtables after recovery, and the obsolete previous log number is absent.
- Database.DBImpl.Get: corrupted tables, the table cache and read sampling are absent.
- SkipList.SearchLinearizes: single loads and stores interleave; reordering by the memory model is not modelled.
- SkipList.List.RandomHeight: the random generator is an oracle for its coin.
- Cache.LRUCache.Insert: one shard; splitting by hash, the mutex and the identity of deleters are absent, each deleter run being one entry in a ghost list.
- GroupCommit.WriteQueue.Lead: the mutex and condition variables are atomic steps; log and sync failures are absent.
- Table.TableBuilder.Add: block sizes are given by the caller, and a data block is its entries; compression, block trailers, handles and the footer are absent.
- TableLookup.TableReader.InternalGet: a block is its entries, whose byte form `Block` and `BlockIter` cover; the block cache and corrupted blocks are absent.
- BlockIter.Iter.Seek: on blocks the builder made; corrupted blocks are absent.
- TwoLevel.TwoLevelIterator.Seek: blocks are opened from memory and never fail; keeping an already open block is not distinguished from opening it again.
- DbIter.DBIter.Next: keys that do not parse, and read sampling, are absent.
- Bloom.CreateFilter: the factor 0.69 is the rational 69/100 rounded down, which agrees below the cap of 30 probes.
- Bloom.KeyMayMatch: the hash function is a parameter; every result holds for all of them.
- LogDamage.SmallDamage: a fragment's two length bytes, and damage wider than four bytes, are not covered: such damage can meet its checksum.
- LogReader.Reader.ReadRecord: the initial offset is 0, as every caller has it, so resynchronisation and record offsets are absent; corruption counts are kept, the reporter object is not.
- Crc.Extend: the portable path only; the tables' numerals are a hypothesis about what they compute, met by `Crc.PolynomialTables`.
- VersionEdit.RoundTripIff: fields within their wire widths; the text of error messages is absent.
- ManifestBuilder.InstallAll: each edit's file numbers are new at their levels, which `ManifestRuns.ReachableNumbers` shows of every run; reference counts of file metadata are absent.
- MemTable.MemTable.Add: arena allocation is a growing sequence.
- PbEncode.OStream.Encode: the default configuration, with one-byte pb_size_t; callbacks, extensions and pointer fields are absent, and wire forms stay below 2^64 bytes.
- PbRoundTrip.StructBack: wire forms below 2^32 bytes, the range of a submessage length.
- PbDecoder.IStream.DecodeVarint32: encodings longer than five bytes, which the encoder never makes, are refused.
- PbDecoder.DecodeStruct: the struct is a value replaced field by field, so contents after a failure are not described; the bitmap of required fields is an array of booleans; a fixed-count array starts as zeros; a field number 0 for an empty message type is refused.
- Snappy, the accelerated CRC, environment failures, and corrupted tables.
- Repair, file dumping, statistics, GetProperty and approximate sizes: no deep claim.
- The Swift application code: views, Firebase calls and price bookkeeping.
