# Value separation in DiffKV and HashKV, modelled in Dafny

Two key-value stores keep keys in an LSM tree and values in separate files. In both, correctness is one claim about the
whole system: the pointer in the tree leads to the last written value, whatever garbage collection, flush, compaction,
snapshots and crashes do in between. This project models the parts of DiffKV (the Titan-derived engine under `diffkv/src`)
and of HashKV (`HashKV-old/src`) on which that claim rests, and proves it together with the algorithms and formats around it.

`dafny verify dfyconfig.toml` checks the whole project.

## What is modelled

- `BlobFileState`, `TitanProtocol`, `TitanInvariant`, `TitanTheorems`, `TitanProgress`, `TitanWitness`: DiffKV as a state machine: versions in the LSM tree, blob files with life-cycle states, snapshots, flush and compaction builds, GC jobs by phase, purge, crash.
- `TableBuilder`: the table builder, on bytes: separating, re-merging and inlining values, and the sizes collected per SST.
- `ManifestLog`, `Manifest`, `ManifestRuns`, `ManifestCodec`: edit collector, file set, recovery from the manifest, runs of the file set that go wrong, and the byte format of its records.
- `DiscardableBytes`, `DiscardableRuns`: accounting of discardable bytes over flush and compaction events and reopens, and the deletions a compaction asks the file set for.
- `SortedRuns`, `MergeSweep`, `KeyOrder`: partition of files into sorted runs; the sweep that marks files for merge.
- `Coding`, `BlobFormat`, `BlobFile`, `BlobFileIteration`, `BlobFileMerge`: integers, records, indexes; building, iterating and merging blob files.
- `GcScheduler`: counters and queue of background GC, column-family drops.
- `Modular`, `VLogRing`, `VLogDevice`, `VLogRecords`, `VLogPass`, `VLogOutcome`, `VLogStore`: HashKV in value-log mode, on bytes: write buffer, index, circular log, GC pass and how it ends.
- `DiskLayout`, `SegmentGroups`: HashKV segments on disks, allocation of segments to groups, placement of records.
- `ConsistencyLog`: frames of HashKV's consistency log.

Code that changes state step by step is written as classes and methods; each method is proved against a function or
predicate on values, about which the lemmas speak. The interleavings of DiffKV's threads are runs of a state machine
whose steps are the stretches of code that hold the database mutex or a single LSM write.

## Where the code falls short of what it promises

- **Rewrite after GC.** A comment says that GC writes a moved key back only if the key still has the old index, and a write
  callback for this exists (diffkv/src/blob_gc_job.cc:34-66, 274), but the rewrite calls a plain `Write` (590-591). With the
  callback no step is visible (`BackgroundIsTransparent`). Without it the rewrite is invisible exactly when the key still
  reads as the copied value (`PlainRewriteExact`); an update in between is lost and a deletion undone, in a state that is
  reached from an empty store (`LostUpdateReachable`).
- **GC with values separated before the memtable.** Without level merge, GC looks a record's key up and then puts the
  record back with an ordinary write (diffkv/src/blob_gc_job.cc:316-343), again without a check in between. The put is
  invisible exactly when the key still reads as the record's value (`PutBackExact`); as one step with the look-up it always is.
- **Deletions under level merge.** A completed compaction asks for the sorted files without live data to be deleted in a
  record that does not name its column family, so it names family 0 (diffkv/src/db_impl.cc:1335, 1405;
  diffkv/src/version_edit.h:57), and the refusal is ignored. The record is accepted if and only if it deletes nothing or the
  files belong to family 0 (`DeletionExact`, and `OnCompactionCompleted` for the whole event); with any other family a live
  file stays live (`DeletionMissesFamily`), and over every run no sorted file of such a family is ever removed
  (`SortedFilesStay`).
- **Purge.** The oldest snapshot is read before the lock is taken (diffkv/src/db_impl_files.cc:10-13). A purge changes no
  read at a live view if and only if it takes no obsolete file that such a reader still sees (`PurgeExact`); a number no newer
  than every live snapshot is enough (`PurgeSafe`). A number read before a snapshot is taken and a GC finishes is not: a run
  from an empty store ends with that snapshot unreadable (`StalePurgeReachable`).
- **Table builder.** `Add` loses its entry exactly when the status is bad, the key does not parse, an index that has to be
  decoded does not decode or a value that has to be separated is not stored. With a bad status `Finish` deletes the open blob
  file (diffkv/src/table_builder.cc:203-227), then overwrites the error (243) and reports success. A table reported as written
  is complete if and only if no `Add` lost its entry, and what it holds can be read if and only if the status was good or no
  blob file was open: entry by entry, exactly the indexes into the deleted file lead nowhere (`Finish`). Both are reached:
  lost entries (`FinishForgetsError`) and an index into a deleted file (`FinishDeletesFile`).
- **Level merge switched on or off.** A sorted file is read with the framing of the current setting, not the one it was
  written with; the value comes back exactly when the two agree (`FramingExact`).
- **Manifest.** Replay works exactly when no column family has a number added or deleted twice (`Reopen`), and after an
  accepted record exactly when its numbers are new to the log (`AcceptedExact`). A reused number is accepted once its file
  is purged (`ReusedNumberBreaksReplay`, and `ReuseNumber` for the run). A file set all of whose numbers came from its own
  counter, each added once, can always be reopened (`Reopen`).
- **Sweep order.** Among distinct ends of ranges the comparison is asymmetric and transitive exactly when no single-key file
  shares its key with an end of another file (`OrderExact`). It is not irreflexive: every smallest end comes before itself, so
  the comparison is a strict order on ends only when there is no file (`IrreflexiveExact`).
- **Discardable bytes.** A flush adds a negative number as an unsigned one when the file has discardable bytes already. The
  assertions in `AddDiscardableSize` hold exactly when the flush is the first and refers to no more than the payload, or refers
  to nothing (`FlushInRangeExact`); two flushes that refer to one unsorted file break them (`SecondFlush`). The assertion that a
  sorted file has none left holds exactly when the flush refers to all that is not yet referred to (`SortedInFullExact`).
- **Discardable bytes after a reopen.** Discardable sizes are not persistent and recovery does not rebuild them
  (diffkv/src/blob_format.h:247-250). After a reopen the account of the sorted files balances if and only if every byte of them
  is referred to (`ReopenExact`). A file whose account is short when it loses its last reference is not found dead
  (`OnCompactionCompleted`), and over every later run of flushes, compactions and reopens it never is (`ShortForever`); the
  same events delete the file if and only if the process is not reopened in between (`ReopenLeaks`).
- **Key bounds.** Of records added in key order, the recorded bounds are the first and last key exactly when the first key is
  not empty or all keys are (`KeyBoundsExact`).
- **Column-family drop.** A drop that the base database refuses never withdraws its request, and no GC starts again
  (`FailedDropStopsGc`, `ProgressExact`).
- **Value-log GC.** A pass that has found enough garbage ends well only if its read buffer is then used up to the last byte;
  otherwise the process exits (HashKV-old/src/gcManager.cc:252-254). How a pass ends is decided by the sizes and the liveness of
  the records in the log alone, and foretold exactly (`GcVLog`). A pass that finds enough garbage among the records it begins
  with ends well if and only if the buffer in which it finds the last of it ends where a record ends (`StopsExact`). With
  records of one size it ends well if and only if that size divides the GC size and there is a buffer's worth of dead records
  among those that fill whole buffers, or among all of them while the live ones before the last, partial buffer are more than
  the write buffer holds (`OneSizeExact`, and `Flush` for what this means to a writer).
- **Log space.** The modular space test is exact only while the reserve is kept (`GrantsExactIff`); every reachable state
  keeps it.

## Model

| member | source | states |
|---|---|---|
| `TitanInvariant.StepKeeps` | diffkv/src/blob_gc_job.cc:265-642 | every step of the protocol (writes, snapshots, builds, GC phases, marks, purge, crash) keeps the invariant: stored cells agree with the meant values, every index a reader can see resolves, obsolete files are hidden from newer readers, jobs and builds own their files |
| `TitanInvariant.InitialInv` | diffkv/src/blob_file_set.cc:25-38 | an empty store satisfies the invariant |
| `TitanInvariant.BuildFinishKeeps` | diffkv/src/table_builder.cc:203-227 | registering the outputs of a flush or compaction before their indexes are installed keeps the invariant |
| `TitanInvariant.BuildInstallKeeps` | diffkv/src/table_builder.cc:34-161 | replacing versions by what the table builder made of them, and dropping shadowed ones and tombstones with nothing left below them, keeps the invariant |
| `TitanInvariant.InstallKeepsVisible` | diffkv/src/table_builder.cc:34-161 | at every live view an install leaves the visible version of every key in its place, or drops it as a tombstone so that there is none |
| `TitanInvariant.BuildCompleteKeeps` | diffkv/src/db_impl.cc:1316-1331 | the completion event that makes outputs normal keeps the invariant |
| `TitanInvariant.GcStartKeeps` | diffkv/src/blob_gc_picker.cc:20-113 | picking normal files for a new job, whatever the settings, keeps the invariant; every index into them is now the job's to cover |
| `TitanInvariant.GcScanKeeps` | diffkv/src/blob_gc_job.cc:298-396 | deciding one record, kept or discarded by the current index, keeps every visible index into the inputs covered |
| `TitanInvariant.GcMoveKeeps` | diffkv/src/blob_gc_job.cc:316-343 | with values separated before the memtable and no level merge: putting one record back, or skipping it, keeps the invariant |
| `TitanInvariant.GcInstallKeeps` | diffkv/src/blob_gc_job.cc:512-571 | registering the outputs keeps the invariant |
| `TitanInvariant.GcRewriteKeeps` | diffkv/src/blob_gc_job.cc:573-619 | one checked rewrite, applied or skipped, keeps the invariant |
| `TitanInvariant.GcFinishKeeps` | diffkv/src/blob_gc_job.cc:621-642 | making the inputs obsolete once all rewrites are done keeps the invariant: no reader needs them from then on |
| `TitanInvariant.GcAbortKeeps` | diffkv/src/blob_gc.cc:33-42 | giving up a job in any phase keeps the invariant |
| `TitanInvariant.MarkKeeps` | diffkv/src/db_impl.cc:1384-1394 | marking files for GC or merge keeps the invariant |
| `TitanInvariant.LevelMergeDeleteKeeps` | diffkv/src/db_impl.cc:1375-1405 | asking for a sorted file nobody can see any more to be deleted keeps the invariant, whether the deletion takes effect (family 0) or not |
| `TitanTheorems.SortedFilesStay` | diffkv/src/db_impl.cc:1335-1405 | over every run under level merge in another column family, crashes and purges included, a sorted file is never removed nor marked for removal |
| `TitanInvariant.PurgeKeeps` | diffkv/src/blob_storage.cc:391-421 | removing obsolete files older than the oldest snapshot keeps the invariant |
| `TitanInvariant.CrashKeeps` | diffkv/src/blob_file_set.cc:40-147 | a crash in any phase, followed by recovery, keeps the invariant |
| `TitanTheorems.ReadIsTruth` | diffkv/src/blob_storage.cc:27-44 | a read at the latest sequence or a live snapshot never fails and returns the value meant |
| `TitanTheorems.StepRefines` | diffkv/src/blob_gc_job.cc:34-66 | every step is a step of a plain map with snapshots; background steps are no step at all |
| `TitanTheorems.StoreIsAMap` | diffkv/src/blob_gc_job.cc:265-642 | over every run, crashes included, reads at the latest sequence and at every live snapshot are those of the map |
| `TitanTheorems.NoDanglingPointer` | diffkv/src/blob_storage.cc:206-226 | in every reachable state each index visible to the latest view or a live snapshot resolves to the record of its key |
| `TitanTheorems.BackgroundIsTransparent` | diffkv/src/blob_gc_job.cc:474-510 | no flush, compaction, GC, mark or purge step changes what any reader sees |
| `TitanTheorems.BackgroundKeepsContents` | diffkv/src/blob_gc_job.cc:474-510 | no background step changes the contents of the store as a map, now or at any live snapshot |
| `TitanTheorems.PlainRewriteExact` | diffkv/src/blob_gc_job.cc:590-591 | the unchecked rewrite is invisible if and only if the key still reads as the value the scan copied |
| `TitanTheorems.PlainRewriteLosesUpdate` | diffkv/src/blob_gc_job.cc:590-591 | a put between scan and unchecked rewrite is lost; the checked rewrite leaves the history alone |
| `TitanTheorems.PlainRewriteResurrects` | diffkv/src/blob_gc_job.cc:590-591 | a key deleted between scan and unchecked rewrite comes back |
| `TitanTheorems.MoveRefines` | diffkv/src/blob_gc_job.cc:316-343 | a record put back in one step with its look-up changes nothing in the map or its snapshots |
| `TitanTheorems.PutBackExact` | diffkv/src/blob_gc_job.cc:316-343 | put back without a check, the record is invisible if and only if its key still reads as its value |
| `TitanWitness.LostUpdateReachable` | diffkv/src/blob_gc_job.cc:573-619 | a run from an empty store reaches a state in which the unchecked rewrite loses the last put |
| `TitanTheorems.PurgeExact` | diffkv/src/db_impl_files.cc:6-15 | a purge with a given oldest sequence changes no read at the latest sequence or a live snapshot if and only if no file it takes is still seen by such a reader |
| `TitanTheorems.PurgedRead` | diffkv/src/db_impl_files.cc:6-15 | one reader: a value that was found becomes a corruption exactly when its file is taken, and only for a view older than the file's obsolete sequence; any other read is unchanged |
| `TitanTheorems.PurgeSafe` | diffkv/src/db_impl_files.cc:6-15 | a number that is no newer than every live snapshot keeps the whole invariant |
| `TitanWitness.StalePurgeReachable` | diffkv/src/db_impl.h:202-213 | a run from an empty store in which the oldest snapshot is read while there is none, then a snapshot is taken and a GC finishes, and the purge makes that snapshot unreadable |
| `TitanTheorems.NoAssertFires` | diffkv/src/blob_format.cc:188-251 | no step makes a transition whose assertion fails |
| `TitanTheorems.LifecycleSafe` | diffkv/src/blob_format.cc:188-251 | the same at the end of every run |
| `TitanTheorems.ObsoleteIsAbsorbing` | diffkv/src/blob_format.cc:188-251 | an obsolete file stays obsolete, with the same sequence, until it is gone |
| `TitanTheorems.PickedOnce` | diffkv/src/blob_gc_picker.cc:31-65 | over every run a file is an input of at most one running job, and an output whose indexes are not installed is never picked |
| `TitanProgress.AlwaysPickable` | diffkv/src/blob_gc_picker.cc:20-113 | in every reachable state a live file that waits for no SST and belongs to no running job can be picked for GC, where its kind may be picked at all: no file is forgotten |
| `TitanProgress.RunOwned` | diffkv/src/blob_format.cc:188-251 | over every run a file being collected is an input of a running job, and a pending GC output is one of a running installed job |
| `TitanProgress.AbortReleases` | diffkv/src/blob_gc.cc:33-42 | after a job is given up its inputs and registered outputs can be picked by the next one |
| `TitanProgress.FinishReleases` | diffkv/src/blob_format.cc:202-208 | after a job its outputs can be picked by the next one |
| `TitanProgress.FinishRetires` | diffkv/src/blob_gc_job.cc:621-642 | after a job its inputs are obsolete from the latest sequence number on |
| `TitanProgress.FinishThenPurge` | diffkv/src/blob_storage.cc:391-421 | without snapshots the next purge removes them |
| `TitanProgress.PurgeTakes` | diffkv/src/blob_storage.cc:391-421 | a purge takes exactly the obsolete files that became so before every live snapshot, and changes no other |
| `TitanProgress.JobCanFinish` | diffkv/src/blob_gc_job.cc:265-642 | from every state of the invariant the steps of a job alone bring it to its end, with its inputs obsolete |
| `TitanProgress.ScanCopies` | diffkv/src/blob_gc_job.cc:315-396 | a record is copied if and only if the latest index of its key is its own, and then unchanged |
| `TitanProgress.CompleteReleases` | diffkv/src/blob_format.cc:188-201 | after its completion event an output is normal and can be picked where its kind may be |
| `TitanProgress.MarkTells` | diffkv/src/blob_format.cc:226-251 | a marked file is in one of the two states in which the table builder moves its values, and no other file changes |
| `TitanProgress.DeadDeletable` | diffkv/src/db_impl.cc:1375-1383 | a sorted file under level merge that no version refers to can be deleted unless it waits for its SST |
| `TitanProgress.DeleteThenPurge` | diffkv/src/db_impl.cc:1375-1405 | in family 0 it is then obsolete from the latest sequence number on, and without snapshots the next purge removes it |
| `TitanProgress.CrashForgets` | diffkv/src/blob_file_set.cc:95-119 | recovery brings back exactly the files that are not obsolete, normal and with their records |
| `TableBuilder.TitanTableBuilder.Add` | diffkv/src/table_builder.cc:34-161 | the entry is written if and only if the status is good, the key parses, the index decodes where it must and the value is stored where it must be separated; the status afterwards is exact too; where the entry lands is spelled out: a value in a file of the builder exactly from the minimum size on in normal mode, an index inlined exactly in fallback mode and moved exactly if it leads to a sorted file of a lower level, or to one marked for merge or GC, at a level that merges; anything else is copied |
| `TableBuilder.TitanTableBuilder.AddBlob` | diffkv/src/table_builder.cc:163-201 | the index returned reads back the value, with the framing it was written with; there is one exactly when the environment let the file be opened, appended to and, if full, closed |
| `TableBuilder.TitanTableBuilder.OpenFile` | diffkv/src/table_builder.cc:168-176 | opening a file with a fresh number changes no entry's meaning; it fails exactly when there is no number or the header is not written, and then the status is bad |
| `TableBuilder.TitanTableBuilder.Append` | diffkv/src/table_builder.cc:184-200 | appending and closing keep all earlier indexes readable |
| `TableBuilder.TitanTableBuilder.Remerge` | diffkv/src/table_builder.cc:95-157 | an index into a file to be merged comes out pointing into the builder's files with the same value, or unchanged |
| `TableBuilder.TitanTableBuilder.Inline` | diffkv/src/table_builder.cc:48-79 | fallback mode: a readable index becomes its value, an unreadable one is copied |
| `TableBuilder.TitanTableBuilder.Finish` | diffkv/src/table_builder.cc:203-251 | success depends on the last file and the registration alone; a table reported as written preserves what was kept if and only if the status was good or no file was open, and entry by entry exactly the indexes into the deleted file are broken; it is complete if and only if no Add lost its entry; its entries refer to every byte of the new blob files besides header and footer, and to no more of any other file than the entries kept; every file but the last is closed as soon as it reaches the target size, and not before; at a merging level, if all reads and stores went well, no entry refers to a sorted file of a lower level or to one marked for merge or GC |
| `TableBuilder.FinishForgetsError` | diffkv/src/table_builder.cc:240-251 | two entries handed in, the first unparsable: both are lost, nothing is written and success is reported |
| `TableBuilder.FinishDeletesFile` | diffkv/src/table_builder.cc:203-251 | a run: a value goes to a file that stays open, an unparsable key follows; success is reported, the file is deleted and the table keeps an index that leads nowhere |
| `TableBuilder.DeletionBreaks` | diffkv/src/table_builder.cc:219-226 | deleting the open file always breaks the table: exactly the entries that point into it lose their meaning, and there is one |
| `TableBuilder.PreservesGrows` | diffkv/src/table_builder.cc:163-201 | what was written keeps its meaning while blob files grow and new ones appear |
| `TableBuilder.MovedSame` | diffkv/src/table_builder.cc:184-195 | an index into freshly appended bytes means the moved value |
| `TableBuilder.LookFinds` | diffkv/src/blob_storage.cc:27-44 | a record is found in a file of the store as it was written: bare in a sorted file under level merge, with its key in any other |
| `TableBuilder.AccountedAppend` | diffkv/src/blob_file_size_collector.cc:45-67 | one append: the entry and the bytes it adds to its file, footer aside, keep the referred bytes of every new file equal to its bytes besides header and footer |
| `TableBuilder.DropsStep` | diffkv/src/blob_file_size_collector.cc:45-67 | writing an entry, copied or pointing into the builder's files, refers to no more of any other file than the entry read |
| `TableBuilder.CollectSizes` | diffkv/src/blob_file_size_collector.cc:45-67 | the size collector's map holds the referred bytes of exactly the files mentioned |
| `ManifestLog.GatherAllExact` | diffkv/src/edit_collector.h:21-53 | a log can be collected if and only if no column family has a number added twice or deleted twice |
| `Manifest.EditCollector.AddEdit` | diffkv/src/edit_collector.h:21-53 | a record is taken exactly when it repeats nothing and its next number does not go down |
| `Manifest.EditCollector.AddLog` | diffkv/src/blob_file_set.cc:76-83 | a log is taken exactly when it can be collected and its next numbers climb |
| `Manifest.EditCollector.SealFamily` | diffkv/src/edit_collector.h:138-185 | sealing succeeds exactly when added numbers are unknown and other deleted files are there and live |
| `Manifest.EditCollector.Seal` | diffkv/src/edit_collector.h:56-75 | the batch is accepted as a whole or refused, and the file set is only read |
| `Manifest.EditCollector.ApplyFamily` | diffkv/src/edit_collector.h:187-216 | a sealed batch cannot fail; additions and deletions in one batch cancel |
| `Manifest.EditCollector.Apply` | diffkv/src/edit_collector.h:78-99 | the same over all column families; without a seal nothing changes |
| `Manifest.BlobFileSet.LogAndApply` | diffkv/src/blob_file_set.cc:211-230 | a record is logged and applied if and only if it repeats no number, adds only files its family does not know and deletes only live ones or ones it adds; then added files are there unless also deleted, deleted ones are obsolete at their sequence, and nothing else changes; otherwise nothing changes at all; the manifest goes on describing the live files |
| `Manifest.FittingIs` | diffkv/src/edit_collector.h:138-185 | collecting and sealing a record succeeds exactly under that condition on its two lists |
| `Manifest.EffectIs` | diffkv/src/edit_collector.h:187-216 | applying it has exactly that effect on its family, and none on any other |
| `Manifest.AcceptedExact` | diffkv/src/blob_file_set.cc:211-230 | the log still describes the files after an accepted record, and can still be replayed if and only if the record's numbers are new to it |
| `Manifest.BlobFileSet.Purge` | diffkv/src/blob_storage.cc:391-421 | a file stays if and only if it is live or its obsolete sequence is at least the given one, and its entry is unchanged |
| `Manifest.WriteSnapshot` | diffkv/src/blob_file_set.cc:181-209 | the snapshot describes exactly the live files and ends with the given next number |
| `Manifest.BlobFileSet.Open` | diffkv/src/blob_file_set.cc:25-38 | a first start leaves a manifest that describes the empty set |
| `Manifest.BlobFileSet.Recover` | diffkv/src/blob_file_set.cc:40-147 | replay succeeds exactly for replayable logs and yields what the log leaves; the new manifest describes it again |
| `Manifest.Reopen` | diffkv/src/blob_file_set.cc:40-147 | after a crash at any time, reopening succeeds if and only if nothing was added or deleted twice, gives back exactly the live files, and the next number exceeds all of them; it always succeeds for a file set whose numbers came from its own counter and were added once |
| `Manifest.ReusedNumberBreaksReplay` | diffkv/src/edit_collector.h:138-185 | a purged number that comes back is accepted and the log can no longer be replayed |
| `ManifestRuns.ReuseNumber` | diffkv/src/edit_collector.h:187-216 | a run of the file set: a file is added, deleted and purged and its number added again; every record is accepted and the manifest can no longer be collected |
| `Manifest.DeletionExact` | diffkv/src/db_impl.cc:1335-1405 | a record that deletes live files of a column family without naming it is accepted if and only if it deletes nothing or the family is 0, and then exactly those files become obsolete |
| `ManifestRuns.DeletionMissesFamily` | diffkv/src/version_edit.h:57 | a run of the file set: a live file of any other family is to be deleted, the record is refused and the file stays live |
| `ManifestCodec.MetaRoundTrip` | diffkv/src/blob_format.cc:142-179 | a file meta decodes to itself, whatever follows it |
| `ManifestCodec.DecodeEdit` | diffkv/src/version_edit.cc:30-101 | the decoding loop reads the fields in order |
| `ManifestCodec.EditRoundTrip` | diffkv/src/version_edit.cc:8-101 | an encoded record decodes, using up all bytes, to the same record but for obsolete sequences, in whatever order the map is walked |
| `ManifestCodec.DecodeSizes` | diffkv/src/blob_file_size_collector.cc:25-43 | the decoding loop reads as many pairs as announced |
| `ManifestCodec.SizesRoundTrip` | diffkv/src/blob_file_size_collector.cc:16-43 | the size map survives being written and read |
| `DiscardableBytes.NoLiveDataExact` | diffkv/src/blob_format.h:228-230 | a sorted file found without live data has none; one that has none is found if and only if its account balances |
| `DiscardableBytes.ReopenExact` | diffkv/src/blob_format.h:247-250 | after a reopen the account balances if and only if every byte of every sorted file is referred to, and file by file likewise; no byte is ever counted twice |
| `DiscardableBytes.FileSizes.Reopen` | diffkv/src/blob_file_set.cc:70-98 | files come back with no discardable bytes, deleted ones not at all, whether or not the last event was handled |
| `DiscardableBytes.FileSizes.OnFlushCompleted` | diffkv/src/db_impl.cc:1213-1236 | the first flush of a file makes discardable what it does not refer to, a later one takes its bytes back, and a pending file becomes normal; under level merge a flush counts no byte twice and keeps a balanced account balanced |
| `DiscardableBytes.FileSizes.OnCompactionCompleted` | diffkv/src/db_impl.cc:1251-1405 | for every file, sorted or not, discardable plus referred bytes stay the same where references are dropped, and the discardable size stays the same where they grow; states are spelled out: new files become normal, and under level merge a sorted file that lost references and has a share of garbage above the ratio is marked for GC; the sorted files asked to be deleted are exactly those with a balanced account that lost their last reference, all at the latest sequence number; they become obsolete, here and in the file set, if and only if the family is 0; without level merge nothing is deleted or marked |
| `DiscardableBytes.FileAccount` | diffkv/src/db_impl.cc:1347-1368 | one file of any kind: dropped references become discardable, byte for byte |
| `DiscardableBytes.AskedFor` | diffkv/src/db_impl.cc:1335-1405 | the files a compaction asks to be deleted are live files of its family, so the record is accepted if and only if there is none or the family is 0 |
| `DiscardableBytes.Differences` | diffkv/src/db_impl.cc:1251-1303 | per file, what outputs refer to minus what inputs did, and the files only outputs mention |
| `DiscardableBytes.SettleBalanced` | diffkv/src/db_impl.cc:1347-1383 | one file: its account stays balanced or short, the assertions on added bytes hold, and it goes exactly when nothing refers to it and its account balances |
| `DiscardableBytes.FlushInRangeExact` | diffkv/src/db_impl.cc:1224-1234 | the addition of a flush passes the assertions if and only if it is the first and refers to no more than the payload, or refers to nothing; the wrapped sum is right all the same |
| `DiscardableBytes.SortedInFullExact` | diffkv/src/db_impl.cc:1224-1234 | the assertion on sorted files passes if and only if the file is unsorted or the flush refers to every byte not yet referred to |
| `DiscardableBytes.SecondFlush` | diffkv/src/blob_format.cc:253-257 | a run of the handlers: two flushes refer to one unsorted file, and the second addition is out of range |
| `DiscardableRuns.ShortForever` | diffkv/src/db_impl.cc:1347-1383 | over every run of registrations, flushes, compactions and reopens under level merge, a sorted file with a short account stays live and is never asked to be deleted |
| `DiscardableRuns.ReopenShortens` | diffkv/src/blob_format.h:247-250 | a reopen leaves the account of a live sorted file short if and only if part of it is not referred to |
| `DiscardableRuns.ReopenLeaks` | diffkv/src/db_impl.cc:1251-1405 | a run of the handlers and the file set: the file that loses its last reference is deleted if and only if the process was not reopened before |
| `SortedRuns.CountSortedRun` | diffkv/src/blob_storage.cc:253-275 | the runs partition the files, each strictly ascending and disjoint; their number is the largest number of files sharing a key, so no partition into sorted runs is smaller |
| `SortedRuns.AnyPartitionBound` | diffkv/src/blob_storage.cc:253-275 | files sharing a key are no more than the runs of any partition |
| `SortedRuns.OpeningWitness` | diffkv/src/blob_storage.cc:259-271 | when a run is opened, the new file and the last of every run share its smallest key |
| `MergeSweep.MarkFileIfNeedMerge` | diffkv/src/db_impl.cc:955-1012 | a file is marked if and only if it overlaps more than the allowed number of files and is neither obsolete nor marked for merge or GC |
| `MergeSweep.SweepCounts` | diffkv/src/db_impl.cc:983-1009 | the difference of the two running counts is the set of overlapping files |
| `MergeSweep.OrderExact` | diffkv/src/db_impl.cc:968-981 | among distinct ends the comparison is asymmetric and transitive if and only if single-key files share their key with no end of another file |
| `MergeSweep.IrreflexiveExact` | diffkv/src/db_impl.cc:968-981 | an end comes before itself if and only if it is a smallest end, so the comparison is irreflexive if and only if there is no file |
| `BlobFormat.FramingExact` | diffkv/src/blob_format.cc:20-40 | a value comes back if and only if it is read with the framing it was written with |
| `BlobFormat.RecordRoundTrip` | diffkv/src/blob_format.cc:46-100 | an encoded record decodes to itself, whatever follows it |
| `BlobFormat.RecordChecksum` | diffkv/src/blob_format.cc:46-64 | the checksum of a record comes first and covers all that follows it |
| `BlobFormat.IndexRoundTrip` | diffkv/src/blob_format.cc:102-135 | likewise for a blob index |
| `BlobFile.ReadFinished` | diffkv/src/blob_file_builder.cc:21-67 | every record of a finished file is read back through the handle it was added with |
| `BlobFile.EndFound` | diffkv/src/blob_file_iterator.cc:19-48 | header and footer of a finished file pass their checks and give the end of the record area |
| `BlobFile.HeaderExact` | diffkv/src/blob_format.cc:290-305 | no bytes but the header written pass for one |
| `BlobFile.FooterExact` | diffkv/src/blob_format.cc:307-336 | a footer is sound if and only if its handle decodes, its magic number is right and its checksum fits the rest |
| `BlobFileIteration.BlobFileBuilder.Add` | diffkv/src/blob_file_builder.cc:21-52 | the record is appended and the handle is its offset and size |
| `BlobFileIteration.BlobFileBuilder.Finish` | diffkv/src/blob_file_builder.cc:54-67 | the content is header, records, footer |
| `BlobFileIteration.KeyBoundsExact` | diffkv/src/blob_file_builder.cc:34-50 | for records in key order the bounds are first and last key if and only if the first key is not empty or all are |
| `BlobFileIteration.BlobFileIterator.SeekToFirst` | diffkv/src/blob_file_iterator.cc:50-55 | the first record, with its handle, or none |
| `BlobFileIteration.BlobFileIterator.Next` | diffkv/src/blob_file_iterator.cc:59-62 | the next record, with its handle, or the end |
| `BlobFileIteration.BlobFileIterator.IterateForPrev` | diffkv/src/blob_file_iterator.cc:68-95 | for an offset in the record area, the last record that starts at or before it; before the area, the first record; past the area, an error |
| `BlobFileIteration.ReadAll` | diffkv/src/blob_file_iterator.cc:50-124 | iterating yields exactly the records added, in order, with offset and size as returned when they were added |
| `BlobFileMerge.Merge` | diffkv/src/blob_file_iterator.cc:170-193 | every record of every input exactly once, each input in order, and sorted if every input is |
| `GcScheduler.StepKeeps` | diffkv/src/db_impl_gc.cc:16-74 | running is at most scheduled is at most the limit, queue length is unscheduled plus scheduled minus running, and a starting worker finds a request |
| `GcScheduler.SchedulingIsSafe` | diffkv/src/db_impl_gc.cc:16-74 | over every run: the limits, requests taken in order and once each, no job between a drop's wait and its end |
| `GcScheduler.FailedDropStopsGc` | diffkv/src/db_impl.cc:460-482 | after a refused drop no later run takes another request |
| `GcScheduler.ProgressExact` | diffkv/src/db_impl.cc:460-482 | with a request queued and no job running, drops and scheduling alone lead to it being taken if and only if no drop was refused |
| `GcScheduler.Scheduler.MaybeScheduleGC` | diffkv/src/db_impl_gc.cc:16-29 | the loop schedules as many requests as the limit allows |
| `GcScheduler.Scheduler.BeginBackgroundGC` | diffkv/src/db_impl_gc.cc:38-47 | the worker takes the oldest request |
| `GcScheduler.Scheduler.EndBackgroundGC` | diffkv/src/db_impl_gc.cc:59-61 | counters, requeueing and rescheduling at the end of a job |
| `GcScheduler.Scheduler.AddToGCQueue` | diffkv/src/db_impl.h:177-181 | the family asked for joins the end of the queue and is to be scheduled |
| `GcScheduler.Scheduler.FinishDrop` | diffkv/src/db_impl.cc:473-482 | the request is withdrawn only on success |
| `VLogRing.GrantsExactIff` | HashKV-old/src/segmentGroupManager.cc:489-520 | the space test grants exactly what leaves the reserve free, for all sizes, if and only if the reserve is free now |
| `VLogRing.GrantsMeasures` | HashKV-old/src/segmentGroupManager.cc:489-520 | what the test measures in general: the distance from the reserved front, modulo the capacity |
| `VLogDevice.WriteDisk` | HashKV-old/src/deviceManager.cc:101-144 | a write that wraps round the end puts each byte at its place and leaves the others |
| `VLogDevice.ReadDisk` | HashKV-old/src/deviceManager.cc:101-144 | a read that wraps round the end returns the bytes in order |
| `VLogPass.LiveTest` | HashKV-old/src/gcManager.cc:169-171 | comparing a location modulo the capacity decides exactly whether the record is the one the index means |
| `VLogPass.WriteBackGranted` | HashKV-old/src/gcManager.cc:172-190 | a GC write-back is never refused space |
| `VLogPass.WriteBackKeeps` | HashKV-old/src/gcManager.cc:172-190 | a write-back moves live records without changing what the index means |
| `VLogPass.WriteBackSparesLive` | HashKV-old/src/gcManager.cc:171-198 | a write-back between test and copy does not disturb the record at hand |
| `VLogPass.FlushKeeps` | HashKV-old/src/valueManager.cc:1062-1107 | a flush adds the buffer's records to the log and to what the index means, the last record of a key winning |
| `VLogOutcome.LiveOrDead` | HashKV-old/src/gcManager.cc:169-171 | between passes the bytes of the log are those of one live record for each key of the map and of the records the test finds dead |
| `VLogOutcome.TapeFromIndex` | HashKV-old/src/gcManager.cc:169-171 | between passes the comparison modulo the capacity decides the liveness of every record in the log, and with it all that the end of a pass depends on |
| `VLogOutcome.TapeWrittenBack` | HashKV-old/src/gcManager.cc:172-190 | a write-back changes the liveness of no record still to be scanned, and what it writes is live |
| `VLogOutcome.DeadFrontEnds` | HashKV-old/src/gcManager.cc:141-254 | a front of dead records of exactly the GC size ends well |
| `VLogOutcome.OneSizeExact` | HashKV-old/src/gcManager.cc:141-254 | with records of one size a pass ends well if and only if that size divides the GC size and there is a buffer's worth of dead records where the pass can get to, over any number of buffers |
| `VLogOutcome.StopsExact` | HashKV-old/src/gcManager.cc:141-254 | with records of any sizes, a pass that finds enough garbage among those it begins with ends well if and only if the last buffer ends where a record ends |
| `VLogOutcome.RipeLogEnds` | HashKV-old/src/gcManager.cc:141-254 | the same for a log of records of one size, in terms of its records and the index |
| `VLogStore.Store.Reserve` | HashKV-old/src/segmentGroupManager.cc:489-520 | the front moves exactly when the test grants the space |
| `VLogStore.Store.GcVLog` | HashKV-old/src/gcManager.cc:116-262 | every pass ends as foretold from the sizes and the liveness of the records, write-backs it reads again included; a pass that ends well leaves every key's value as it was, frees at least the GC size, and frees exactly as much as the garbage shrinks |
| `VLogStore.Store.ScanBuffer` | HashKV-old/src/gcManager.cc:157-208 | parsing the read buffer on bytes does what parsing the list of sizes and liveness does, and changes no key's value |
| `VLogStore.Store.ReserveForFlush` | HashKV-old/src/valueManager.cc:1109-1141 | a pass is run exactly when the space is not there, it ends as foretold, and space is reserved exactly when none was needed or the pass ended well |
| `VLogStore.Store.Flush` | HashKV-old/src/valueManager.cc:1062-1107 | the buffered records become part of the log and the buffer is empty; it succeeds if and only if there is nothing to write, the space is there or a pass is foretold to end well; for a log of records of one size this is said in terms of the records and the index |
| `VLogStore.Store.Put` | HashKV-old/src/valueManager.cc:215-318 | the store as a map gains the pair and nothing else, GC inside a flush included; it succeeds whenever the space is there; the buffer is never left full, and left empty if every write is to be flushed |
| `VLogStore.Store.Get` | HashKV-old/src/valueManager.cc:320-386 | buffer first, then index and log: the last value put, or nothing |
| `VLogStore.Store.ForceSync` | HashKV-old/src/valueManager.cc:1356-1364 | the map is unchanged and the buffer empty; success is exact as for a flush |
| `DiskLayout.SegmentsDisjoint` | HashKV-old/src/deviceManager.cc:45-66 | distinct segments on one disk occupy disjoint byte ranges, for any number of disks and segments |
| `SegmentGroups.PlacedFits` | HashKV-old/src/valueManager.cc:834-941 | a record lies wholly in one segment, directly behind the last one, or at the start of a new segment exactly when the last has no room |
| `SegmentGroups.LastFront` | HashKV-old/src/valueManager.cc:1201-1215 | the computed front is the front within the last segment |
| `SegmentGroups.RecordsDisjoint` | HashKV-old/src/segmentGroupManager.cc:457-479 | distinct records, of one group or of two, share no byte of a disk |
| `SegmentGroups.SegmentGroupManager.Place` | HashKV-old/src/valueManager.cc:834-941 | addresses within the group strictly increase; a record is refused only when it needs a log segment and none is free |
| `SegmentGroups.SegmentGroupManager.GetNewMainSegment` | HashKV-old/src/segmentGroupManager.cc:64-120 | a free main segment starts a group; refused exactly when all are taken; free counts match the map |
| `SegmentGroups.SegmentGroupManager.GetMainSegment` | HashKV-old/src/kvServer.cc:77-81 | the main segment a key hashes to starts a group; refused exactly when it is taken or no main segment |
| `SegmentGroups.SegmentGroupManager.GetNewLogSegment` | HashKV-old/src/segmentGroupManager.cc:64-120 | a free log segment joins the group; refused exactly when all are taken; free counts match the map |
| `SegmentGroups.SegmentGroupManager.ReleaseGroupLogSegments` | HashKV-old/src/segmentGroupManager.cc:311-326 | exactly the group's log segments become free and the group keeps its main segment |
| `ConsistencyLog.GenerateGroupValue` | HashKV-old/src/segmentGroupManager.cc:707-714 | front and segments as decimal numbers with separators |
| `ConsistencyLog.ReadGroupMeta` | HashKV-old/src/segmentGroupManager.cc:737-754 | the parsing loop reads the numbers between separators |
| `ConsistencyLog.GroupRoundTrip` | HashKV-old/src/segmentGroupManager.cc:707-754 | parsing undoes printing, for every front and every list |
| `ConsistencyLog.WriteBatch` | HashKV-old/src/logManager.cc:71-126 | a frame with end mark for a non-empty batch, nothing for an empty one |
| `ConsistencyLog.ReadBatch` | HashKV-old/src/logManager.cc:136-266 | the scan reads a frame with end mark field by field and refuses any other |
| `ConsistencyLog.FrameRoundTrip` | HashKV-old/src/logManager.cc:71-266 | a complete frame gives back groups, keys and locations in order |

## Left out

- RocksDB, LevelDB, file handles, caches, prefetching, fsync and thread pools: the LSM tree is a history of versions or a map, a file a sequence of bytes, an LSM write durable on return.
- Compression and CRC32C: a pair of functions of which only the inverse law is used, and a checksum function; the code does not compare record checksums.
- util/coding.h is not part of this repository: varints are little-endian base 128, fixed integers little-endian, with the 32- and 64-bit truncation of the readers.
- 32-bit and 64-bit limits of encoded lengths and numbers are preconditions of the round trips.
- A build without assertions, which would go on where one fails: a transition whose assertion fails leaves the state of the file alone; TitanTheorems.LifecycleSafe shows that none fails in the protocol.
- TitanTheorems.PickedOnce: does not cover files written before the memtable, which are normal from the start.
- TitanInvariant.GcMoveKeeps: the look-up and the put are one step, which the code does not ensure; a put that fails, after which the code goes on and deletes the input, is not modelled, because it is input and output.
- The threads of ForegroundBuilder: a write separated before the memtable is one atomic step with a file of its own.
- DeleteFilesInRanges and DeleteBlobFilesInRanges: by design they do not respect snapshots.
- Column-family drop inside the protocol: it appears in GcScheduler only.
- Merge operators.
- How the GC picker scores and bounds a batch, and GC sampling: a job may start on any set of files it is allowed to pick.
- Discardable-size updates in manifest records are carried by the codec but not by Manifest, since the collector keeps only the first of several.
- Manifest.BlobFileSet.LogAndApply: does not model a failing append or sync of the manifest, because that is input and output.
- ManifestCodec.DecodeEdit: a legacy record gets zero entries and level zero, which the code leaves uninitialised.
- TableBuilder.TitanTableBuilder.Add: does not model errors of the base table builder, because that builder is not part of this repository.
- DiscardableBytes: what a flush or compaction refers to is a precondition (a new sorted file is referred to whole, of others references are only kept or dropped); TableBuilder.TitanTableBuilder.Finish shows both parts for the table builder. Updates of discardable sizes by range deletion are not modelled.
- SortedRuns.CountSortedRun: std::sort is an insertion sort; MergeSweep.MarkFileIfNeedMerge takes any order of the ends that the comparison accepts.
- BlobFileIteration.ReadAll: covers finished files whose records carry their keys, because the iterator reads no others; damaged files and failing reads are not modelled.
- GcScheduler: shutdown, disabled background GC and the scheduling entry point used by unit tests.
- VLogStore.Store.GcVLog: says nothing about the state when a pass goes once round without enough garbage, would read past the write front or does not end on a record boundary, because the code then never returns or exits.
- VLogStore.Store.Put: a record fits the write buffer; deletes, in-place updates, the slave log and hot-cold placement are not modelled.
- HashKV's hash-mode GC, recovery from the GC log and the segment buffers between placement and disk.
- SegmentGroups.SegmentGroupManager.Place: values small enough to go to the LSM tree instead are not modelled, because they take no log space.
- VLogStore.Store.Get: an empty value is returned as it is; the code asserts that a value found in the buffer is not empty (HashKV-old/src/valueManager.cc:333).
- ConsistencyLog.ReadBatch: refuses a frame with end mark that is cut short or holds another number of keys than announced, because CHECK_REMAINS leaves only its own block and the code then reads past the end of the frame.
- ConsistencyLog: value locations are the bytes they are serialised to; std::stoul failing is a missing result.
- Statistics, options, histograms, benchmarks and tools.
