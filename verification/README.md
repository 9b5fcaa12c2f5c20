# PebblesDB: a verified model of its core

PebblesDB keeps a log-structured merge tree whose levels are cut up by *guards*: inside one guard's
interval, tables may overlap. This project models the parts of the store whose correctness is not visible
from any one function, and proves what they promise.

- **Cursors.** `DbIter`, `Merger` (with `Heaps`) and `BlockIter`, against the plain cursor of `Cursor`: each
  iterator of the stack (snapshot view over merged children over prefix-compressed blocks) is a cursor over
  a plain list, through every sequence of moves and changes of direction.
- **Concurrent structures.** `SkipList`, `Arena` and the writers' half of `Log` are state machines over
  atomic steps, for any number of threads and any interleaving. `Install` is the one for complete guards
  that writers append while a version is being installed with the lock released.
- **Versions.** `Guards` (dealing files to guards, lookups), `Pick` (what a compaction must take, so that
  guards contain their files), `Builder`, `Manifest` and `Replay` (saving versions, recovering from any
  prefix of the manifest), `Overlap` (the fixpoint of overlapping inputs), `Compaction` (which entries are dropped, and where
  outputs are cut).
- **Formats.** `Crc`, `Coding`, `Log`, `LogReader`, `LogSound`, `LogLoss`, `Blocks`, `Table`, `Edits`, `Bloom`:
  round trips, fast forms against simple ones, damaged logs, and filters that set no bit too few or too many.
- **Cache.** `Cache`: one shard, with its chained hash table, recency list and reference counts.

Things the code relies on, or gets wrong, come with the exact condition and an input that shows it:
a file that ends on a guard key is missed by lookups (`Guards.LookupsExactIff`), a record that spills over
a whole number of log blocks loses the record after it (`LogLoss.LogReadsBackIff`), offsets are rounded
wrongly from 4 GiB on (`Log.RoundUpExactIff`), an unreadable key can bring an overwritten value back in a
compaction (`Compaction.ReadsPreservedExactly`), a file added while live is listed twice until the next
recovery, and a guard key written twice may come back from recovery with another sequence number
(`Replay.RunAndRecover`, with `Manifest.RecordSettlesIff`), and an edit's guard whose own level is not the
one it is listed under does not survive the manifest (`Edits.EditRoundTripsIff`).

Where the source and its comments differ, the source is followed: `FindGuard` returns guard 0 also for
keys before every guard, the merging iterator compares keys alone because the internal comparator has no
key numbers of its own, and the writer's `ComputeRecordSize` reserves one header more than is written when
a record fills its last block.

Conventions: byte strings are sequences of integers below 256; internal keys are a user key and a packed
sequence number and kind; integer widths are written out where the source's arithmetic depends on them.
`std::set` and `std::sort` are modelled by what they promise, the heap functions by heaps that sift. A few
predicates carry an explicit trigger on a predicate that is always true (`Look`, `Linked`): it keeps a long definition from
being unfolded except where it is asked for.

## Model

| member | source | states |
|---|---|---|
| `DbIter.ViewIsSnapshotMap` | src/db/db_iter.cc:187-219 | The list the iterator should show is strictly increasing in the user key and holds exactly the user keys whose newest entry visible at the snapshot is a value, with that value. |
| `DbIter.DBIter.FindNextUserEntry` | src/db/db_iter.cc:187-219 | The forward scan stops on the next entry of that list, skipping hidden and deleted keys, or at the end. |
| `DbIter.DBIter.FindPrevUserEntry` | src/db/db_iter.cc:248-288 | The backward scan ends on the last entry of the list before its starting point, with key and value saved, or finds there is none. |
| `DbIter.DBIter.Next` | src/db/db_iter.cc:160-185 | Shows the least live key after the one shown, with its value, or nothing if there is none, also after a backward move. |
| `DbIter.DBIter.Prev` | src/db/db_iter.cc:221-246 | Shows the greatest live key before the one shown, or nothing, also after a forward move. |
| `DbIter.DBIter.Seek` | src/db/db_iter.cc:290-302 | Shows the least live key at or after the target. |
| `DbIter.DBIter.SeekToFirst` | src/db/db_iter.cc:304-313 | Shows the least live key, if any. |
| `DbIter.DBIter.SeekToLast` | src/db/db_iter.cc:315-320 | Shows the greatest live key, if any. |
| `DbIter.DBIter.Run` | src/db/db_iter.cc:160-320 | For every sorted stream, snapshot and sequence of moves: after each move the iterator shows the least, greatest, next or previous live key that was asked for, and so what a plain cursor over the list shows. |
| `DbIter.StepShows` | src/db/db_iter.cc:160-320 | A step of the plain cursor, whichever it is, shows the least or greatest of the live keys it should, a key being live when its newest entry the snapshot sees is a value. |
| `DbIter.DBIter.ParseKey` | src/db/db_iter.cc:137-158 | A key of neither kind cannot be read; that is reported and stays reported. |
| `Cursor.MovedShows` | src/db/db_iter.cc:160-320 | For any sorted list of what there is to show, the plain cursor moves to its least, greatest, next, previous or first not early element. |
| `SkipList.KeyNumMonotone` | src/util/comparator.cc:72-86 | The eight-byte key number follows the bytewise order and never exceeds the "no successor" hint. |
| `SkipList.RunInv` | src/db/skiplist.h:146-163 | Every step of every inserter and search keeps: each level a sorted sublist of the level below, and each hint at least its successor's key number. |
| `SkipList.RunsAreSafe` | src/db/skiplist.h:396-431 | In every reachable state each level read by its pointers is a sorted list without repeats, of nodes of the level below; no thread follows a null pointer or is stuck. |
| `SkipList.SearchAnswers` | src/db/skiplist.h:281-309 | A search ends on the least key at or after its target in the bottom list of that moment, although it reads hints instead of keys. |
| `SkipList.SearchSeesEarlierInsert` | src/db/skiplist.h:281-309 | A key linked before a search ends is not passed over by it. |
| `SkipList.BackAnswers` | src/db/skiplist.h:342-380 | A backward search ends on the greatest key before its limit, or of the whole list, in the bottom list of that moment. |
| `SkipList.RunServes` | src/db/skiplist.h:281-431 | From its request to its next one a thread works on the operation, key or limit it was asked for. |
| `SkipList.InsertAnswers` | src/db/skiplist.h:396-431 | An insertion that is done has linked a node of the key asked for at every level up to its height. |
| `SkipList.RunPersists` | src/db/skiplist.h:396-431 | What is linked at a level stays linked, under the same key. |
| `SkipList.WalkIsSortedLevel` | src/db/skiplist.h:225-230 | Following a level's pointers visits exactly its nodes, in key order. |
| `SkipList.NeverStuck` | src/db/skiplist.h:396-431 | Every thread inside an operation can take its next step. |
| `Arena.RunInv` | src/util/arena.cc:80-176 | In every interleaving, for each shared block the gap between its two ends is what remains plus what is reserved and not yet handed out. |
| `Arena.RangesDisjoint` | src/util/arena.cc:80-176 | All ranges ever handed out are pairwise disjoint, inside their block, and aligned when that was asked for. |
| `Arena.RequestAnswered` | src/util/arena.cc:80-112 | A request ends with a range on record, in its block, of the bytes asked for, and for an aligned one rounded up to the alignment and aligned. |
| `Arena.GivenGrows` | src/util/arena.cc:146-176 | A range once handed out stays handed out. |
| `Arena.RoundedPositive` | src/util/arena.cc:107-112 | A positive request stays positive when rounded up. |
| `Merger.MergeAllIsMerge` | src/table/merger.cc:500-516 | The merge of the children is sorted and holds exactly their entries. |
| `Merger.MergingIterator.ReinitializeComparisons` | src/table/merger.cc:467-478 | The heap holds exactly the children that have an entry, and no child comes before its parent in the current direction. |
| `Merger.MergingIterator.PopCurrentComparison` | src/table/merger.cc:480-486 | The current child leaves the heap, which must be one for the current direction and stays one. |
| `Merger.MergingIterator.PushCurrentComparison` | src/table/merger.cc:488-498 | The moved child goes back if it is still valid; the heap stays a heap. |
| `Merger.MergingIterator.ComparatorGoesByHeight` | src/table/merger.cc:458-465 | With key numbers up to date the comparator orders the children by their place in the merge. |
| `Heaps.Make` | src/table/merger.cc:476-477 | A rearrangement in which no element is above its parent. |
| `Heaps.Pop` | src/table/merger.cc:480-486 | From a heap, the front is taken out and the rest is a heap. |
| `Heaps.Push` | src/table/merger.cc:488-498 | To a heap with one element behind it: the whole is a heap. |
| `Heaps.FrontIsTop` | src/table/merger.cc:500-516 | The front of a heap is below none of its elements. |
| `Merger.MergingIterator.Next` | src/table/merger.cc:298-373 | One step forward in the merge, also after a backward move. |
| `Merger.MergingIterator.Prev` | src/table/merger.cc:375-405 | One step back in the merge, also after a forward move. |
| `Merger.MergingIterator.Seek` | src/table/merger.cc:236-265 | The first entry of the merge at or after the target. |
| `Merger.MergingIterator.SeekToFirst` | src/table/merger.cc:99-106 | The first entry of the merge. |
| `Merger.MergingIterator.SeekToLast` | src/table/merger.cc:108-115 | The last entry of the merge. |
| `Merger.MergingIterator.Current` | src/table/merger.cc:500-516 | The current child's entry is the merge's entry at the cursor's position. |
| `Merger.MergingIterator.Run` | src/table/merger.cc:99-115 | For any children with distinct keys and every sequence of moves, each move shows the least, greatest, next or previous entry of all the children that was asked for, and so what a cursor over the sorted merge shows. |
| `Merger.MergingIterator.Step` | src/table/merger.cc:99-115 | One move shows that entry of the children, or nothing if there is none. |
| `Merger.StepShows` | src/table/merger.cc:500-516 | A step of the cursor over the merge shows the least or greatest of the children's entries it should. |
| `Compaction.BaseLevelScan.IsBaseLevelForKey` | src/db/version_set.cc:3704-3723 | Asked along non-decreasing keys, the scan that never looks back answers true exactly when no file two or more levels down covers the key, though files may overlap. |
| `Compaction.ReadsPreservedExactly` | src/db/db_impl.cc:1325-1456 | A read at a snapshot no older than the smallest gives the same answer before and after the drop rule, a dropped tombstone reading as absent, exactly when no older entry of the key survives a dropped tombstone. |
| `Compaction.ReadsPreserved` | src/db/db_impl.cc:1325-1456 | When every key can be read, every such read is preserved. |
| `Compaction.ReadsThroughPreserved` | src/db/db_impl.cc:1325-1386 | Whatever the files two or more levels down hold within their bounds: a read of the stream and then of those files gives the same value before and after the drop rule, exactly when no older entry of the key survives a dropped tombstone. |
| `Compaction.DropsExactly` | src/db/db_impl.cc:1359-1386 | Of readable keys exactly these are dropped: an entry with a newer one of its key that every snapshot sees; and a tombstone every snapshot sees that no file two or more levels down reaches over, unless it is recent and the newest of its key. |
| `Compaction.UnreadableKeyResurrects` | src/db/db_impl.cc:1330-1334 | An unreadable key between a tombstone and an older value makes the loop keep that value after dropping the tombstone. |
| `Compaction.ShouldDrop` | src/db/db_impl.cc:1330-1388 | The loop's decision on an entry is the drop rule. |
| `Compaction.CompactionState.FindInterval` | src/db/db_impl.cc:1401-1421 | The guard interval found is the one that contains the key. |
| `Compaction.CompactionState.Add` | src/db/db_impl.cc:1390-1453 | The entry is appended to the open output; an output is closed exactly before an entry of another guard interval or with the entry that makes it full; nothing is lost between outputs. |
| `Compaction.DoCompactionWork` | src/db/db_impl.cc:1325-1466 | The outputs are non-empty, concatenate to exactly the kept entries in order, each lies in one guard interval, and two neighbours are of different intervals or the first was full. |
| `Guards.FindGuard` | src/db/version_set.cc:202-235 | The binary search finds the last guard at or before the user key, or guard 0. |
| `Guards.PopulateFiles` | src/db/version_set.cc:1832-1897 | Each file goes to the slot of the running maximum of its largest key's interval; a guard lists a file number once. |
| `Guards.PopulatedListsConserve` | src/db/version_set.cc:1832-1897 | What is dealt to the sentinel and the guards concatenates to exactly the level's file list, and is all listed where no file number comes twice. |
| `Guards.FilesToSearch` | src/db/version_set.cc:874-948 | The files considered for a key are those of its guard or the sentinel that cover it, newest first. |
| `Guards.LookupsExactIff` | src/db/version_set.cc:874-948 | Every lookup considers exactly the level's files covering the key if and only if every file is in the slot that each user key it covers is looked up in. |
| `Guards.LookupsExactWhen` | src/db/version_set.cc:1861-1870 | On a level in order this holds if and only if every file fits one guard interval and a file that ends on a guard's user key before the guard comes after one that reaches the guard. |
| `Guards.LookupsExact` | src/db/version_set.cc:874-948 | That holds when every file fits one guard interval and none ends on a guard's user key. |
| `Guards.EndingOnGuardKeyIsMissed` | src/db/version_set.cc:1861-1870 | A file of a guard's user key alone, newer than the guard, is put before the guard and missed by a lookup of that key. |
| `Guards.LookUp` | src/db/version_set.cc:874-948 | Files dealt out and a key looked up: where lookups are exact, the files found are those of the level that cover the key, newest first. |
| `Bloom.CreateFilter` | src/util/bloom.cc:38-71 | The filter has the size for the number of keys, exactly the bits that the keys probe are set, and the probe count is stored behind them. |
| `Bloom.ProbeClosed` | src/util/bloom.cc:63-67 | The j-th probe is the hash plus j times the hash rotated right by 17 bits, modulo 2 to the 32. |
| `Bloom.MatchesIff` | src/util/bloom.cc:73-97 | A key matches the bits exactly when each bit it probes is probed by one of the keys. |
| `Bloom.KeyMayMatch` | src/util/bloom.cc:73-97 | The answer is true for every key the filter was made from. |
| `Bloom.FilterAnswers` | src/util/bloom.cc:38-97 | For a filter just made, the answer is true exactly when each bit the key probes is probed by one of the filter's keys; so it is true for those. |
| `Bloom.FileLevelFilterBuilder.GenerateFilter` | src/table/filter_block.cc:34-66 | The flattened keys are cut up again into exactly the user keys added; the filter has the size for them, exactly the bits they probe, and the probe count; without keys it is empty. |
| `Bloom.FilterNeverSkips` | src/table/filter_block.cc:34-66 | A file-level filter never excludes a file that holds an entry of the user key. |
| `Overlap.GetOverlappingInputs` | src/db/version_set.cc:1196-1234 | The scan that starts over whenever the range grows ends, and returns in order exactly the files overlapping the least range that contains the request and is closed under overlap. |
| `Overlap.ClosureUnique` | src/db/version_set.cc:1196-1234 | There is only one such range. |
| `Overlap.OverlapsIff` | src/db/version_set.cc:1196-1234 | A file overlaps a range exactly when some user key is within both. |
| `Overlap.InsideIff` | src/db/version_set.cc:1196-1234 | A range has absorbed a file exactly when it holds all the user keys within its bounds. |
| `Overlap.OverlappingHolds` | src/db/version_set.cc:1196-1234 | The files returned are exactly those of the level that overlap. |
| `Pick.SortUnique` | src/db/version_set.cc:3155-3184 | The complete guards used are sorted without repeats and have the user keys of the version's. |
| `Pick.SentinelOverflows` | src/db/version_set.cc:3213-3229 | The test is true exactly when some sentinel file reaches the first complete guard. |
| `Pick.GuardOverflows` | src/db/version_set.cc:3299-3313 | The test is true exactly when some file of the guard leaves its complete-guard interval. |
| `Pick.PickFromLevel` | src/db/version_set.cc:3127-3371 | The inputs are exactly the files of overflowing slots and those the scores select, all of the level; every file left out has its user keys inside one interval of the complete guards. |
| `Pick.OutputFits` | src/db/db_impl.cc:1390-1466 | An output of the compaction fits one interval of those guards. |
| `Pick.CompactIntoLevel` | src/db/db_impl.cc:1072-1087 | An automatic compaction merges the inputs with what the level above gives and keeps what the drop rule keeps. The level then has exactly the files not taken and one new file for each output, with its number and its bounds; each fits one interval of the level's complete guards. |
| `Pick.OutputFiles` | src/db/db_impl.cc:1254-1261 | File i has the i-th number given out and the first and last key of output i. |
| `Pick.CompactedLookupsExactIff` | src/db/version_set.cc:1861-1870 | With the complete guards as guards, lookups on such a level are exact if and only if no file ends early on a guard's user key. |
| `Builder.ListsUnique` | src/db/version_set.cc:1501-1508 | A set of guards by user key has one list. |
| `Builder.InsertGuard` | src/db/version_set.cc:1516-1518 | The guard set keeps the first guard that came for a user key. |
| `Builder.MergeGuards` | src/db/version_set.cc:1722-1755 | Merging added guards into a version's lists every user key once, in order; a guard of the version wins over an added one. |
| `Builder.UnsortedStart` | src/db/version_set.cc:1764-1775 | The place found is the first at which the appended guards go down. |
| `Builder.SaveComplete` | src/db/version_set.cc:1758-1808 | Complete guards appended in any order, with repeats, are sorted in: first those before the descent, then the edit's, then the others, the first of each user key. The edit is given those from the descent on and then the others backwards. |
| `Manifest.RecordSettlesIff` | src/db/version_set.cc:1758-1808 | A record gives a manifest that has a version's complete guards those of the next version if and only if each new user key of the rising run has the same tag where the record has it first. |
| `Manifest.SnapshotSettlesIff` | src/db/version_set.cc:2645-2695 | The same for the first record, which comes after a snapshot: if and only if a new user key outside the run has the same tag in the edit and among the guards after the descent. |
| `Manifest.RepeatsUnsettle` | src/db/version_set.cc:1771-1783 | Without complete guards in the edit, the first condition says that no new user key of the run was appended twice. |
| `Manifest.TwiceAppendedDiffers` | src/db/version_set.cc:1779-1783 | Of a guard key appended twice the version keeps the first guard and the record brings the second one first. |
| `Replay.MergeFiles` | src/db/version_set.cc:1696-1720 | The saved file list is by smallest key, then by number, and holds every file of the version and of the edit that was not deleted, no more. |
| `Replay.AscendingMeans` | src/db/version_set.cc:1489-1499 | The order of a file list is that of the smallest internal keys, and of the numbers where those are equal. |
| `Replay.LiveMeans` | src/db/version_set.cc:1624-1652 | A file is live exactly when some edit added it and no later one deleted it. |
| `Replay.LevelBuilder.Apply` | src/db/version_set.cc:1606-1684 | Deletions gathered, additions taken out of them and kept in order, guards added first come first served. |
| `Replay.LevelBuilder.SaveTo` | src/db/version_set.cc:1687-1808 | The version saved has the base's undeleted files and the added ones, by smallest key and number, and the guards of both, whatever was appended to the base's complete guards. |
| `Replay.ReplayEdits` | src/db/version_set.cc:2447-2515 | Recovery from any number of records lists each live file once, by smallest key and number, and the guards and complete guards first come first served. |
| `Replay.LogAndApply` | src/db/version_set.cc:2254-2300 | A commit saves a version that lists each file as often as it was added since it was last deleted, and writes the edit with the appended complete guards added to it. |
| `Replay.RunStore` | src/db/version_set.cc:2254-2350 | The manifest is a snapshot of the first version and one such record for each commit; every version lists its files by smallest key and number. |
| `Replay.CopiesExactIff` | src/db/version_set.cc:1606-1720 | Each live file is listed once after every edit if and only if no edit adds a live file. |
| `Replay.RunAndRecover` | src/db/version_set.cc:2447-2515 | From the manifest up to any record, recovery gives the guards and the complete guards' user keys of the version saved then; it gives the complete guards themselves if and only if every commit so far settles, and the files throughout if and only if no edit added a live file. |
| `Replay.ManifestAgreesIff` | src/db/version_set.cc:2447-2515 | After any commit the manifest has the version's user keys, and its complete guards if and only if all commits so far settled; a difference never heals. |
| `Replay.SettledIffNoRepeats` | src/db/version_set.cc:1771-1783 | A later commit of an edit without complete guards settles if and only if no new user key of the appended run was appended twice. |
| `Replay.TwiceWrittenNotSettled` | src/db/version_set.cc:1771-1783 | One guard key written twice between two commits: the store keeps the first guard and the commit does not settle. |
| `Replay.ReaddedFileListedTwice` | src/db/version_set.cc:1624-1652 | A file added twice is listed twice by the running store. |
| `Edits.DecodeFrom` | src/db/version_edit.cc:161-341 | The decoding loop fills the members of a fresh edit field by field until no tag is left and fails on anything else. |
| `Edits.EditRoundTripsIff` | src/db/version_edit.cc:54-138 | An edit written and read is the same in all members if and only if every guard's own level is the one it is listed under and no sentinel file numbers are listed. |
| `Edits.EncodeTo` | src/db/version_edit.cc:54-138 | The record is the members' fields one after another, a guard with its own level. |
| `Edits.CheckRecord` | src/db/version_edit.cc:14-31 | The record of an edit with one entry of each kind, byte for byte: tags, order and widths. |
| `Edits.GuardWithoutLevelUnreadable` | src/db/version_edit.cc:107-127 | A guard put in without its level makes the record unreadable. |
| `Edits.KeyReadBack` | src/db/dbformat.h:109-121 | An internal key's bytes give its user key and tag back. |
| `Edits.RecoverFromBytes` | src/db/version_set.cc:2447-2515 | A level whose manifest was written as bytes of whole edits recovers from them, up to any record, as it does from the edits. |
| `Install.SaveLevel` | src/db/version_set.cc:1687-1808 | Saving a level's guards gives sorted lists with exactly the user keys of the version and the edit, the first guard of each. |
| `Install.StepKeeps` | src/db/version_set.cc:2254-2407 | Appends, edits taking up guards, and both halves of an installation, failed or not, keep all invariants. |
| `Install.NoneLost` | src/db/version_set.cc:2254-2407 | In every run, a level's complete guards are exactly those ever appended for it or for a level above, whatever was installed in between. |
| `Install.RunSafe` | src/db/version_set.cc:2254-2407 | In every state the first complete guards are strictly sorted, guards are among those, levels are nested, and the manifest has all the sorted ones and none unknown to memory. |
| `Install.CollectedAreInstalled` | src/db/version_set.cc:2254-2407 | An edit that takes up a level's guards, is built and is installed gives the level's files exactly the guards they had and those appended before it was taken up; the sorted complete guards are then those appended before it was built. |
| `Install.StepGrows` | src/db/write_batch.cc:167-180 | Only an append changes a level's set of complete guards, and it adds its key. |
| `Crc.ExtendComposes` | src/util/crc32c.h:14-22 | Extending by two pieces is extending by their concatenation. |
| `Crc.UnmaskInvertsMask` | src/util/crc32c.h:24-40 | Unmasking a masked checksum gives it back. |
| `Crc.MaskInvertsUnmask` | src/util/crc32c.h:24-40 | Masking an unmasked word gives it back. |
| `Crc.CheckValue` | src/util/crc32c.h:14-34 | The checksum of the byte 127 is 7DF63B78 and is stored as 1973E6C4, which fixes polynomial, complements and mask. |
| `Crc.TableStepExact` | src/util/crc32c.cc:600-601 | A table step is eight steps of the bitwise register of section 12.1 of RFC 3720. |
| `Crc.Bytewise8` | src/util/crc32c.cc:602-621 | Eight byte steps are two words pushed through eight and four zero bytes. |
| `Crc.LookupBytes` | src/util/crc32c.cc:606-611 | Four table lookups push a word through as many zero bytes. |
| `Crc.SliceBy8` | src/util/crc32c.cc:585-625 | Slicing by eight gives the bytewise register for every buffer, start value and alignment split, over as many bytes as the 32-bit length comes to. |
| `Crc.ExtendSoftware` | src/util/crc32c.cc:25-32 | The software path computes the checksum of the extended string wherever the buffer lies; of 4 GiB or more only the bytes that the 32-bit length comes to count. |
| `Crc.TakenOf` | src/util/crc32c.cc:25-32 | All bytes count below 4 GiB; else the length modulo 4 GiB, and 4 GiB more if that is less than the leading bytes. |
| `Coding.GetVarint32` | src/util/coding.cc:124-141 | The loop reads at most five bytes and keeps 32 bits of the number they spell. |
| `Coding.VarintRead` | src/util/coding.cc:53-102 | A number written in seven-bit groups is read back, and the place behind it found. |
| `Coding.CheckVarint` | src/util/coding.cc:53-79 | 300 is written as the bytes AC 02. |
| `Log.RoundUpExactIff` | src/db/log_writer.cc:34-42 | Rounding a record's start up to the next block is right if and only if no trailer is skipped or the offset stays below 4 GiB. |
| `Log.ReservedExact` | src/db/log_writer.cc:34-109 | The reserved extent ends where the emit loop ends, but for one header when the spill past the first block is a positive multiple of 32761 bytes. |
| `Log.EmitRecord` | src/db/log_writer.cc:52-100 | The emit loop writes one stretch of bytes, each write where the last one ended. |
| `Log.LaidApart` | src/db/log_writer.cc:34-55 | Extents reserved one after another do not overlap, and each holds all its loop writes. |
| `Log.StepKeeps` | src/db/log_writer.cc:34-131 | Every step of every concurrent writer keeps the extents tiling the file and their bytes in place. |
| `Log.FinishedIsLog` | src/db/log_writer.cc:34-131 | However the writers interleave, the finished file holds their records in order of reservation and zeros in the gaps. |
| `Log.Crc32cIsSound` | src/db/log_writer.cc:19-22 | The checksum extended from the precomputed one of the type passes the reader's test. |
| `Log.Crc32cIsExact` | src/db/log_reader.cc:235-239 | The reader's test passes exactly the checksum that the writer stores. |
| `Log.FirstHeader` | src/db/log_format.h:14-30 | The first fragment of a log, byte for byte: masked checksum of type and payload, length, type 1 for a record of at most 32761 bytes and 2 for a longer one, and its payload. |
| `LogReader.Reader.ReadPhysicalRecord` | src/db/log_reader.cc:181-263 | What the buffered reader returns depends on the file and the position alone, also across blocks and at the end. |
| `LogReader.Reader.ReadRecord` | src/db/log_reader.cc:59-164 | One call returns the first of the records still to come, and reports the corruptions on the way. |
| `LogReader.ReadAll` | src/db/log_reader.cc:59-164 | Repeated reading returns what the file holds, for any file; a stored type 5 reads as the end and 6 as a bad record. |
| `LogReader.FragmentsFound` | src/db/log_reader.cc:181-263 | What the emit loop wrote is found fragment by fragment. |
| `LogReader.CutLogReadBack` | src/db/log_reader.cc:59-164 | A log cut at any byte reads back exactly the records wholly before the cut, in order, without a report. |
| `LogSound.NoneMadeUp` | src/db/log_reader.cc:59-164 | From any file, damaged or not, the records returned are made of fragments that lie in it intact, each passing its checksum within one block, of type 1 or of types 2, 3 and 4 one right after another; records come in file order and share no fragment. |
| `LogLoss.LogReadsBackIff` | src/db/log_reader.cc:227-233 | A whole log reads back exactly the records written if and only if none but the last spills over a whole number of blocks. |
| `LogLoss.RecordLost` | src/db/log_writer.cc:103-109 | A record that leaves a gap costs at least one of the records after it. |
| `LogLoss.WritersReadBackIff` | src/db/log_writer.cc:28-131 | The same for the file that any run of concurrent writers leaves. |
| `Blocks.EntryRead` | src/table/block.cc:54-75 | An entry written is decoded, by the one-byte path or by varints. |
| `Blocks.BlockBuilder.Add` | src/table/block_builder.cc:75-109 | The block gains the entry. Every so many entries there is a restart point; every other key leaves out the longest prefix it shares with the key before it. |
| `Blocks.BlockBuilder.Finish` | src/table/block_builder.cc:65-73 | The finished block is the entries, the restart points and their number. |
| `Blocks.CheckBlock` | src/table/block_builder.cc:5-27 | An entry and a block with one restart point, byte for byte. |
| `Blocks.OpensFinished` | src/table/block.cc:17-42 | Opening a finished block finds the restart array again. |
| `BlockIter.FinishedIsReadable` | src/table/block.cc:232-259 | Every entry and restart point of a finished block can be decoded in place. |
| `BlockIter.Iter.ParseNextKey` | src/table/block.cc:232-259 | The next key is rebuilt from the last one, or the end is found. |
| `BlockIter.Iter.Prev` | src/table/block.cc:150-169 | Re-scanning from a restart point ends on the exact predecessor. |
| `BlockIter.Iter.FindRestart` | src/table/block.cc:171-197 | The binary search ends on the last restart point with a key before the target, or the first. |
| `BlockIter.Iter.Seek` | src/table/block.cc:171-209 | The first key not before the target. |
| `BlockIter.Iter.SeekToLast` | src/table/block.cc:216-221 | The last entry, also of an empty block. |
| `BlockIter.Run` | src/table/block.cc:145-221 | For every sorted list of entries, restart interval and sequence of moves, the iterator shows what a cursor over the list shows. |
| `Table.ShortestSeparator` | src/util/comparator.cc:34-57 | The separator is the start cut where the two keys first differ and raised by one there if that stays below the limit, else the start; it is the start or strictly between the two. |
| `Table.ShortSuccessor` | src/util/comparator.cc:59-70 | The key cut and raised at its first byte that is not 255, and so not before the key. |
| `Table.Separator` | src/db/dbformat.cc:70-87 | An index key is the block's last key, or that user key cut and raised with the tag that sorts first; then it is strictly between the two blocks' user keys. |
| `Table.TableBuilder.Add` | src/table/table_builder.cc:100-147 | The table gains the entry; a block is closed exactly when it becomes full, and finished blocks stay separated from what follows. |
| `Table.TableBuilder.Finish` | src/table/table_builder.cc:211-251 | The blocks concatenate to the entries added, every block has its index key, and all but the last were closed when they became full. |
| `Table.IndexAscends` | src/table/table_builder.cc:100-147 | The index keys of a sorted table are strictly ascending, as a binary search over them needs. |
| `Table.InternalGet` | src/table/table.cc:269-313 | The saver gets the first entry at or after the key in the one block the index points to. |
| `Table.OneBlockSuffices` | src/table/table.cc:269-313 | If the table's first entry at or after the key has the sought user key, that one block has it. |
| `Table.GetFindsNewest` | src/table/table.cc:269-313 | A lookup finds the newest entry of the user key that the snapshot sees, readable or not, whenever there is one, and no other entry of that key. |
| `Cache.HandleTable.Insert` | src/util/cache.cc:62-76 | The table maps the key to the new entry and returns the one displaced, also when it resizes. |
| `Cache.HandleTable.Remove` | src/util/cache.cc:78-86 | The key is gone, every other lookup is unchanged. |
| `Cache.HandleTable.Resize` | src/util/cache.cc:109-132 | Every lookup survives the move to more buckets, at least one for each entry and a power of two. |
| `Cache.NewLength` | src/util/cache.cc:109-113 | The new length is a power of two, at least the number of entries. |
| `Cache.LRUCache.Lookup` | src/util/cache.cc:215-224 | Finds an entry exactly when it is cached, makes it the newest, and hands out one more reference. |
| `Cache.LRUCache.Release` | src/util/cache.cc:226-229 | Gives one reference back; the deleter runs exactly when it was the last of all. |
| `Cache.LRUCache.Insert` | src/util/cache.cc:231-262 | The entry is in and the displaced one out; the fewest oldest entries are evicted that bring the usage within the capacity, or all. |
| `Cache.LRUCache.Erase` | src/util/cache.cc:264-271 | The key is no longer cached and nothing else changes. |
| `Cache.LRUCache.Unref` | src/util/cache.cc:192-200 | Counts, usage and deleter calls stay in step: one deleter call for each entry nobody refers to. |

## Left out

- Reads through the whole stack: the modules meet at their contracts; one theorem over memtable, levels and tables is not stated.
- Manual compactions, which use no guards, and level-0 flushes that run between picking and installing a compaction.
- Writer queue, snapshot waiting, live backup, repair, file deletion, environments and all file input and output; failed writes.
- Compaction: the cut at the bounds of files two levels down (src/db/db_impl.cc:1339-1349), which never happens, because the code that would collect those bounds (src/db/version_set.cc:3480-3506) is commented out.
- Compaction scores, file sizes and block sizes: whether a block, an output or a guard is full is a parameter.
- MurmurHash, the Bloom hash and the cache's hash: any function; Snappy compression and block checksums of tables.
- DbIter.DBIter.FindNextUserEntry: does not sum up which unreadable keys a whole scan reports, nor does FindPrevUserEntry; ParseKey states it for each key. The read sampling in ParseKey is not modelled.
- SkipList: steps are sequentially consistent, though the hint is loaded without a barrier; random heights are inputs of the steps.
- Arena: the two lists that large and retired blocks are linked into.
- Guards: the smallest and largest key fields that PopulateFilesToGuardsAndSentinels keeps in each guard.
- Replay: deleted guards, which no live code adds to an edit, compaction pointers and the counters of an edit; failed manifest writes, which `Install` has; the seven levels are treated one at a time.
- Edits.DecodeFrom: fails on guard records that list files, which EncodeTo never writes and whose parsing hangs on whether assertions are compiled in; deleted guards are read and dropped.
- Install: which level a key becomes a guard of is an input of the append step, not computed from its hash.
- Crc: the eight tables are taken to be what their generating rule gives; the source's literals are not compared with it, and the SSE 4.2 path is not modelled.
- LogReader: reading from an initial offset other than 0, which no caller uses; what a reader finds while some concurrent writers have not finished.
- BlockIter: blocks that were not built by BlockBuilder, on which the source reports a corruption; the sum of two lengths is not wrapped to 32 bits.
- Table: filter blocks, block handles, the footer, and the two-level iterator; SeekKey and SeekEntry stand for the block iterators' Seek.
- Cache: chains and the recency list are sequences, not linked nodes; the sharding over sixteen such caches and the mutex around each operation; sizes are not wrapped to 64 bits.
