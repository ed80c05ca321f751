# CmpTrees in Dafny

CmpTrees compares two directory trees, a *source* and a *target*. It reports every
entry that is NEW in the source, DELETEd from it, MODIFYed (same name, different
size or last-write time), or the SAMESAME in both. The heart of the program is a
differ for sorted sequences. It walks both lists at once with one cursor each and
calls back once per step. The program builds on that differ in four layers:

- **Directory comparison.** Two directory listings are compared. The key is the
  file name and the directory flag. The attributes are the size and the last-write
  time, and their difference is truncated to 32 bits.
- **The tree walk.** Directories found on both sides, or on one side only, are
  queued as further comparisons. How deep the walk goes and whether it follows
  reparse points are both options.
- **Diff processing.** Each reported difference is written to one of five output
  streams. It is counted in 64-bit statistics, and new and deleted files are
  indexed by their find data.
- **The move detector.** It merges the index of new files against the index of
  deleted files. A file that appears in exactly one directory on each side is
  reported as a move.

The model has one Dafny module per source file:

- `Wrappers` and `Ordering` are support: Option and Result, and total preorders
  over abstract comparers.
- `Misc` and `Win32` model the integer helpers and the find-data record.
- `Delta` is the differ itself. It is a loop method over cursors, specified by the
  recursive function `Delta.RunFrom`. `DeltaProperties` holds the lemmas about it.
- `ListExtension` is the sorted insert into a list.
- `CmpDirs` compares one pair of directories.
- `CmpDirsParallel` is the walker: a class with a work queue and path buffers.
- `DiffProcessing` handles the difference callback: statistics counters, writers
  and the indexes of new and deleted files.
- `MoveDetector` is the move detector.

Integers follow the width of their source type. Where the source wraps or
truncates, the model writes it out: the 32-bit unsigned difference count, the
`(int)` truncation of 64-bit differences, and the interlocked 64-bit counters.

## Model

| member | source | states |
|---|---|---|
| Ordering.LessThroughNotGreater | CmpTree/Spi/ListExtension.cs:9 | for a total preorder, x <= y and y < z give x < z; a supporting step for the binary search and for the move comparer's transitivity |
| Ordering.GreaterThroughNotLess | CmpTree/Spi/ListExtension.cs:9 | for a total preorder, x >= y and y > z give x > z; a supporting step for the binary search |
| Ordering.LessThenNotGreater | CmpTree/MoveDetector.cs:42-52 | for a total preorder, x < y and y <= z give x < z; a supporting step for the move comparer's transitivity |
| Misc.AsUInt32 | CmpTree/Spi/Misc.cs:85-94 | the unsigned reinterpretation of an int32 agrees with it modulo 2^32 and is the identity on non-negative values |
| Misc.AsInt64 | CmpTree/Spi/Misc.cs:85-94 | the signed reinterpretation of a uint64 is congruent to it modulo 2^64 |
| Misc.AsUInt64 | CmpTree/Spi/Misc.cs:153-159 | the unsigned reinterpretation of an int64 is its residue modulo 2^64 |
| Misc.WrapInt64 | CmpTree/Spi/Misc.cs:153-159 | wrapping to int64 keeps the value modulo 2^64 |
| Misc.TruncToInt32 | CmpTree/CmpDirs.cs:66-72 | an (int) cast keeps the value modulo 2^32 and is zero exactly when the low 32 bits are zero |
| Misc.TwoIntToLong | CmpTree/Spi/Misc.cs:85-94 | the result is high * 2^32 plus the unsigned low word |
| Misc.TwoIntToLongRoundTrip | CmpTree/Spi/Misc.cs:85-94 | the high and low words can be recovered from the combined long |
| Misc.TwoUIntsToULong | CmpTree/Spi/Misc.cs:95-100 | the high word is the quotient and the low word the remainder by 2^32 |
| Misc.FiletimeToLong | CmpTree/Spi/Misc.cs:101-104 | a FILETIME is read as its high word times 2^32 plus its unsigned low word |
| Misc.FiletimeToLongInjective | CmpTree/Spi/Misc.cs:101-104 | two FILETIMEs with the same tick count are equal |
| Misc.IsDotOrDotDotDirectory | CmpTree/Spi/Misc.cs:105-122 | true exactly for "." and ".." |
| Misc.IsDirectory | CmpTree/Spi/Misc.cs:123-130 | true exactly when attribute bit 0x10 is set |
| Misc.CompareULongsToInt | CmpTree/Spi/Misc.cs:140-152 | -1, 0 or 1 exactly when a < b, a == b or a > b |
| Misc.CompareULongsToIntAntisymmetric | CmpTree/Spi/Misc.cs:140-152 | swapping the arguments negates the result |
| Misc.FiletimeAsUnsigned | CmpTree/Spi/Misc.cs:153-159 | the unsigned view of a FILETIME's tick count is its unsigned high word times 2^32 plus its unsigned low word |
| Misc.CmpFileTimes | CmpTree/Spi/Misc.cs:153-159 | 0 exactly for equal times, -1 exactly when the unsigned tick count of a is smaller, and always one of -1, 0, 1 |
| Win32.FindData.FileSize | CmpTree/Spi/Native/Win32.cs:89-95 | the size is nFileSizeHigh * 2^32 + nFileSizeLow |
| Win32.FindData.ToString | CmpTree/Spi/Native/Win32.cs:110-113 | the text of an entry is its file name |
| Win32.IsDirectoryEntry | CmpTree/Spi/Misc.cs:127-130 | an entry is a directory exactly when its attributes have bit 0x10 |
| Win32.EqualsIffSameKey | CmpTree/Spi/Native/Win32.cs:118-126 | Equals holds exactly when attributes, last-write time, both size words and the file name agree |
| Win32.EqualsReflexiveSymmetric | CmpTree/Spi/Native/Win32.cs:118-126 | Equals is reflexive and symmetric |
| Win32.EqualsIgnoresOtherFields | CmpTree/Spi/Native/Win32.cs:118-126 | creation time, last-access time, the reserved words and the short name, each replaced independently, leave an entry Equals to the original in both directions |
| Win32.EqualsObject | CmpTree/Spi/Native/Win32.cs:114-117 | an object that is not a find-data record is never equal; a boxed record is equal when its key fields agree |
| Delta.ItemCompareFunc | CmpTree/Spi/Data/Delta.cs:177-202 | DELETE exactly for a negative key comparison and NEW exactly for a positive one; for equal keys, SAMESAME when there is no attribute comparer or it returns 0, MODIFY otherwise |
| Delta.CheckSortOrderOfItems | CmpTree/Spi/Data/Delta.cs:203-215 | an error, naming the list and both keys, exactly when the last key compares greater than the current one |
| Delta.MoveIterators | CmpTree/Spi/Data/Delta.cs:159-175 | SAMESAME and MODIFY advance both cursors, NEW only the B cursor, DELETE only the A cursor; the has-more flags say whether each cursor is still inside its list |
| Delta.IncrementModulo | CmpTree/Spi/Data/Delta.cs:134-137 | a uint32 counter that tracks n modulo 2^32 still tracks n + 1 after an increment |
| Delta.ReportedAppend | CmpTree/Spi/Data/Delta.cs:112-115 | the reported callbacks of two step sequences concatenate |
| Delta.CountDifferencesAppend | CmpTree/Spi/Data/Delta.cs:134-137 | the difference count of a concatenation is the sum of the counts |
| Delta.CompareCurrent | CmpTree/Spi/Data/Delta.cs:109-132 | one loop step produces the step of the specification, appends the callback when it is a difference or same-same reporting is on, and sets the last keys (the default key on a drained side) |
| Delta.AdvanceAndCheck | CmpTree/Spi/Data/Delta.cs:139-153 | the cursors advance by the step's state, the current keys stay at the last item of a drained list, and a sort-order error is raised exactly as the specification's check |
| Delta.DiffSortedEnumerablesInternal | CmpTree/Spi/Data/Delta.cs:77-157 | the callbacks are exactly the reported steps of the merge specification, and the result is the difference count modulo 2^32, or the sort-order error that ended the loop |
| Delta.Run | CmpTree/Spi/Data/Delta.cs:18-37 | the self-keyed differ with the caller's same-same choice: callbacks and count as the merge specification says |
| Delta.DiffSortedEnumerables | CmpTree/Spi/Data/Delta.cs:38-56 | the self-keyed differ that always reports same-same: every step becomes a callback |
| Delta.DiffSortedEnumerablesBy | CmpTree/Spi/Data/Delta.cs:59-76 | the differ with key and attribute selectors that always reports same-same |
| DeltaProperties.StepConsumes | CmpTree/Spi/Data/Delta.cs:159-175 | a step carries the current A item unless it is NEW and the current B item unless it is DELETE, and consumes exactly those |
| DeltaProperties.RunConsumesEachItemOnce | CmpTree/Spi/Data/Delta.cs:106-154 | a run without a sort-order error hands every remaining item of each list to the callback exactly once and in order |
| DeltaProperties.MergeConsumesEachItemOnce | CmpTree/Spi/Data/Delta.cs:106-154 | the A items of the steps are list A and the B items are list B, when no sort-order error occurs |
| DeltaProperties.RunLength | CmpTree/Spi/Data/Delta.cs:106-154 | the loop runs at most once per remaining item of both lists |
| DeltaProperties.ReportedAll | CmpTree/Spi/Data/Delta.cs:112-115 | with same-same reporting on, every step is reported |
| DeltaProperties.ReportedDifferences | CmpTree/Spi/Data/Delta.cs:112-137 | with same-same reporting off, the reported steps are exactly the differences and there are as many as the count |
| DeltaProperties.CountBounded | CmpTree/Spi/Data/Delta.cs:134-137 | the count is at most the number of steps, and equal to it exactly when no step is SAMESAME |
| DeltaProperties.OnlyA | CmpTree/Spi/Data/Delta.cs:119-125 | once list B is drained, every remaining A item is a DELETE against the default item |
| DeltaProperties.OnlyB | CmpTree/Spi/Data/Delta.cs:126-132 | once list A is drained, every remaining B item is NEW against the default item |
| DeltaProperties.DiffAgainstEmpty | CmpTree/Spi/Data/Delta.cs:119-125 | diffing against an empty list B deletes every item of A and counts them all |
| DeltaProperties.DiffFromEmpty | CmpTree/Spi/Data/Delta.cs:126-132 | diffing an empty list A makes every item of B new and counts them all |
| DeltaProperties.NoCheckNeverFails | CmpTree/Spi/Data/Delta.cs:149-153 | without the sort-order check the run never fails |
| DeltaProperties.InversionInAFails | CmpTree/Spi/Data/Delta.cs:149-153 | two adjacent items of list A out of order make a checked run fail |
| DeltaProperties.InversionInBFails | CmpTree/Spi/Data/Delta.cs:149-153 | two adjacent items of list B out of order make a checked run fail |
| DeltaProperties.SideCheckPasses | CmpTree/Spi/Data/Delta.cs:149-153 | on an ascending list, the last key never compares greater than the current key, including the default key after a drained list |
| DeltaProperties.AscendingNeverFails | CmpTree/Spi/Data/Delta.cs:149-153 | two ascending lists, whose default key sorts first, never fail the check |
| DeltaProperties.SelfRun | CmpTree/Spi/Data/Delta.cs:106-154 | a list diffed against itself gives one SAMESAME step per item and no failure |
| DeltaProperties.SideCheckPassesOnSelf | CmpTree/Spi/Data/Delta.cs:149-153 | diffing a list against itself never trips the sort-order check |
| DeltaProperties.DiffWithItselfIsZero | CmpTree/Spi/Data/Delta.cs:99-155 | a list diffed against itself has zero differences and reports nothing when same-same is off |
| DeltaProperties.SomeDifference | CmpTree/Spi/Data/Delta.cs:134-137 | a positive difference count means some step is not SAMESAME |
| DeltaProperties.BothLiveClassification | CmpTree/Spi/Data/Delta.cs:109-118 | while both lists have items, the step's state is the classification of the two current keys and items |
| DeltaProperties.RunMatchesEqualKeys | CmpTree/Spi/Data/Delta.cs:109-118 | every SAMESAME or MODIFY step pairs two items whose keys compare equal |
| DeltaProperties.StepTowardsPair | CmpTree/Spi/Data/Delta.cs:159-175 | under a total preorder, one iteration never moves a cursor past a key that has an equal key on the other side |
| DeltaProperties.RunPairsEqualKeys | CmpTree/Spi/Data/Delta.cs:106-175 | the converse: on strictly ascending lists, and when no sort-order error ends the run, two items whose keys compare equal meet in one iteration, SAMESAME or MODIFY as their attributes decide |
| DeltaProperties.AdvanceTowardsPair | CmpTree/Spi/Data/Delta.cs:109-175 | on the way to a pair of equal keys, an iteration at the pair classifies it by the attributes, and one before it leaves both cursors not past the pair |
| DeltaProperties.RunFromCons | CmpTree/Spi/Data/Delta.cs:106-154 | a run without a sort-order error is its first iteration followed by an error-free run from the advanced cursors |
| ListExtension.Insert | CmpTree/Spi/ListExtension.cs:10-12 | inserting shifts the tail up by one, puts the value at the index and adds exactly one element |
| ListExtension.BinarySearch | CmpTree/Spi/ListExtension.cs:9 | a non-negative result is an index holding an equal element; a negative result is the complement of the insertion point, which on a sorted list separates the smaller from the greater elements |
| ListExtension.InsertKeepsSorted | CmpTree/Spi/ListExtension.cs:7-13 | inserting at a point between the smaller and the greater elements keeps the list sorted |
| ListExtension.List.AddSorted | CmpTree/Spi/ListExtension.cs:7-13 | the value is inserted at an equal element or at the complement of the negative search result, and a sorted list stays sorted |
| ListExtension.InsertionPointFits | CmpTree/Spi/ListExtension.cs:9-12 | the insertion point chosen from the search result separates the smaller from the greater elements |
| CmpDirs.KeyCompare | CmpTree/CmpDirs.cs:44-57 | names decide first; for equal names, two directories or two files are equal keys, and a directory and a file compare -1 in either order |
| CmpDirs.CmpFileTimes | CmpTree/CmpDirs.cs:84-87 | 0 exactly for equal times; otherwise the tick difference wrapped to 64 bits, which is the exact difference when it fits |
| CmpDirs.AttributeCompare | CmpTree/CmpDirs.cs:58-76 | two directories are equal; otherwise the result is the 32-bit truncation of the size difference when the sizes differ, else of the write-time difference, so it is 0 exactly when the low size words agree and either the high size words differ or the low time words agree |
| CmpDirs.InsertByName | CmpTree/CmpDirs.cs:24-32 | adds one entry and keeps a list ordered by name |
| CmpDirs.SortByName | CmpTree/CmpDirs.cs:24-32 | the forced sort is a permutation of the listing, ordered by name |
| CmpDirs.InsertByNameStable | CmpTree/CmpDirs.cs:24-32 | an inserted entry lands after every entry whose name compares equal, which keep their order |
| CmpDirs.SortByNameStable | CmpTree/CmpDirs.cs:24-32 | the forced sort is stable like OrderBy: for every name, the entries whose names compare equal to it keep their listing order |
| CmpDirs.Listing | CmpTree/CmpDirs.cs:21-32 | the listing used is a permutation of the enumerated entries, sorted by name when sorting is forced |
| CmpDirs.SourceFirst | CmpTree/CmpDirs.cs:35-43 | each callback receives the source entry first and the target entry second |
| CmpDirs.ErrorLines | CmpTree/CmpDirs.cs:78-82 | a sort-order error writes the message and the hint to force sorting; a clean run writes nothing |
| CmpDirs.Run | CmpTree/CmpDirs.cs:18-83 | the callbacks are the source-first steps of the merge of the target listing (list A) against the source listing (list B), and the error lines report a sort-order failure |
| CmpDirs.DirAndFileNeverMatch | CmpTree/CmpDirs.cs:44-57 | a directory and a file with the same name are never paired: the key comparison is -1 either way |
| CmpDirs.SameNamedDirectoriesAreSameSame | CmpTree/CmpDirs.cs:58-63 | two directories with equal names are SAMESAME whatever their sizes and times |
| CmpDirs.SameSizeAndTimeIsSameSame | CmpTree/CmpDirs.cs:58-76 | two files with equal names, sizes and write times are SAMESAME |
| CmpDirs.SizesApartByTwoTo32AreSameSame | CmpTree/CmpDirs.cs:65-69 | two files whose sizes differ by 2^32 with equal times are SAMESAME, because the truncated difference is 0 |
| CmpDirs.WriteTimesApartInHighWordAreSameSame | CmpTree/CmpDirs.cs:70-73 | two files with equal sizes whose write times differ only in the high word are SAMESAME |
| CmpDirs.SortedListingAscends | CmpTree/CmpDirs.cs:24-32 | a name-sorted listing is ascending for the differ, and the default entry sorts first |
| CmpDirs.ForceSortBothNeverFails | CmpTree/CmpDirs.cs:24-43 | forcing the sort of both sides means the sort-order check never fails |
| CmpDirs.NamedPermutation | CmpTree/CmpDirs.cs:24-32 | sorting keeps every entry named |
| CmpDirs.Orientation | CmpTree/CmpDirs.cs:35-43 | every NEW callback's first entry is from the source, and every DELETE callback's second entry is from the target |
| CmpDirs.DirAndFileWithSameName | TestCmpTree/TestSimple.cs:51-63 | the test's setup, a directory x in the source (the first tree) and a file x in the target: the DELETE event carries the directory first, as the test expects, but the NEW event is the directory's, with `default(FIND_DATA)` second, so the test's check on the NEW event's second name would meet a null name |
| CmpDirsParallel.GetDirToEnum | CmpTree/CmpDirsParallel.cs:126-145 | a NEW source directory, a DELETEd target directory, or a directory on both sides is enumerated further, with its attributes; nothing else is |
| CmpDirsParallel.WalkIntoDir | CmpTree/CmpDirsParallel.cs:154-177 | false beyond a non-negative maximum depth; otherwise true unless the entry is a reparse point and junctions are not followed |
| CmpDirsParallel.ModifiedNeverRecurses | CmpTree/CmpDirsParallel.cs:126-145 | a MODIFY entry is never descended into |
| CmpDirsParallel.DefaultOptionsNoDepthLimit | CmpTree/CmpDirsParallel.cs:26-32 | with the default options, the depth never stops the walk |
| CmpDirsParallel.PathCombine | CmpTree/CmpDirsParallel.cs:110 | an empty side yields the other; two plain parts are joined by one backslash |
| CmpDirsParallel.Suffix | CmpTree/CmpDirsParallel.cs:146-153 | an empty directory appends nothing; otherwise a backslash and the directory are appended |
| CmpDirsParallel.PathBuilder.Append | CmpTree/CmpDirsParallel.cs:150-151 | the text grows by exactly the appended string |
| CmpDirsParallel.PathBuilder.SetLength | CmpTree/CmpDirsParallel.cs:122-123 | setting the length truncates the text, or pads it with NUL characters |
| CmpDirsParallel.AppendDir | CmpTree/CmpDirsParallel.cs:146-153 | the buffer grows by the separator and the directory, or not at all for an empty directory |
| CmpDirsParallel.RootDirs.constructor | CmpTree/CmpDirsParallel.cs:41-48 | two fresh, distinct buffers hold the roots, and their initial lengths are the roots' lengths |
| CmpDirsParallel.ChildTask | CmpTree/CmpDirsParallel.cs:106-111 | an entry spawns a task exactly when it is a directory to enumerate that may be walked into; the new work item is one level deeper under the combined path |
| CmpDirsParallel.ChildTasks | CmpTree/CmpDirsParallel.cs:104-117 | the queued tasks are at most one per callback and each is one level deeper |
| CmpDirsParallel.Forwarded | CmpTree/CmpDirsParallel.cs:113-116 | every callback, same-same included, is forwarded to the difference handler with the relative directory |
| CmpDirsParallel.CallbackStep | CmpTree/CmpDirsParallel.cs:104-117 | handling one more callback appends its task and its forwarded call |
| CmpDirsParallel.ChildTasksWithinDepth | CmpTree/CmpDirsParallel.cs:158-164 | no queued task is deeper than a non-negative maximum depth, when the parent is within it |
| CmpDirsParallel.Walker.constructor | CmpTree/CmpDirsParallel.cs:77-93 | the walker starts with the root buffers, the options, an empty queue and no output |
| CmpDirsParallel.Walker.Start | CmpTree/CmpDirsParallel.cs:94-97 | the root task, with an empty relative path and depth 0, is enqueued |
| CmpDirsParallel.Walker.OnCompared | CmpTree/CmpDirsParallel.cs:104-117 | one callback enqueues its child task, if any, and forwards the call |
| CmpDirsParallel.Walker.OnComparedAll | CmpTree/CmpDirsParallel.cs:103-120 | the queue grows by the child tasks and the handler receives every callback in order |
| CmpDirsParallel.Walker.CompareTwoDirectories | CmpTree/CmpDirsParallel.cs:98-124 | the two directories under the relative path are compared, the callbacks and errors are those of the directory comparison, and the buffers are restored to their roots |
| CmpDirsParallel.Walker.ProcessNext | CmpTree/CmpDirsParallel.cs:84-91 | a worker takes the oldest task and compares its directories; with no task queued nothing changes |
| CmpDirsParallel.ChildPathExtendsParent | CmpTree/CmpDirsParallel.cs:100-110 | the full path of a child task is the parent's full path, a backslash and the child's name |
| CmpDirsParallel.RootTaskComparesRoots | CmpTree/CmpDirsParallel.cs:94-101 | the root task compares the two root directories themselves |
| MoveDetector.CompareFindDataNameSizeModified | CmpTree/MoveDetector.cs:42-52 | names decide first, then the size, then the last-write time; 0 exactly when all three agree |
| MoveDetector.MoveKeyEquals | CmpTree/MoveDetector.cs:18-25 | the move comparer's equality is FIND_DATA.Equals: it holds exactly when attributes, last-write time, both size halves and the name agree |
| MoveDetector.EqualsStricterThanCompare | CmpTree/MoveDetector.cs:18-52 | equal keys always compare 0, but entries that differ only in attributes compare 0 without being equal |
| MoveDetector.CompareBelowName | CmpTree/MoveDetector.cs:42-52 | for equal names the comparison orders by size and then by write time |
| MoveDetector.CompareIsTotalPreorder | CmpTree/MoveDetector.cs:42-52 | the comparison is a total preorder whenever the name comparison is one |
| MoveDetector.CompareTransitive | CmpTree/MoveDetector.cs:42-52 | the comparison is transitive whenever the name comparison is a total preorder |
| MoveDetector.JoinLines | CmpTree/MoveDetector.cs:98 | no directories join to the empty string and one directory to itself; splitting the joined text at its line breaks gives back the directories, when none holds a line break |
| MoveDetector.WriteErrorWhenFileIsInMoreThanOneDirectory | CmpTree/MoveDetector.cs:94-103 | one error line exactly when the file is in more than one directory, nothing otherwise |
| MoveDetector.FileAppearInMoreDirectories | CmpTree/MoveDetector.cs:82-93 | false exactly when both sides have one directory; otherwise an error line for each side with several directories |
| MoveDetector.CallbackMoves | CmpTree/MoveDetector.cs:69-80 | a move exactly for a SAMESAME pair with one directory on each side, from the deleted directory to the new one, with the new file's name and size |
| MoveDetector.CallbackErrors | CmpTree/MoveDetector.cs:69-80 | only SAMESAME pairs can write errors, and those are the ambiguity errors |
| MoveDetector.MovesOf | CmpTree/MoveDetector.cs:69-80 | at most one move per callback |
| MoveDetector.Run | CmpTree/MoveDetector.cs:53-81 | the moves and errors are those of the callbacks of the merge of the new index against the delete index |
| MoveDetector.OnCompared | CmpTree/MoveDetector.cs:69-80 | one callback yields its move and its error lines |
| MoveDetector.CallbackStep | CmpTree/MoveDetector.cs:69-80 | one more callback appends its move and its error lines |
| MoveDetector.MovesComeFromUnambiguousMatches | CmpTree/MoveDetector.cs:59-80 | every move comes from a new file and a deleted file that compare equal and each lie in one directory |
| MoveDetector.MoveSource | CmpTree/MoveDetector.cs:69-80 | every move is produced by one callback |
| MoveDetector.UnambiguousMatchesMove | CmpTree/MoveDetector.cs:53-80 | the converse: for indexes sorted as a SortedList keeps them, every new file and deleted file that compare equal, each in one directory, give the move from the deleted file's directory to the new file's, with the new file's name and size |
| MoveDetector.PairedCall | CmpTree/MoveDetector.cs:59-68 | two index entries whose files compare equal meet in a SAMESAME call, since there is no attribute comparer |
| MoveDetector.EntryCompareIsTotalPreorder | CmpTree/MoveDetector.cs:62-65 | the key comparer on index entries is a total preorder whenever the name comparison is one |
| MoveDetector.MovesIncludeCall | CmpTree/MoveDetector.cs:69-80 | the move of any one callback is among the moves reported |
| MoveDetector.EmptyIndexesNoMoves | CmpTree/MoveDetector.cs:53-81 | empty indexes give no moves and no errors |
| MoveDetector.OneFileMovedGivesOneMove | TestCmpTree/TestMoveDetector.cs:28-53 | one file deleted in one directory and added in another gives exactly that move |
| MoveDetector.AmbiguousMatchWritesErrors | CmpTree/MoveDetector.cs:82-93 | a match with several directories on a side gives no move and one error line per such side |
| DiffProcessing.SinkOf | CmpTree/DiffProcessing.cs:35-83 | SAMESAME writes nothing; NEW goes to the new-directory or new-file stream by the second entry's flag, MODIFY to the modified stream, DELETE to the deleted-directory or deleted-file stream by the first entry's flag |
| DiffProcessing.Increment | CmpTree/DiffProcessing.cs:51-56 | an interlocked increment wraps modulo 2^64 |
| DiffProcessing.Add | CmpTree/DiffProcessing.cs:57 | an interlocked add wraps modulo 2^64 |
| DiffProcessing.AccountCountsOne | CmpTree/DiffProcessing.cs:35-83 | SAMESAME changes no counter; otherwise exactly the counter of the event's stream goes up by one, modulo 2^64 |
| DiffProcessing.AccountNewBytes | CmpTree/DiffProcessing.cs:55-57 | a new file adds its size to the new bytes, modulo 2^64; nothing else changes that counter |
| DiffProcessing.AccountDeletedBytes | CmpTree/DiffProcessing.cs:76-78 | a deleted file adds its size to the deleted bytes, modulo 2^64; nothing else changes that counter |
| DiffProcessing.AccountModifiedBytes | CmpTree/DiffProcessing.cs:63-65 | a modified file adds the second entry's size minus the first's to the modified bytes, modulo 2^64; nothing else changes that counter |
| DiffProcessing.CountersCountEvents | CmpTree/DiffProcessing.cs:47-82 | after a sequence of callbacks, each counter equals the number of events of its kind, modulo 2^64 |
| DiffProcessing.Stats.constructor | CmpTree/Program.cs:12-19 | all counters start at zero |
| DiffProcessing.Stats.Record | CmpTree/DiffProcessing.cs:47-82 | the counters move as one event's accounting says |
| DiffProcessing.DiffWriter.constructor | CmpTree/DiffWriter.cs:18-25 | all five streams start empty |
| DiffProcessing.DiffWriter.WriteLine | CmpTree/DiffWriter.cs:12-16 | the line is appended to one stream and the others are unchanged |
| DiffProcessing.DecimalString | CmpTree/DiffProcessing.cs:101 | a size is printed as decimal digits that denote it, with no leading zero |
| DiffProcessing.FullFilename | CmpTree/DiffProcessing.cs:93-95 | the second entry's name for NEW and the first entry's otherwise, behind the base directory and a backslash when there is one |
| DiffProcessing.FileDataToUse | CmpTree/DiffProcessing.cs:40-82 | new files, modified files and deleted files print their details, taken from the second entry except for DELETE; directories print their name only |
| DiffProcessing.IndexEntry | CmpTree/DiffProcessing.cs:85-91 | a new key gets a list holding the base directory; an existing key has it appended; other keys are unchanged |
| DiffProcessing.IndexEntryKeepsWellFormed | CmpTree/DiffProcessing.cs:85-91 | indexing keeps every indexed file's list of directories non-empty and ends the key's list with the new base directory |
| DiffProcessing.IndexedKey | CmpTree/DiffProcessing.cs:47-82 | exactly new files and deleted files are indexed, under the entry that is printed |
| DiffProcessing.DiffProcessing.constructor | CmpTree/DiffProcessing.cs:23-29 | both indexes start empty, with the given statistics and writers |
| DiffProcessing.DiffProcessing.DiffCallback | CmpTree/DiffProcessing.cs:33-111 | SAMESAME changes nothing; any other event is counted, indexed under newFiles when it is a new or deleted file, and written as one line to its stream; delFiles never changes |
| DiffProcessing.DeletedFilesIndexedAsNew | CmpTree/DiffProcessing.cs:68-82 | a deleted file lands in the same index as a new file |

## Left out

- Threads and the parallel executor are not modelled. The walker is sequential with a FIFO queue, and `ProcessNext` is one worker step. The order of tasks across threads, and the queued, running and done counters, are not captured.
- The atomicity of the interlocked counters and of the concurrent dictionary is not modelled. Their updates are modelled one callback at a time.
- Cancellation (the Ctrl-C token) is not modelled.
- Directory enumeration is not modelled. It is the `enumerate` parameter of the walker, a function from a full path to a listing. Its I/O errors and the error handler, which only the enumeration uses, are left out.
- The conversion of a FILETIME to text, and its error path, are not modelled. The text is the `fmt` parameter of `DiffProcessing`.
- NiceDuration, GetPrettyFilesize, FiletimeToString, FormatSystemtime and ExecUtilWaitHandleSet in `Spi/Misc.cs` are not modelled. They are formatting and waiting helpers with no part in the comparison.
- GetHashCode is not modelled. The dictionary keys are compared by value in the model.
- Null checks on the comparer and callback arguments are not modelled, because every argument is a total function here.
- Delta.DiffSortedEnumerables: the context argument is folded into the callback, which is a sequence of recorded calls.
- Name comparison is an abstract comparer parameter. Culture-specific or ordinal string ordering is not modelled.
- Program.cs, GetOpts.cs, EnumDir.cs, StatusLineWriter.cs and the output files of DiffWriter.cs are not part of this model. Each writer is a sequence of lines.
- `CmpDirs.ErrorLines` and the walker's `errorOutput` stand for the console error stream, where CmpDirs.cs:80-81 writes the exception's message and the hint. The directory comparison's error handler is passed only to the enumeration, which is not modelled. The `catch (Exception ex)` at CmpDirs.cs:78 catches every exception, but in the model only the sort-order error can arise, because the callbacks are recorded values.
- MoveDetector.Run: the error writer may be null in the source, as the move-detector test passes it, and then nothing is written. In the model the error lines are always returned.
- MoveDetector.Run: the value of a default key-value pair has a null list of directories, which is modelled as the empty sequence. An entry left over on one side therefore has no directories.
- CmpDirsParallel.PathCombine: covers empty parts, rooted second parts and separators. It does not cover invalid path characters, drive letters or the other forms of .NET path combination.
- CmpDirsParallel.RootDirs.constructor: the buffers are const fields, so the `ref` reassignment of a StringBuilder is not modelled.
- The `Stats` class of `Program.cs` has no byte or directory counters. DiffProcessing.cs uses an eight-counter variant, which this model follows. The `WIN32_FIND_DATA` type it uses is not part of this model and is modelled by `Win32.FindData`. `Misc.GetFilesize` and `Misc.IsDirectoryFlagSet` are not part of this model and are modelled by `Win32.FindData.FileSize` and `Win32.IsDirectoryEntry`.
- The difference handler is not composed with the walker. The walker forwards its calls as recorded values, and `DiffProcessing` is modelled as a separate callback. The two orders disagree. DiffProcessing.cs reads its arguments as (a, b): the new entry is the second and the deleted entry the first. The walker hands the handler (source, target). So under the walker, a one-sided NEW gives DiffProcessing `default(FIND_DATA)` as the new entry.
