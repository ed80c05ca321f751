/** `CmpTrees.MoveDetector`: after a walk, the files that were only in the source
    (the NEW index) and only in the target (the DELETE index), each with the
    directories they were found in, are merged by (name, size, last-write time).
    A file found in exactly one directory on each side is reported as moved;
    a match with more than one directory on a side is reported as an error.
    The indexes are sorted lists of key/directories pairs, modelled as
    sequences; the error writer is the sequence of lines written to it. */
module MoveDetector {
  import opened Wrappers
  import opened Misc
  import opened Win32
  import opened Ordering
  import opened Delta
  import opened DeltaProperties

  /** An entry of a `SortedList<FIND_DATA, List<string>>`: a file and the
      directories it was found in. */
  datatype Entry = Entry(key: FindData, dirs: seq<string>)

  /** One call of the move handler: the file's name, the directory it was
      deleted from, the directory it is new in, and its size. */
  datatype Move = Move(filename: string, moveFromPath: string, moveToPath: string, filesize: uint64)

  /** `CompareFindData_Name_Size_Modified`: by name (`String.Compare`, any
      comparer `nameCmp` here), then by size, then by last-write time; the first
      comparison that is not 0 decides. */
  function CompareFindDataNameSizeModified(nameCmp: (string, string) -> int, a: FindData, b: FindData): (r: int)
    ensures nameCmp(a.cFileName, b.cFileName) != 0 ==> r == nameCmp(a.cFileName, b.cFileName)
    ensures nameCmp(a.cFileName, b.cFileName) == 0 && a.FileSize() != b.FileSize() ==>
              (r == -1 <==> a.FileSize() < b.FileSize()) && (r == 1 <==> a.FileSize() > b.FileSize())
    ensures nameCmp(a.cFileName, b.cFileName) == 0 && a.FileSize() == b.FileSize() ==>
              r == Misc.CmpFileTimes(a.ftLastWriteTime, b.ftLastWriteTime)
    ensures r == 0 <==> nameCmp(a.cFileName, b.cFileName) == 0 && a.FileSize() == b.FileSize() &&
                        a.ftLastWriteTime == b.ftLastWriteTime
  {
    var cmp := nameCmp(a.cFileName, b.cFileName);
    if cmp != 0 then cmp
    else
      // `Comparer<ulong>.Default.Compare`
      var sizeCmp := CompareULongsToInt(a.FileSize(), b.FileSize());
      if sizeCmp != 0 then sizeCmp
      else
        var timeCmp := Misc.CmpFileTimes(a.ftLastWriteTime, b.ftLastWriteTime);
        if timeCmp != 0 then timeCmp else 0
  }

  /** `FindDataComparer_Name_Size_Modified.Equals`: attributes, last-write time,
      size and name (ordinal) all equal. Comparing the assembled size is the
      same as comparing both halves, so this is `FIND_DATA.Equals`. */
  function MoveKeyEquals(x: FindData, y: FindData): (r: bool)
    ensures r <==> KeyOf(x) == KeyOf(y)
    ensures r <==> Win32.Equals(x, y)
  {
    SizeHalves(x, y);
    EqualsIffSameKey(x, y);
    x.dwFileAttributes == y.dwFileAttributes
    && x.ftLastWriteTime == y.ftLastWriteTime
    && x.FileSize() == y.FileSize()
    && x.cFileName == y.cFileName
  }

  /** Two assembled sizes are equal exactly when both halves are. */
  lemma SizeHalves(x: FindData, y: FindData)
    ensures x.FileSize() == y.FileSize() <==> x.nFileSizeHigh == y.nFileSizeHigh && x.nFileSizeLow == y.nFileSizeLow
  {
    var sx := TwoUIntsToULong(x.nFileSizeHigh, x.nFileSizeLow);
    var sy := TwoUIntsToULong(y.nFileSizeHigh, y.nFileSizeLow);
    assert sx == x.FileSize() && sy == y.FileSize();
  }

  /** Equal under the equality comparer means equal under `Compare` (for a name
      comparer that finds every name equal to itself), but not the other way:
      `Compare` ignores the attributes that `Equals` requires. */
  lemma EqualsStricterThanCompare(nameCmp: (string, string) -> int, x: FindData, y: FindData)
    requires forall n :: nameCmp(n, n) == 0
    ensures MoveKeyEquals(x, y) ==> CompareFindDataNameSizeModified(nameCmp, x, y) == 0
    ensures x.dwFileAttributes != y.dwFileAttributes ==> !MoveKeyEquals(x, y)
    ensures var z := x.(dwFileAttributes := x.dwFileAttributes ^ 1);
            CompareFindDataNameSizeModified(nameCmp, x, z) == 0 && !MoveKeyEquals(x, z)
  {
    assert nameCmp(x.cFileName, x.cFileName) == 0;
  }

  /** The key `Compare` sorts by, as numbers: size, then the write time as an
      unsigned tick count. */
  function SizeTimeKey(x: FindData): (int, int) {
    (x.FileSize(), AsUInt64(FiletimeToLong(x.ftLastWriteTime)))
  }

  /** Below an equal name, `Compare` orders by size and then by unsigned write
      time. */
  lemma CompareBelowName(nameCmp: (string, string) -> int, a: FindData, b: FindData)
    requires nameCmp(a.cFileName, b.cFileName) == 0
    ensures var (sa, ta) := SizeTimeKey(a);
            var (sb, tb) := SizeTimeKey(b);
            var r := CompareFindDataNameSizeModified(nameCmp, a, b);
            && (r < 0 <==> sa < sb || (sa == sb && ta < tb))
            && (r == 0 <==> sa == sb && ta == tb)
  {
    FiletimeAsUnsigned(a.ftLastWriteTime);
    FiletimeAsUnsigned(b.ftLastWriteTime);
    if SizeTimeKey(a).1 == SizeTimeKey(b).1 {
      var fa, fb := a.ftLastWriteTime, b.ftLastWriteTime;
      assert AsUInt32(fa.dwHighDateTime) == AsUInt32(fb.dwHighDateTime) by {
        assert AsUInt32(fa.dwHighDateTime) * TWO32 + AsUInt32(fa.dwLowDateTime)
            == AsUInt32(fb.dwHighDateTime) * TWO32 + AsUInt32(fb.dwLowDateTime);
      }
    }
  }

  /** For a name comparer that is a total preorder, `Compare` is one too, so the
      two indexes can be kept sorted by it. */
  lemma CompareIsTotalPreorder(nameCmp: (string, string) -> int)
    requires IsTotalPreorder(nameCmp)
    ensures IsTotalPreorder((a: FindData, b: FindData) => CompareFindDataNameSizeModified(nameCmp, a, b))
  {
    var cmp := (a: FindData, b: FindData) => CompareFindDataNameSizeModified(nameCmp, a, b);
    forall x: FindData
      ensures cmp(x, x) == 0
    {
      assert nameCmp(x.cFileName, x.cFileName) == 0;
    }
    forall x: FindData, y: FindData
      ensures cmp(x, y) < 0 <==> cmp(y, x) > 0
    {
      if nameCmp(x.cFileName, y.cFileName) == 0 {
        assert nameCmp(y.cFileName, x.cFileName) == 0;
        CompareBelowName(nameCmp, x, y);
        CompareBelowName(nameCmp, y, x);
      } else {
        assert nameCmp(y.cFileName, x.cFileName) != 0;
      }
    }
    forall x: FindData, y: FindData, z: FindData | cmp(x, y) <= 0 && cmp(y, z) <= 0
      ensures cmp(x, z) <= 0
    {
      CompareTransitive(nameCmp, x, y, z);
    }
  }

  /** "Not greater" under `Compare` is transitive. */
  lemma CompareTransitive(nameCmp: (string, string) -> int, x: FindData, y: FindData, z: FindData)
    requires IsTotalPreorder(nameCmp)
    requires CompareFindDataNameSizeModified(nameCmp, x, y) <= 0
    requires CompareFindDataNameSizeModified(nameCmp, y, z) <= 0
    ensures CompareFindDataNameSizeModified(nameCmp, x, z) <= 0
  {
    var nxy, nyz := nameCmp(x.cFileName, y.cFileName), nameCmp(y.cFileName, z.cFileName);
    assert nxy <= 0 && nyz <= 0;
    if nxy < 0 {
      LessThenNotGreater(nameCmp, x.cFileName, y.cFileName, z.cFileName);
    } else if nyz < 0 {
      LessThroughNotGreater(nameCmp, x.cFileName, y.cFileName, z.cFileName);
    } else {
      assert nameCmp(x.cFileName, z.cFileName) <= 0;
      assert nameCmp(z.cFileName, x.cFileName) <= 0 by {
        assert nameCmp(z.cFileName, y.cFileName) == 0 && nameCmp(y.cFileName, x.cFileName) == 0;
      }
      CompareBelowName(nameCmp, x, y);
      CompareBelowName(nameCmp, y, z);
      CompareBelowName(nameCmp, x, z);
    }
  }

  // --------------------------------------------------------------- errors

  /** `String.Join("\n", dirs)`. Joining at least one directory, none of which
      holds a line break, can be undone by splitting at the line breaks. */
  function JoinLines(dirs: seq<string>): (r: string)
    ensures dirs == [] ==> r == ""
    ensures |dirs| == 1 ==> r == dirs[0]
    ensures dirs != [] && (forall k :: 0 <= k < |dirs| ==> '\n' !in dirs[k]) ==> SplitLines(r) == dirs
  {
    if dirs == [] then ""
    else if |dirs| == 1 then
      SplitSingleLine(dirs[0]);
      dirs[0]
    else
      var rest := JoinLines(dirs[1..]);
      SplitAfterLine(dirs[0], rest);
      assert forall k :: 0 <= k < |dirs| - 1 ==> dirs[1..][k] == dirs[k + 1];
      assert dirs == [dirs[0]] + dirs[1..];
      dirs[0] + "\n" + rest
  }

  /** The lines of a text: the pieces between its line breaks, in order. */
  function SplitLines(s: string): (r: seq<string>)
    ensures |r| >= 1
  {
    if s == [] then [""]
    else if s[0] == '\n' then [""] + SplitLines(s[1..])
    else
      var rest := SplitLines(s[1..]);
      [[s[0]] + rest[0]] + rest[1..]
  }

  /** A text without a line break is one line. */
  lemma {:induction false} SplitSingleLine(line: string)
    ensures '\n' !in line ==> SplitLines(line) == [line]
  {
    if line != [] && '\n' !in line {
      SplitSingleLine(line[1..]);
      assert line == [line[0]] + line[1..];
    }
  }

  /** A line followed by a line break and more text splits into that line and
      the lines of the rest. */
  lemma {:induction false} SplitAfterLine(line: string, rest: string)
    ensures '\n' !in line ==> SplitLines(line + "\n" + rest) == [line] + SplitLines(rest)
  {
    if '\n' !in line {
      var s := line + "\n" + rest;
      if line == [] {
        assert s[0] == '\n' && s[1..] == rest;
      } else {
        assert s[0] == line[0] && s[1..] == line[1..] + "\n" + rest;
        SplitAfterLine(line[1..], rest);
        assert line == [line[0]] + line[1..];
      }
    }
  }

  /** `WriteErrorWhenFileIsInMoreThanOneDirectory`: one line naming the side, the
      file and all its directories, written only for more than one directory. */
  function WriteErrorWhenFileIsInMoreThanOneDirectory(filename: string, dirs: seq<string>, side: string): (lines: seq<string>)
    ensures |dirs| > 1 <==> |lines| == 1
    ensures |dirs| <= 1 <==> lines == []
    ensures |dirs| > 1 ==> lines[0] == ErrorMessage(filename, dirs, side)
  {
    if |dirs| > 1 then [ErrorMessage(filename, dirs, side)] else []
  }

  /** The error message: the side and the file on the first line, then one
      line per directory. */
  function ErrorMessage(filename: string, dirs: seq<string>, side: string): string {
    "list [" + side + "]: file appears in more than one directory with same size and timestamps ["
    + filename + "]" + "\n" + JoinLines(dirs)
  }

  /** `FileAppearInMoreDirectories`: whether the match is ambiguous (not exactly
      one directory on each side), and the error lines written then: one for the
      new side ("b") if it has several directories, then one for the delete side
      ("a") if it has. */
  function FileAppearInMoreDirectories(newFile: FindData, newDirs: seq<string>, delFile: FindData,
                                       delDirs: seq<string>): (r: (bool, seq<string>))
    ensures !r.0 <==> |newDirs| == 1 && |delDirs| == 1
    ensures !r.0 ==> r.1 == []
    ensures r.0 ==> r.1 == WriteErrorWhenFileIsInMoreThanOneDirectory(newFile.cFileName, newDirs, "b")
                           + WriteErrorWhenFileIsInMoreThanOneDirectory(delFile.cFileName, delDirs, "a")
    ensures |r.1| == (if |newDirs| > 1 then 1 else 0) + (if |delDirs| > 1 then 1 else 0)
  {
    if |newDirs| == 1 && |delDirs| == 1 then (false, [])
    else
      (true, WriteErrorWhenFileIsInMoreThanOneDirectory(newFile.cFileName, newDirs, "b")
             + WriteErrorWhenFileIsInMoreThanOneDirectory(delFile.cFileName, delDirs, "a"))
  }

  // ------------------------------------------------------------------- Run

  /** `default(KeyValuePair<FIND_DATA, List<string>>)`, the item a drained side
      hands over (its list, `null` in .NET, is empty here). */
  const DefaultEntry := Entry(DefaultFindData, [])

  /** The differ `Run` uses: entries are their own keys, compared by their files
      under `Compare`; no attribute comparer, so every key match is SAMESAME. */
  function MoveDiffer(nameCmp: (string, string) -> int): Differ<Entry, Entry, Entry> {
    SelfKeyed((newFile: Entry, delFile: Entry) => CompareFindDataNameSizeModified(nameCmp, newFile.key, delFile.key),
              None, DefaultEntry)
  }

  /** The merge `Run` performs: the NEW index as list A against the DELETE index
      as list B, every iteration reported, no sort-order check. */
  function MoveMerge(newFiles: seq<Entry>, delFiles: seq<Entry>, nameCmp: (string, string) -> int): Trace<Entry, Entry> {
    Merge(MoveDiffer(nameCmp), newFiles, delFiles, false)
  }

  /** The move one call of the callback reports: none unless it is SAMESAME with
      exactly one directory on each side. */
  function CallbackMoves(c: Compared<Entry>): (r: seq<Move>)
    ensures r != [] <==> c.state == SAMESAME && |c.a.dirs| == 1 && |c.b.dirs| == 1
    ensures r != [] ==> r == [Move(c.a.key.cFileName, c.b.dirs[0], c.a.dirs[0], c.a.key.FileSize())]
  {
    if c.state != SAMESAME then []
    else if FileAppearInMoreDirectories(c.a.key, c.a.dirs, c.b.key, c.b.dirs).0 then []
    else [Move(c.a.key.cFileName, c.b.dirs[0], c.a.dirs[0], c.a.key.FileSize())]
  }

  /** The error lines one call of the callback writes: only an ambiguous
      SAMESAME writes any. */
  function CallbackErrors(c: Compared<Entry>): (r: seq<string>)
    ensures c.state != SAMESAME ==> r == []
    ensures c.state == SAMESAME ==> r == FileAppearInMoreDirectories(c.a.key, c.a.dirs, c.b.key, c.b.dirs).1
  {
    if c.state != SAMESAME then []
    else FileAppearInMoreDirectories(c.a.key, c.a.dirs, c.b.key, c.b.dirs).1
  }

  /** The moves a sequence of callback calls reports, in order. */
  function MovesOf(calls: seq<Compared<Entry>>): (r: seq<Move>)
    ensures |r| <= |calls|
    decreases |calls|
  {
    if calls == [] then [] else MovesOf(calls[..|calls| - 1]) + CallbackMoves(calls[|calls| - 1])
  }

  /** The error lines a sequence of callback calls writes, in order. */
  function ErrorsOf(calls: seq<Compared<Entry>>): seq<string>
    decreases |calls|
  {
    if calls == [] then [] else ErrorsOf(calls[..|calls| - 1]) + CallbackErrors(calls[|calls| - 1])
  }

  /** `MoveDetector.Run`: merge the two indexes and hand every unambiguous match
      to the move handler as (name, the directory it was deleted from, the
      directory it is new in, size); ambiguous matches write errors. */
  method Run(newFiles: seq<Entry>, delFiles: seq<Entry>, nameCmp: (string, string) -> int)
    returns (moves: seq<Move>, errors: seq<string>)
    ensures moves == MovesOf(MoveMerge(newFiles, delFiles, nameCmp).steps)
    ensures errors == ErrorsOf(MoveMerge(newFiles, delFiles, nameCmp).steps)
  {
    var calls, _ := Delta.Run(newFiles, delFiles,
                              (newFile: Entry, delFile: Entry) => CompareFindDataNameSizeModified(nameCmp, newFile.key, delFile.key),
                              None, true, false, DefaultEntry);
    ReportedAll(MoveMerge(newFiles, delFiles, nameCmp).steps);
    moves, errors := [], [];
    var k := 0;
    while k < |calls|
      invariant 0 <= k <= |calls|
      invariant moves == MovesOf(calls[..k]) && errors == ErrorsOf(calls[..k])
    {
      var move, lines := OnCompared(calls[k]);
      moves, errors := moves + move, errors + lines;
      CallbackStep(calls, k);
      k := k + 1;
    }
    assert calls[..k] == calls;
  }

  /** The callback `Run` hands the merge, for one call: the move it reports and
      the error lines it writes. */
  method OnCompared(c: Compared<Entry>) returns (move: seq<Move>, lines: seq<string>)
    ensures move == CallbackMoves(c) && lines == CallbackErrors(c)
  {
    move, lines := [], [];
    if c.state != SAMESAME {
      return;
    }
    var (ambiguous, errorLines) := FileAppearInMoreDirectories(c.a.key, c.a.dirs, c.b.key, c.b.dirs);
    lines := errorLines;
    if ambiguous {
      return;
    }
    move := [Move(c.a.key.cFileName, c.b.dirs[0], c.a.dirs[0], c.a.key.FileSize())];
  }

  /** One more call adds its move and its error lines. */
  lemma CallbackStep(calls: seq<Compared<Entry>>, k: nat)
    requires k < |calls|
    ensures MovesOf(calls[..k + 1]) == MovesOf(calls[..k]) + CallbackMoves(calls[k])
    ensures ErrorsOf(calls[..k + 1]) == ErrorsOf(calls[..k]) + CallbackErrors(calls[k])
  {
    assert calls[..k + 1][..k] == calls[..k];
  }

  // ------------------------------------------------------------ properties

  /** Every reported move comes from a file in the NEW index and a file in the
      DELETE index that `Compare` finds equal, each found in exactly one
      directory: the move goes from the delete side's directory to the new
      side's, with the new file's name and size. */
  lemma MovesComeFromUnambiguousMatches(newFiles: seq<Entry>, delFiles: seq<Entry>, nameCmp: (string, string) -> int)
    ensures forall m :: m in MovesOf(MoveMerge(newFiles, delFiles, nameCmp).steps) ==>
              exists n, dl :: n in newFiles && dl in delFiles &&
                CompareFindDataNameSizeModified(nameCmp, n.key, dl.key) == 0 &&
                n.dirs == [m.moveToPath] && dl.dirs == [m.moveFromPath] &&
                m.filename == n.key.cFileName && m.filesize == n.key.FileSize()
  {
    var d := MoveDiffer(nameCmp);
    var steps := MoveMerge(newFiles, delFiles, nameCmp).steps;
    MergeConsumesEachItemOnce(d, newFiles, delFiles, false);
    StepItemsConsumed(steps);
    RunMatchesEqualKeys(d, newFiles, delFiles, false, 0, 0);
    forall m | m in MovesOf(steps)
      ensures exists n, dl :: n in newFiles && dl in delFiles &&
                CompareFindDataNameSizeModified(nameCmp, n.key, dl.key) == 0 &&
                n.dirs == [m.moveToPath] && dl.dirs == [m.moveFromPath] &&
                m.filename == n.key.cFileName && m.filesize == n.key.FileSize()
    {
      var k := MoveSource(steps, m);
      var c := steps[k];
      assert c.a in ItemsA(steps) && c.b in ItemsB(steps);
      assert c.a in newFiles && c.b in delFiles;
      assert c.a.dirs == [c.a.dirs[0]] && c.b.dirs == [c.b.dirs[0]];
    }
  }

  /** An index's keys strictly ascend under `Compare`: the `SortedList`s are
      built with `FindDataComparer_Name_Size_Modified`, and a sorted list holds no
      two keys that compare equal. */
  ghost predicate IndexSorted(index: seq<Entry>, nameCmp: (string, string) -> int) {
    forall k, l :: 0 <= k < l < |index| ==> CompareFindDataNameSizeModified(nameCmp, index[k].key, index[l].key) < 0
  }

  /** The converse: every file in the NEW index that `Compare` finds equal to a
      file in the DELETE index, each found in exactly one directory, is reported
      as a move from the delete side's directory to the new side's. */
  lemma UnambiguousMatchesMove(newFiles: seq<Entry>, delFiles: seq<Entry>, nameCmp: (string, string) -> int,
                               n: Entry, dl: Entry)
    requires IsTotalPreorder(nameCmp)
    requires IndexSorted(newFiles, nameCmp) && IndexSorted(delFiles, nameCmp)
    requires n in newFiles && dl in delFiles
    requires CompareFindDataNameSizeModified(nameCmp, n.key, dl.key) == 0
    requires |n.dirs| == 1 && |dl.dirs| == 1
    ensures Move(n.key.cFileName, dl.dirs[0], n.dirs[0], n.key.FileSize())
            in MovesOf(MoveMerge(newFiles, delFiles, nameCmp).steps)
  {
    var steps := MoveMerge(newFiles, delFiles, nameCmp).steps;
    var k := PairedCall(newFiles, delFiles, nameCmp, n, dl);
    MovesIncludeCall(steps, k);
  }

  /** The call in which two files that `Compare` finds equal meet: a SAMESAME
      one, as `Run` has no attribute comparer. */
  lemma PairedCall(newFiles: seq<Entry>, delFiles: seq<Entry>, nameCmp: (string, string) -> int,
                   n: Entry, dl: Entry) returns (k: nat)
    requires IsTotalPreorder(nameCmp)
    requires IndexSorted(newFiles, nameCmp) && IndexSorted(delFiles, nameCmp)
    requires n in newFiles && dl in delFiles
    requires CompareFindDataNameSizeModified(nameCmp, n.key, dl.key) == 0
    ensures var steps := MoveMerge(newFiles, delFiles, nameCmp).steps;
            k < |steps| && steps[k] == Compared(SAMESAME, n, dl)
  {
    var d := MoveDiffer(nameCmp);
    EntryCompareIsTotalPreorder(nameCmp);
    IndexAscends(newFiles, nameCmp);
    IndexAscends(delFiles, nameCmp);
    NoCheckNeverFails(d, newFiles, delFiles, 0, 0);
    var p :| 0 <= p < |newFiles| && newFiles[p] == n;
    var q :| 0 <= q < |delFiles| && delFiles[q] == dl;
    k := RunPairsEqualKeys(d, newFiles, delFiles, false, 0, 0, p, q);
  }

  /** A sorted index ascends strictly for the differ `Run` uses. */
  lemma IndexAscends(index: seq<Entry>, nameCmp: (string, string) -> int)
    requires IndexSorted(index, nameCmp)
    ensures StrictlyAscending(MoveDiffer(nameCmp), index)
  {
  }

  /** `Compare` on the entries' files is a total preorder whenever the name
      comparer is one. */
  lemma EntryCompareIsTotalPreorder(nameCmp: (string, string) -> int)
    requires IsTotalPreorder(nameCmp)
    ensures IsTotalPreorder(MoveDiffer(nameCmp).keyComparer)
  {
    var cmp := MoveDiffer(nameCmp).keyComparer;
    var keyCmp := (a: FindData, b: FindData) => CompareFindDataNameSizeModified(nameCmp, a, b);
    CompareIsTotalPreorder(nameCmp);
    forall x: Entry, y: Entry, z: Entry | cmp(x, y) <= 0 && cmp(y, z) <= 0
      ensures cmp(x, z) <= 0
    {
      assert keyCmp(x.key, y.key) <= 0 && keyCmp(y.key, z.key) <= 0;
    }
    forall x: Entry, y: Entry
      ensures cmp(x, y) < 0 <==> cmp(y, x) > 0
    {
      assert keyCmp(x.key, y.key) < 0 <==> keyCmp(y.key, x.key) > 0;
    }
    forall x: Entry
      ensures cmp(x, x) == 0
    {
      assert keyCmp(x.key, x.key) == 0;
    }
  }

  /** The moves of one call are among the moves of all the calls. */
  lemma {:induction false} MovesIncludeCall(calls: seq<Compared<Entry>>, k: nat)
    requires k < |calls|
    ensures forall m :: m in CallbackMoves(calls[k]) ==> m in MovesOf(calls)
    decreases |calls|
  {
    var init := calls[..|calls| - 1];
    if k < |calls| - 1 {
      MovesIncludeCall(init, k);
      assert calls[k] == init[k];
    }
  }

  /** The call a move comes from. */
  lemma {:induction false} MoveSource(calls: seq<Compared<Entry>>, m: Move) returns (k: nat)
    requires m in MovesOf(calls)
    ensures k < |calls| && CallbackMoves(calls[k]) == [m]
    decreases |calls|
  {
    var init := calls[..|calls| - 1];
    if m in MovesOf(init) {
      k := MoveSource(init, m);
      assert calls[k] == init[k];
    } else {
      k := |calls| - 1;
    }
  }

  /** With two empty indexes there is nothing to move and nothing to report. */
  lemma EmptyIndexesNoMoves(nameCmp: (string, string) -> int)
    ensures MovesOf(MoveMerge([], [], nameCmp).steps) == []
    ensures ErrorsOf(MoveMerge([], [], nameCmp).steps) == []
  {
  }

  /** One file deleted from one directory and new in another, with the same
      name, size and write time: exactly one move, from the first directory to
      the second, and no error. */
  lemma OneFileMovedGivesOneMove(nameCmp: (string, string) -> int, newFile: FindData, delFile: FindData,
                                 from: string, to: string)
    requires nameCmp(newFile.cFileName, delFile.cFileName) == 0
    requires newFile.FileSize() == delFile.FileSize() && newFile.ftLastWriteTime == delFile.ftLastWriteTime
    ensures MovesOf(MoveMerge([Entry(newFile, [to])], [Entry(delFile, [from])], nameCmp).steps)
            == [Move(newFile.cFileName, from, to, newFile.FileSize())]
    ensures ErrorsOf(MoveMerge([Entry(newFile, [to])], [Entry(delFile, [from])], nameCmp).steps) == []
  {
    var d := MoveDiffer(nameCmp);
    var newFiles, delFiles := [Entry(newFile, [to])], [Entry(delFile, [from])];
    RunFromStep(d, newFiles, delFiles, false, 0, 0);
    assert StepAt(d, newFiles, delFiles, 0, 0) == Compared(SAMESAME, newFiles[0], delFiles[0]);
    var steps := MoveMerge(newFiles, delFiles, nameCmp).steps;
    assert steps == [Compared(SAMESAME, newFiles[0], delFiles[0])];
    assert steps[..0] == [];
  }

  /** A match found in several directories on a side moves nothing and writes
      one error line per side with more than one directory. */
  lemma AmbiguousMatchWritesErrors(c: Compared<Entry>)
    requires c.state == SAMESAME && !(|c.a.dirs| == 1 && |c.b.dirs| == 1)
    ensures CallbackMoves(c) == []
    ensures |CallbackErrors(c)| == (if |c.a.dirs| > 1 then 1 else 0) + (if |c.b.dirs| > 1 then 1 else 0)
  {
  }
}
