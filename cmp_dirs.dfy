/** `CmpTrees.CmpDirs`: how the entries of one target directory and one source
    directory are compared. Entries are keyed by name (ordinal, ignoring case;
    here any comparer `nameCmp`) with a directory/file tie-break, and their
    attributes are size and last-write time. The target listing is list A and
    the source listing list B of the merge; the diff callback receives the
    source entry first. The directory enumeration itself is not part of this
    model: `Run` takes both listings as parameters. */
module CmpDirs {
  import opened Wrappers
  import opened Misc
  import opened Win32
  import opened Ordering
  import opened Delta
  import opened DeltaProperties

  /** The line `Run` writes after the exception's message. */
  const Hint := "HINT: try using --sorts/--sortt to get the directories sorted for comparing."

  // ------------------------------------------------------------ comparers

  /** The key comparer: by name; two entries of the same name compare equal when
      both are directories or both are files, and a directory and a file of the
      same name compare as -1 whichever comes first. */
  function KeyCompare(nameCmp: (string, string) -> int, a: FindData, b: FindData): (r: int)
    ensures nameCmp(a.cFileName, b.cFileName) != 0 ==> r == nameCmp(a.cFileName, b.cFileName)
    ensures nameCmp(a.cFileName, b.cFileName) == 0 ==> (r == 0 <==> IsDirectoryEntry(a) == IsDirectoryEntry(b))
    ensures nameCmp(a.cFileName, b.cFileName) == 0 && IsDirectoryEntry(a) != IsDirectoryEntry(b) ==> r == -1
  {
    var cmp := nameCmp(a.cFileName, b.cFileName);
    if cmp == 0 then
      var aIsDir := IsDirectory(a.dwFileAttributes);
      var bIsDir := IsDirectory(b.dwFileAttributes);
      if aIsDir == bIsDir then 0 else -1
    else cmp
  }

  /** `CmpDirs.CmpFileTimes`: the difference of the two tick counts in unchecked
      64-bit arithmetic. It is 0 exactly for equal FILETIMEs, and it is the true
      difference whenever that fits in a `long`. */
  function CmpFileTimes(a: FileTime, b: FileTime): (r: int64)
    ensures r == 0 <==> a == b
    ensures r % TWO64 == (FiletimeToLong(a) - FiletimeToLong(b)) % TWO64
    ensures -TWO63 <= FiletimeToLong(a) - FiletimeToLong(b) < TWO63 ==> r == FiletimeToLong(a) - FiletimeToLong(b)
  {
    var d := FiletimeToLong(a) - FiletimeToLong(b);
    WrappedTickDifference(a, b, WrapInt64(d));
    WrapInt64(d)
  }

  /** The wrapped difference of two tick counts vanishes only for equal
      FILETIMEs, and it is exact when the difference fits in a `long`. */
  lemma WrappedTickDifference(a: FileTime, b: FileTime, w: int64)
    requires w % TWO64 == (FiletimeToLong(a) - FiletimeToLong(b)) % TWO64
    ensures w == 0 <==> a == b
    ensures -TWO63 <= FiletimeToLong(a) - FiletimeToLong(b) < TWO63 ==> w == FiletimeToLong(a) - FiletimeToLong(b)
  {
    var d: int := FiletimeToLong(a) - FiletimeToLong(b);
    if a == b {
      CongruentInRange(w, 0);
    } else if w == 0 {
      CongruentInRange(0, d);
      FiletimeToLongInjective(a, b);
    }
    if -TWO63 <= d < TWO63 {
      CongruentInRange(w, d);
    }
  }

  /** Two numbers congruent modulo 2^64 that are less than 2^64 apart are equal. */
  lemma CongruentInRange(x: int, y: int)
    requires x % TWO64 == y % TWO64 && -TWO64 < x - y < TWO64
    ensures x == y
  {
    var q := x / TWO64 - y / TWO64;
    assert x == x / TWO64 * TWO64 + x % TWO64;
    assert y == y / TWO64 * TWO64 + y % TWO64;
    assert x - y == q * TWO64;
  }

  /** The attribute comparer: two directories are equal; otherwise the sizes are
      compared, then the last-write times, each by a 64-bit difference that is
      returned cast to `int`. The cast keeps only the low 32 bits, so the result
      is 0 exactly when the low size words agree and either the high size words
      differ or the low words of the write times agree. */
  function AttributeCompare(a: FindData, b: FindData): (r: int32)
    ensures IsDirectoryEntry(a) && IsDirectoryEntry(b) ==> r == 0
    ensures !(IsDirectoryEntry(a) && IsDirectoryEntry(b)) ==>
              (r == 0 <==> a.nFileSizeLow == b.nFileSizeLow &&
                           (a.nFileSizeHigh != b.nFileSizeHigh ||
                            a.ftLastWriteTime.dwLowDateTime == b.ftLastWriteTime.dwLowDateTime))
    ensures !(IsDirectoryEntry(a) && IsDirectoryEntry(b)) && a.FileSize() != b.FileSize() ==>
              r % TWO32 == (a.FileSize() - b.FileSize()) % TWO32
    ensures !(IsDirectoryEntry(a) && IsDirectoryEntry(b)) && a.FileSize() == b.FileSize() ==>
              r % TWO32 == (FiletimeToLong(a.ftLastWriteTime) - FiletimeToLong(b.ftLastWriteTime)) % TWO32
  {
    if IsDirectoryEntry(a) && IsDirectoryEntry(b) then 0
    else
      var sizeCmp := WrapInt64(a.FileSize() - b.FileSize());
      if sizeCmp != 0 then
        SizeDifferenceLowWord(a, b, sizeCmp);
        TruncToInt32(sizeCmp)
      else
        var timeCmp := CmpFileTimes(a.ftLastWriteTime, b.ftLastWriteTime);
        WriteTimeDifferenceLowWord(a.ftLastWriteTime, b.ftLastWriteTime, timeCmp);
        if timeCmp != 0 then TruncToInt32(timeCmp) else 0
  }

  /** The wrapped size difference is non-zero exactly for different sizes, and
      its low 32 bits vanish exactly when the low size words agree. */
  lemma SizeDifferenceLowWord(a: FindData, b: FindData, sizeCmp: int64)
    requires sizeCmp == WrapInt64(a.FileSize() - b.FileSize())
    ensures sizeCmp == 0 <==> a.FileSize() == b.FileSize()
    ensures sizeCmp % TWO32 == (a.FileSize() - b.FileSize()) % TWO32
    ensures sizeCmp % TWO32 == 0 <==> a.nFileSizeLow == b.nFileSizeLow
    ensures a.FileSize() == b.FileSize() <==> a.nFileSizeLow == b.nFileSizeLow && a.nFileSizeHigh == b.nFileSizeHigh
  {
    var sa: int, sb: int := a.FileSize(), b.FileSize();
    assert sa == a.nFileSizeHigh * TWO32 + a.nFileSizeLow;
    assert sb == b.nFileSizeHigh * TWO32 + b.nFileSizeLow;
    ModOfMod(sizeCmp, sa - sb, TWO64);
    assert (sa - sb) % TWO32 == (a.nFileSizeLow - b.nFileSizeLow) % TWO32 by {
      ShiftMod(a.nFileSizeHigh - b.nFileSizeHigh, a.nFileSizeLow - b.nFileSizeLow);
    }
  }

  /** The wrapped write-time difference keeps the low 32 bits of the true one,
      which vanish exactly when the low words of the two times agree. */
  lemma WriteTimeDifferenceLowWord(x: FileTime, y: FileTime, timeCmp: int64)
    requires timeCmp == CmpFileTimes(x, y)
    ensures timeCmp % TWO32 == (FiletimeToLong(x) - FiletimeToLong(y)) % TWO32
    ensures timeCmp % TWO32 == 0 <==> x.dwLowDateTime == y.dwLowDateTime
  {
    var tx: int, ty: int := FiletimeToLong(x), FiletimeToLong(y);
    ModOfMod(timeCmp, tx - ty, TWO64);
    var lx: int, ly: int := AsUInt32(x.dwLowDateTime), AsUInt32(y.dwLowDateTime);
    assert tx - ty == (x.dwHighDateTime - y.dwHighDateTime) * TWO32 + (lx - ly);
    ShiftMod(x.dwHighDateTime - y.dwHighDateTime, lx - ly);
    if x.dwLowDateTime != y.dwLowDateTime {
      assert lx != ly;
    }
  }

  /** Values congruent modulo 2^64 are congruent modulo 2^32. */
  lemma ModOfMod(x: int, y: int, m: int)
    requires m == TWO64 && x % m == y % m
    ensures x % TWO32 == y % TWO32
  {
    var k := (x / m - y / m) * TWO32;
    assert x == x / m * m + x % m && y == y / m * m + y % m;
    assert x - y == (x / m - y / m) * m;
    assert x == y + k * TWO32;
    AddMultiple(y, k);
  }

  /** Adding a multiple of 2^32 does not change the remainder modulo 2^32. */
  lemma AddMultiple(y: int, k: int)
    ensures (y + k * TWO32) % TWO32 == y % TWO32
  {
    var q, r := y / TWO32, y % TWO32;
    assert y + k * TWO32 == (q + k) * TWO32 + r;
  }

  /** Adding a multiple of 2^32 leaves the low 32 bits unchanged; the low 32
      bits of a difference of two `uint`s vanish only when they are equal. */
  lemma ShiftMod(h: int, l: int)
    requires -TWO32 < l < TWO32
    ensures (h * TWO32 + l) % TWO32 == l % TWO32
    ensures l % TWO32 == 0 <==> l == 0
  {
  }

  // --------------------------------------------------- sorting a listing

  /** `s` is ordered by name under `nameCmp`. */
  ghost predicate SortedByName(s: seq<FindData>, nameCmp: (string, string) -> int) {
    forall i, j :: 0 <= i < j < |s| ==> nameCmp(s[i].cFileName, s[j].cFileName) <= 0
  }

  /** Inserting `x` into a listing ordered by name, after every entry that does
      not compare greater (so equal names keep their order). */
  function InsertByName(sorted: seq<FindData>, x: FindData, nameCmp: (string, string) -> int): (r: seq<FindData>)
    ensures multiset(r) == multiset(sorted) + multiset{x}
    ensures IsTotalPreorder(nameCmp) && SortedByName(sorted, nameCmp) ==> SortedByName(r, nameCmp)
    decreases |sorted|
  {
    if sorted == [] then [x]
    else
      var last := sorted[|sorted| - 1];
      var init := sorted[..|sorted| - 1];
      assert sorted == init + [last];
      if nameCmp(last.cFileName, x.cFileName) <= 0 then
        sorted + [x]
      else
        var front := InsertByName(init, x, nameCmp);
        InsertedBeforeLast(init, x, last, front, nameCmp);
        front + [last]
  }

  /** Appending an entry not less than everything before keeps a listing ordered. */
  lemma InsertedBeforeLast(init: seq<FindData>, x: FindData, last: FindData, front: seq<FindData>,
                           nameCmp: (string, string) -> int)
    requires multiset(front) == multiset(init) + multiset{x}
    requires nameCmp(last.cFileName, x.cFileName) > 0
    ensures IsTotalPreorder(nameCmp) && SortedByName(init + [last], nameCmp) && SortedByName(front, nameCmp) ==>
              SortedByName(front + [last], nameCmp)
  {
    if !(IsTotalPreorder(nameCmp) && SortedByName(init + [last], nameCmp) && SortedByName(front, nameCmp)) {
      return;
    }
    var r := front + [last];
    forall i, j | 0 <= i < j < |r|
      ensures nameCmp(r[i].cFileName, r[j].cFileName) <= 0
    {
      if j == |r| - 1 {
        assert r[i] in multiset(front);
        if r[i] == x {
          assert nameCmp(x.cFileName, last.cFileName) < 0;
        } else {
          assert r[i] in multiset(init);
          var k :| 0 <= k < |init| && init[k] == r[i];
          assert (init + [last])[k] == init[k] && (init + [last])[|init|] == last;
        }
      } else {
        assert r[i] == front[i] && r[j] == front[j];
      }
    }
  }

  /** `OrderBy(k => k.cFileName, comparer)`: a stable sort of the listing by
      name. */
  function SortByName(s: seq<FindData>, nameCmp: (string, string) -> int): (r: seq<FindData>)
    ensures multiset(r) == multiset(s)
    ensures IsTotalPreorder(nameCmp) ==> SortedByName(r, nameCmp)
    decreases |s|
  {
    if s == [] then []
    else
      assert s == s[..|s| - 1] + [s[|s| - 1]];
      InsertByName(SortByName(s[..|s| - 1], nameCmp), s[|s| - 1], nameCmp)
  }

  /** The entries of `s` whose name compares equal to `name`, in their order
      in `s`. */
  function SameName(s: seq<FindData>, name: string, nameCmp: (string, string) -> int): seq<FindData> {
    if s == [] then []
    else SameName(s[..|s| - 1], name, nameCmp)
         + (if nameCmp(s[|s| - 1].cFileName, name) == 0 then [s[|s| - 1]] else [])
  }

  /** Inserting an entry puts it after every entry with an equal name. */
  lemma {:induction false} InsertByNameStable(sorted: seq<FindData>, x: FindData, nameCmp: (string, string) -> int,
                                              name: string)
    requires IsTotalPreorder(nameCmp) && SortedByName(sorted, nameCmp)
    ensures SameName(InsertByName(sorted, x, nameCmp), name, nameCmp)
            == SameName(sorted, name, nameCmp) + (if nameCmp(x.cFileName, name) == 0 then [x] else [])
    decreases |sorted|
  {
    if sorted == [] {
      SameNameAppend([], x, name, nameCmp);
    } else {
      var last := sorted[|sorted| - 1];
      var init := sorted[..|sorted| - 1];
      if nameCmp(last.cFileName, x.cFileName) <= 0 {
        SameNameAppend(sorted, x, name, nameCmp);
      } else {
        var front := InsertByName(init, x, nameCmp);
        assert InsertByName(sorted, x, nameCmp) == front + [last];
        SameNameAppend(front, last, name, nameCmp);
        assert sorted == init + [last];
        SameNameAppend(init, last, name, nameCmp);
        SortedInit(sorted, nameCmp);
        InsertByNameStable(init, x, nameCmp, name);
        NotBothNamed(nameCmp, x, last, name);
        SwapAtMostOne(SameName(init, name, nameCmp),
                      if nameCmp(x.cFileName, name) == 0 then [x] else [],
                      if nameCmp(last.cFileName, name) == 0 then [last] else []);
      }
    }
  }

  /** `SameName` of a listing with one more entry at the end. */
  lemma SameNameAppend(s: seq<FindData>, e: FindData, name: string, nameCmp: (string, string) -> int)
    ensures SameName(s + [e], name, nameCmp)
            == SameName(s, name, nameCmp) + (if nameCmp(e.cFileName, name) == 0 then [e] else [])
  {
    assert (s + [e])[..|s|] == s;
  }

  /** Two suffixes of which at least one is empty may be appended in either order. */
  lemma SwapAtMostOne<X>(a: seq<X>, b: seq<X>, c: seq<X>)
    requires b == [] || c == []
    ensures a + b + c == a + c + b
  {
  }

  /** Dropping the last entry of an ordered listing keeps it ordered. */
  lemma SortedInit(s: seq<FindData>, nameCmp: (string, string) -> int)
    requires s != [] && SortedByName(s, nameCmp)
    ensures SortedByName(s[..|s| - 1], nameCmp)
  {
  }

  /** Under a total preorder, two names on either side of a strict inequality
      cannot both equal a third. */
  lemma NotBothNamed(nameCmp: (string, string) -> int, x: FindData, last: FindData, name: string)
    requires IsTotalPreorder(nameCmp) && nameCmp(last.cFileName, x.cFileName) > 0
    ensures !(nameCmp(x.cFileName, name) == 0 && nameCmp(last.cFileName, name) == 0)
  {
    if nameCmp(x.cFileName, name) == 0 {
      assert nameCmp(name, x.cFileName) == 0;
      assert nameCmp(last.cFileName, name) != 0;
    }
  }

  /** The forced sort is stable: for every name, the entries with that name
      come out in the order the listing delivered them. */
  lemma {:induction false} SortByNameStable(s: seq<FindData>, nameCmp: (string, string) -> int, name: string)
    requires IsTotalPreorder(nameCmp)
    ensures SameName(SortByName(s, nameCmp), name, nameCmp) == SameName(s, name, nameCmp)
    decreases |s|
  {
    if s != [] {
      var init := s[..|s| - 1];
      SortByNameStable(init, nameCmp, name);
      InsertByNameStable(SortByName(init, nameCmp), s[|s| - 1], nameCmp, name);
    }
  }

  /** The listing the merge sees for one side: sorted when forced, else as the
      enumeration delivered it. */
  function Listing(entries: seq<FindData>, forceSort: bool, nameCmp: (string, string) -> int): (r: seq<FindData>)
    ensures multiset(r) == multiset(entries)
    ensures forceSort && IsTotalPreorder(nameCmp) ==> SortedByName(r, nameCmp)
  {
    if forceSort then SortByName(entries, nameCmp) else entries
  }

  // ------------------------------------------------------------------ Run

  /** The differ `Run` hands to `DiffSortedLists.Run`: entries are their own keys
      and attributes, compared as above; `default(FIND_DATA)` fills in for a
      missing side. */
  function EntryDiffer(nameCmp: (string, string) -> int): Differ<FindData, FindData, FindData> {
    SelfKeyed((a, b) => KeyCompare(nameCmp, a, b), Some((a: FindData, b: FindData) => AttributeCompare(a, b) as int),
              DefaultFindData)
  }

  /** The calls of the merge as the diff callback receives them: the source
      entry (list B) first, the target entry (list A) second. */
  function SourceFirst(calls: seq<Compared<FindData>>): (r: seq<Compared<FindData>>)
    ensures |r| == |calls|
    ensures forall k :: 0 <= k < |r| ==> r[k] == Compared(calls[k].state, calls[k].b, calls[k].a)
  {
    seq(|calls|, k requires 0 <= k < |calls| => Compared(calls[k].state, calls[k].b, calls[k].a))
  }

  /** The merge `Run` performs: the target listing as list A against the source
      listing as list B, with the sort-order check on. */
  function Comparison(sourceEntries: seq<FindData>, targetEntries: seq<FindData>, nameCmp: (string, string) -> int,
                      forceSortSource: bool, forceSortTarget: bool): Trace<FindData, FindData> {
    Merge(EntryDiffer(nameCmp), Listing(targetEntries, forceSortTarget, nameCmp),
          Listing(sourceEntries, forceSortSource, nameCmp), true)
  }

  /** The lines `Run` writes to the console error stream for a merge: none, or
      the sort-order exception's message followed by the hint. */
  function ErrorLines(t: Trace<FindData, FindData>): (r: seq<string>)
    ensures t.failure.None? <==> r == []
    ensures t.failure.Some? ==> |r| == 2 && r[1] == Hint
  {
    match t.failure
    case None => []
    case Some(e) => [SortOrderMessage(e, (x: FindData) => x.ToString()), Hint]
  }

  /** What `Run` does for one pair of directories: the merge of the target
      listing (A) against the source listing (B), with every iteration
      reported, each call handed to the diff callback as (state, source,
      target); a sort-order exception is caught and written to the console
      error stream, so `Run` itself always returns. */
  method Run(sourceEntries: seq<FindData>, targetEntries: seq<FindData>, nameCmp: (string, string) -> int,
             forceSortSource: bool, forceSortTarget: bool)
    returns (events: seq<Compared<FindData>>, errorLines: seq<string>)
    ensures var t := Comparison(sourceEntries, targetEntries, nameCmp, forceSortSource, forceSortTarget);
            events == SourceFirst(t.steps) && errorLines == ErrorLines(t)
  {
    var sortedItemsTrg := targetEntries;
    var sortedItemsSrc := sourceEntries;
    if forceSortTarget {
      sortedItemsTrg := SortByName(targetEntries, nameCmp);
    }
    if forceSortSource {
      sortedItemsSrc := SortByName(sourceEntries, nameCmp);
    }
    var calls, result := Delta.Run(sortedItemsTrg, sortedItemsSrc, (a, b) => KeyCompare(nameCmp, a, b),
                                   Some((a: FindData, b: FindData) => AttributeCompare(a, b) as int),
                                   true, true, DefaultFindData);
    ghost var t := Merge(EntryDiffer(nameCmp), sortedItemsTrg, sortedItemsSrc, true);
    ReportedAll(t.steps);
    events := SourceFirst(calls);
    errorLines := [];
    if result.Failure? {
      errorLines := [SortOrderMessage(result.error, (x: FindData) => x.ToString()), Hint];
    }
  }

  // ------------------------------------------------------------ properties

  /** A directory and a file of the same name compare as -1 in both orders, so
      when they meet in the merge they give a DELETE and are never matched. */
  lemma DirAndFileNeverMatch(nameCmp: (string, string) -> int, a: FindData, b: FindData)
    requires IsTotalPreorder(nameCmp)
    requires nameCmp(a.cFileName, b.cFileName) == 0
    requires IsDirectoryEntry(a) != IsDirectoryEntry(b)
    ensures KeyCompare(nameCmp, a, b) == -1 && KeyCompare(nameCmp, b, a) == -1
    ensures StepAt(EntryDiffer(nameCmp), [a], [b], 0, 0).state == DELETE
  {
    assert nameCmp(b.cFileName, a.cFileName) == 0;
  }

  /** Two directories of the same name are SAMESAME, whatever their sizes and
      times. */
  lemma SameNamedDirectoriesAreSameSame(nameCmp: (string, string) -> int, a: FindData, b: FindData)
    requires nameCmp(a.cFileName, b.cFileName) == 0
    requires IsDirectoryEntry(a) && IsDirectoryEntry(b)
    ensures StepAt(EntryDiffer(nameCmp), [a], [b], 0, 0).state == SAMESAME
  {
  }

  /** Two files of the same name, size and last-write time are SAMESAME. */
  lemma SameSizeAndTimeIsSameSame(nameCmp: (string, string) -> int, a: FindData, b: FindData)
    requires nameCmp(a.cFileName, b.cFileName) == 0
    requires !IsDirectoryEntry(a) && !IsDirectoryEntry(b)
    requires a.FileSize() == b.FileSize() && a.ftLastWriteTime == b.ftLastWriteTime
    ensures AttributeCompare(a, b) == 0
    ensures StepAt(EntryDiffer(nameCmp), [a], [b], 0, 0).state == SAMESAME
  {
    SizeDifferenceLowWord(a, b, WrapInt64(a.FileSize() - b.FileSize()));
  }

  /** Because the 64-bit size difference is cast to `int`, two same-named files
      whose sizes differ by a multiple of 2^32 are SAMESAME even though their
      sizes and write times differ. */
  lemma SizesApartByTwoTo32AreSameSame(nameCmp: (string, string) -> int, a: FindData, b: FindData)
    requires nameCmp(a.cFileName, b.cFileName) == 0
    requires !IsDirectoryEntry(a) && !IsDirectoryEntry(b)
    requires a.nFileSizeLow == b.nFileSizeLow && a.nFileSizeHigh != b.nFileSizeHigh
    ensures a.FileSize() != b.FileSize()
    ensures AttributeCompare(a, b) == 0
    ensures StepAt(EntryDiffer(nameCmp), [a], [b], 0, 0).state == SAMESAME
  {
    SizeDifferenceLowWord(a, b, WrapInt64(a.FileSize() - b.FileSize()));
  }

  /** The same cast makes two same-sized files whose write times differ only in
      the high word SAMESAME. */
  lemma WriteTimesApartInHighWordAreSameSame(nameCmp: (string, string) -> int, a: FindData, b: FindData)
    requires nameCmp(a.cFileName, b.cFileName) == 0
    requires !IsDirectoryEntry(a) && !IsDirectoryEntry(b)
    requires a.FileSize() == b.FileSize()
    requires a.ftLastWriteTime.dwLowDateTime == b.ftLastWriteTime.dwLowDateTime
    ensures AttributeCompare(a, b) == 0
    ensures StepAt(EntryDiffer(nameCmp), [a], [b], 0, 0).state == SAMESAME
  {
    SizeDifferenceLowWord(a, b, WrapInt64(a.FileSize() - b.FileSize()));
  }

  /** `default(FIND_DATA)`'s null name sorts before every real name. */
  ghost predicate NullNameFirst(nameCmp: (string, string) -> int) {
    forall n :: n != "" ==> nameCmp("", n) < 0
  }

  /** Every entry of a listing has a name. */
  ghost predicate Named(s: seq<FindData>) {
    forall k :: 0 <= k < |s| ==> s[k].cFileName != ""
  }

  /** A listing ordered by name ascends under the key comparer, and
      `default(FIND_DATA)` sorts first. */
  lemma SortedListingAscends(nameCmp: (string, string) -> int, s: seq<FindData>)
    requires IsTotalPreorder(nameCmp) && NullNameFirst(nameCmp)
    requires SortedByName(s, nameCmp) && Named(s)
    ensures Ascending(EntryDiffer(nameCmp), s)
    ensures DefaultKeyFirst(EntryDiffer(nameCmp), s)
  {
    var d := EntryDiffer(nameCmp);
    forall k | 0 <= k < |s| - 1
      ensures d.keyComparer(d.keySelector(s[k]), d.keySelector(s[k + 1])) <= 0
    {
      assert nameCmp(s[k].cFileName, s[k + 1].cFileName) <= 0;
    }
    if |s| > 0 {
      assert KeyAt(d, s, |s|) == s[|s| - 1];
      assert nameCmp("", s[|s| - 1].cFileName) < 0;
    }
  }

  /** Forcing both listings into name order means the merge never throws and
      `Run` writes no error (for real entries, which all have names). */
  lemma ForceSortBothNeverFails(nameCmp: (string, string) -> int, sourceEntries: seq<FindData>,
                                targetEntries: seq<FindData>)
    requires IsTotalPreorder(nameCmp) && NullNameFirst(nameCmp)
    requires Named(sourceEntries) && Named(targetEntries)
    ensures Merge(EntryDiffer(nameCmp), Listing(targetEntries, true, nameCmp),
                  Listing(sourceEntries, true, nameCmp), true).failure.None?
  {
    var trg := Listing(targetEntries, true, nameCmp);
    var src := Listing(sourceEntries, true, nameCmp);
    NamedPermutation(targetEntries, trg);
    NamedPermutation(sourceEntries, src);
    SortedListingAscends(nameCmp, trg);
    SortedListingAscends(nameCmp, src);
    AscendingNeverFails(EntryDiffer(nameCmp), trg, src, 0, 0);
  }

  /** A permutation of named entries is named. */
  lemma NamedPermutation(s: seq<FindData>, r: seq<FindData>)
    requires Named(s) && multiset(r) == multiset(s)
    ensures Named(r)
  {
    forall k | 0 <= k < |r|
      ensures r[k].cFileName != ""
    {
      assert r[k] in multiset(s);
      var i :| 0 <= i < |s| && s[i] == r[k];
    }
  }

  /** Orientation: a NEW event's source entry comes from the source listing and a
      DELETE event's target entry from the target listing, so NEW means "in the
      source" and DELETE "in the target"; a drained side hands over
      `default(FIND_DATA)`. */
  lemma Orientation(nameCmp: (string, string) -> int, src: seq<FindData>, trg: seq<FindData>)
    ensures var events := SourceFirst(Merge(EntryDiffer(nameCmp), trg, src, true).steps);
            && (forall e :: e in events && e.state != DELETE ==> e.a in src)
            && (forall e :: e in events && e.state != NEW ==> e.b in trg)
  {
    var t := Merge(EntryDiffer(nameCmp), trg, src, true);
    MergeConsumesEachItemOnce(EntryDiffer(nameCmp), trg, src, true);
    StepItemsConsumed(t.steps);
    var events := SourceFirst(t.steps);
    forall e | e in events && e.state != DELETE
      ensures e.a in src
    {
      var k :| 0 <= k < |events| && events[k] == e;
      assert t.steps[k].b in ItemsB(t.steps);
      assert ItemsB(t.steps) == src[..|ItemsB(t.steps)|];
    }
    forall e | e in events && e.state != NEW
      ensures e.b in trg
    {
      var k :| 0 <= k < |events| && events[k] == e;
      assert t.steps[k].a in ItemsA(t.steps);
      assert ItemsA(t.steps) == trg[..|ItemsA(t.steps)|];
    }
  }

  /** A source directory `x` against a target file `x`, as the unit test sets
      them up (the directory in the first tree, which is the source): two
      events. First comes the DELETE of the target file, handed over with the
      directory, the current source entry, first. Then comes the NEW of the
      directory, whose second entry is `default(FIND_DATA)`, with no name. */
  lemma DirAndFileWithSameName(nameCmp: (string, string) -> int, dirX: FindData, fileX: FindData)
    requires IsTotalPreorder(nameCmp) && NullNameFirst(nameCmp)
    requires dirX.cFileName == fileX.cFileName != ""
    requires IsDirectoryEntry(dirX) && !IsDirectoryEntry(fileX)
    ensures SourceFirst(Merge(EntryDiffer(nameCmp), [fileX], [dirX], true).steps)
            == [Compared(DELETE, dirX, fileX), Compared(NEW, dirX, DefaultFindData)]
  {
    var d := EntryDiffer(nameCmp);
    DirAndFileNeverMatch(nameCmp, dirX, fileX);
    assert nameCmp(fileX.cFileName, fileX.cFileName) == 0;
    RunFromStep(d, [fileX], [dirX], true, 0, 0);
    RunFromStep(d, [fileX], [dirX], true, 1, 0);
    assert KeyCompare(nameCmp, DefaultFindData, fileX) < 0;
    assert RunFrom(d, [fileX], [dirX], true, 1, 0) == Trace([Compared(NEW, DefaultFindData, dirX)], None);
  }

}
