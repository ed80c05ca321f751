/** `CmpTrees.DiffProcessing`: the diff handler the walker's classifications go
    to. Every difference is counted in the statistics, written as one line to
    the writer for its kind, and a new or deleted file is indexed by its entry
    with the base directories it was found in. The counters are 64-bit and
    wrap; the writers are sequences of lines; the time formatting is the
    function `fmt`. */
module DiffProcessing {
  import opened Wrappers
  import opened Misc
  import opened Win32
  import opened Delta

  /** The five writers of a `DiffWriter`, one per kind of difference. */
  datatype Sink = NewDirs | NewFiles | ModifiedFiles | DeletedDirs | DeletedFiles

  /** Which writer a classification goes to: NEW and DELETE split by whether the
      entry that exists (the second for NEW, the first for DELETE) is a
      directory. */
  function SinkOf(state: DiffState, a: FindData, b: FindData): (r: Option<Sink>)
    ensures r.None? <==> state == SAMESAME
    ensures r == Some(NewDirs) <==> state == NEW && IsDirectoryEntry(b)
    ensures r == Some(NewFiles) <==> state == NEW && !IsDirectoryEntry(b)
    ensures r == Some(ModifiedFiles) <==> state == MODIFY
    ensures r == Some(DeletedDirs) <==> state == DELETE && IsDirectoryEntry(a)
    ensures r == Some(DeletedFiles) <==> state == DELETE && !IsDirectoryEntry(a)
  {
    match state
    case SAMESAME => None
    case NEW => if IsDirectory(b.dwFileAttributes) then Some(NewDirs) else Some(NewFiles)
    case MODIFY => Some(ModifiedFiles)
    case DELETE => if IsDirectory(a.dwFileAttributes) then Some(DeletedDirs) else Some(DeletedFiles)
  }

  // ------------------------------------------------------------ statistics

  /** The values of the `Stats` counters `DiffCallback` updates. */
  datatype Counters = Counters(filesNew: int64, filesNewBytes: int64, dirsNew: int64,
                               filesMod: int64, filesModBytes: int64,
                               filesDel: int64, filesDelBytes: int64, dirsDel: int64)

  const ZeroCounters := Counters(0, 0, 0, 0, 0, 0, 0, 0)

  /** The event counter for a kind of difference. */
  function Counter(c: Counters, s: Sink): int64 {
    match s
    case NewDirs => c.dirsNew
    case NewFiles => c.filesNew
    case ModifiedFiles => c.filesMod
    case DeletedDirs => c.dirsDel
    case DeletedFiles => c.filesDel
  }

  /** `Interlocked.Increment` on a `long`. */
  function Increment(x: int64): (r: int64)
    ensures r % TWO64 == (x + 1) % TWO64
  {
    WrapInt64(x + 1)
  }

  /** `Interlocked.Add` on a `long`. */
  function Add(x: int64, v: int64): (r: int64)
    ensures r % TWO64 == (x + v) % TWO64
  {
    WrapInt64(x + v)
  }

  /** How one classification changes the counters, as `DiffCallback` updates
      them. */
  function Account(c: Counters, state: DiffState, a: FindData, b: FindData): Counters {
    match state
    case SAMESAME => c
    case NEW =>
      if IsDirectory(b.dwFileAttributes) then c.(dirsNew := Increment(c.dirsNew))
      else c.(filesNew := Increment(c.filesNew), filesNewBytes := Add(c.filesNewBytes, AsInt64(b.FileSize())))
    case MODIFY =>
      c.(filesMod := Increment(c.filesMod),
         filesModBytes := Add(c.filesModBytes, WrapInt64(AsInt64(b.FileSize()) - AsInt64(a.FileSize()))))
    case DELETE =>
      if IsDirectory(a.dwFileAttributes) then c.(dirsDel := Increment(c.dirsDel))
      else c.(filesDel := Increment(c.filesDel), filesDelBytes := Add(c.filesDelBytes, AsInt64(a.FileSize())))
  }

  /** SAMESAME changes no counter; any other classification raises the counter
      of its kind by one and leaves the other event counters alone (modulo
      2^64). */
  lemma AccountCountsOne(c: Counters, state: DiffState, a: FindData, b: FindData, s: Sink)
    ensures state == SAMESAME ==> Account(c, state, a, b) == c
    ensures Counter(Account(c, state, a, b), s) % TWO64 ==
              (Counter(c, s) + (if Some(s) == SinkOf(state, a, b) then 1 else 0)) % TWO64
  {
  }

  /** A new file adds the second entry's size to the new bytes (modulo 2^64);
      no other classification changes that counter. */
  lemma AccountNewBytes(c: Counters, state: DiffState, a: FindData, b: FindData)
    ensures Account(c, state, a, b).filesNewBytes % TWO64 ==
              (c.filesNewBytes + if SinkOf(state, a, b) == Some(NewFiles) then b.FileSize() else 0) % TWO64
  {
    if state == NEW && !IsDirectory(b.dwFileAttributes) {
      ModAddCongruent(c.filesNewBytes, AsInt64(b.FileSize()), b.FileSize());
    }
  }

  /** A deleted file adds the first entry's size to the deleted bytes (modulo
      2^64); no other classification changes that counter. */
  lemma AccountDeletedBytes(c: Counters, state: DiffState, a: FindData, b: FindData)
    ensures Account(c, state, a, b).filesDelBytes % TWO64 ==
              (c.filesDelBytes + if SinkOf(state, a, b) == Some(DeletedFiles) then a.FileSize() else 0) % TWO64
  {
    if state == DELETE && !IsDirectory(a.dwFileAttributes) {
      ModAddCongruent(c.filesDelBytes, AsInt64(a.FileSize()), a.FileSize());
    }
  }

  /** A modified file adds the second size minus the first to the modified
      bytes (modulo 2^64); no other classification changes that counter. */
  lemma AccountModifiedBytes(c: Counters, state: DiffState, a: FindData, b: FindData)
    ensures Account(c, state, a, b).filesModBytes % TWO64 ==
              (c.filesModBytes + if state == MODIFY then b.FileSize() - a.FileSize() else 0) % TWO64
  {
    if state == MODIFY {
      var delta := WrapInt64(AsInt64(b.FileSize()) - AsInt64(a.FileSize()));
      ModifiedDelta(a.FileSize(), b.FileSize(), delta);
      ModAddCongruent(c.filesModBytes, delta, b.FileSize() - a.FileSize());
    }
  }

  /** Adding congruent values gives congruent sums. */
  lemma ModAddCongruent(x: int, v: int, w: int)
    requires v % TWO64 == w % TWO64
    ensures (x + v) % TWO64 == (x + w) % TWO64
  {
    var q := v / TWO64 - w / TWO64;
    assert v == v / TWO64 * TWO64 + v % TWO64 && w == w / TWO64 * TWO64 + w % TWO64;
    assert x + v == x + w + q * TWO64;
    ShiftByMultiple(x + w, q);
  }

  /** Adding a multiple of 2^64 leaves the remainder modulo 2^64 unchanged. */
  lemma ShiftByMultiple(y: int, q: int)
    ensures (y + q * TWO64) % TWO64 == y % TWO64
  {
    var d, m := y / TWO64, y % TWO64;
    assert y + q * TWO64 == (d + q) * TWO64 + m;
  }

  /** `(long)sizeB - (long)sizeA` in unchecked arithmetic is the true difference
      modulo 2^64. */
  lemma ModifiedDelta(sizeA: uint64, sizeB: uint64, delta: int64)
    requires delta == WrapInt64(AsInt64(sizeB) - AsInt64(sizeA))
    ensures delta % TWO64 == (sizeB - sizeA) % TWO64
  {
    var xb: int, xa: int, sb: int, sa: int := AsInt64(sizeB), AsInt64(sizeA), sizeB, sizeA;
    ModAddCongruent(-xa, xb, sb);
    NegateCongruent(xa, sa);
    ModAddCongruent(sb, -xa, -sa);
  }

  /** Negation keeps congruence modulo 2^64. */
  lemma NegateCongruent(x: int, y: int)
    requires x % TWO64 == y % TWO64
    ensures (-x) % TWO64 == (-y) % TWO64
  {
    var q := x / TWO64 - y / TWO64;
    assert x == x / TWO64 * TWO64 + x % TWO64 && y == y / TWO64 * TWO64 + y % TWO64;
    assert -y == -x + q * TWO64;
    ShiftByMultiple(-x, q);
  }

  /** The counters after a sequence of classifications. */
  function AccountAll(c: Counters, calls: seq<Compared<FindData>>): Counters
    decreases |calls|
  {
    if calls == [] then c
    else
      var last := calls[|calls| - 1];
      Account(AccountAll(c, calls[..|calls| - 1]), last.state, last.a, last.b)
  }

  /** The number of classifications of a kind. */
  function CountOf(calls: seq<Compared<FindData>>, s: Sink): nat
    decreases |calls|
  {
    if calls == [] then 0
    else
      var last := calls[|calls| - 1];
      CountOf(calls[..|calls| - 1], s) + if SinkOf(last.state, last.a, last.b) == Some(s) then 1 else 0
  }

  /** Starting from zero, each event counter is the number of classifications of
      its kind (modulo 2^64). */
  lemma {:induction false} CountersCountEvents(calls: seq<Compared<FindData>>, s: Sink)
    ensures Counter(AccountAll(ZeroCounters, calls), s) % TWO64 == CountOf(calls, s) % TWO64
    decreases |calls|
  {
    if calls != [] {
      var init := calls[..|calls| - 1];
      var last := calls[|calls| - 1];
      CountersCountEvents(init, s);
      var c := AccountAll(ZeroCounters, init);
      var delta := if SinkOf(last.state, last.a, last.b) == Some(s) then 1 else 0;
      assert AccountAll(ZeroCounters, calls) == Account(c, last.state, last.a, last.b);
      assert CountOf(calls, s) == CountOf(init, s) + delta;
      AccountCountsOne(c, last.state, last.a, last.b, s);
      ModAddCongruent(delta, Counter(c, s), CountOf(init, s));
    }
  }

  /** `Stats`: the counters, updated in place. */
  class Stats {
    var filesNew: int64
    var filesNewBytes: int64
    var dirsNew: int64
    var filesMod: int64
    var filesModBytes: int64
    var filesDel: int64
    var filesDelBytes: int64
    var dirsDel: int64

    constructor ()
      ensures Snapshot() == ZeroCounters
    {
      filesNew, filesNewBytes, dirsNew := 0, 0, 0;
      filesMod, filesModBytes := 0, 0;
      filesDel, filesDelBytes, dirsDel := 0, 0, 0;
    }

    /** The counter updates of `DiffCallback` for one classification. */
    method Record(state: DiffState, a: FindData, b: FindData)
      modifies this
      ensures Snapshot() == Account(old(Snapshot()), state, a, b)
    {
      match state {
        case SAMESAME =>
        case NEW =>
          if IsDirectory(b.dwFileAttributes) {
            dirsNew := Increment(dirsNew);
          } else {
            filesNew := Increment(filesNew);
            filesNewBytes := Add(filesNewBytes, AsInt64(b.FileSize()));
          }
        case MODIFY =>
          filesMod := Increment(filesMod);
          filesModBytes := Add(filesModBytes, WrapInt64(AsInt64(b.FileSize()) - AsInt64(a.FileSize())));
        case DELETE =>
          if IsDirectory(a.dwFileAttributes) {
            dirsDel := Increment(dirsDel);
          } else {
            filesDel := Increment(filesDel);
            filesDelBytes := Add(filesDelBytes, AsInt64(a.FileSize()));
          }
      }
    }

    /** The current values. */
    function Snapshot(): Counters
      reads this
    {
      Counters(filesNew, filesNewBytes, dirsNew, filesMod, filesModBytes, filesDel, filesDelBytes, dirsDel)
    }
  }

  // ---------------------------------------------------------------- output

  /** The lines written to each writer of a `DiffWriter`. */
  class DiffWriter {
    var newDirLines: seq<string>
    var newLines: seq<string>
    var modLines: seq<string>
    var delDirLines: seq<string>
    var delLines: seq<string>

    constructor ()
      ensures forall s :: Lines(s) == []
    {
      newDirLines, newLines, modLines, delDirLines, delLines := [], [], [], [], [];
    }

    /** The lines of one writer. */
    function Lines(s: Sink): seq<string>
      reads this
    {
      match s
      case NewDirs => newDirLines
      case NewFiles => newLines
      case ModifiedFiles => modLines
      case DeletedDirs => delDirLines
      case DeletedFiles => delLines
    }

    /** `WriteLine` on one writer. */
    method WriteLine(s: Sink, line: string)
      modifies this
      ensures Lines(s) == old(Lines(s)) + [line]
      ensures forall t :: t != s ==> Lines(t) == old(Lines(t))
    {
      match s
      case NewDirs => newDirLines := newDirLines + [line];
      case NewFiles => newLines := newLines + [line];
      case ModifiedFiles => modLines := modLines + [line];
      case DeletedDirs => delDirLines := delDirLines + [line];
      case DeletedFiles => delLines := delLines + [line];
    }
  }

  /** The decimal digits of a number, as `{ulong}` formats it: digits that
      denote `n`, with no leading zero. */
  function DecimalString(n: nat): (r: string)
    ensures |r| >= 1
    ensures forall k :: 0 <= k < |r| ==> '0' <= r[k] <= '9'
    ensures DigitsValue(r) == n
    ensures n > 0 ==> r[0] != '0'
  {
    if n < 10 then
      var r := [(n + '0' as int) as char];
      assert r[..0] == [];
      r
    else
      var prefix := DecimalString(n / 10);
      var r := prefix + [((n % 10) + '0' as int) as char];
      assert r[..|r| - 1] == prefix;
      r
  }

  /** The number a string of decimal digits denotes, most significant first. */
  function DigitsValue(s: string): nat
    requires forall k :: 0 <= k < |s| ==> '0' <= s[k] <= '9'
  {
    if s == [] then 0
    else DigitsValue(s[..|s| - 1]) * 10 + (s[|s| - 1] as int - '0' as int)
  }

  /** The path written for a classification: the base directory and a backslash
      (nothing for a `null` base directory) and the name of the second entry for
      NEW, of the first otherwise. */
  function FullFilename(state: DiffState, basedir: Option<string>, a: FindData, b: FindData): (r: string)
    ensures basedir.None? ==> r == (if state == NEW then b.cFileName else a.cFileName)
    ensures basedir.Some? ==> r == basedir.value + "\\" + (if state == NEW then b.cFileName else a.cFileName)
  {
    var filenameToPrint := if state == NEW then b.cFileName else a.cFileName;
    var baseDirToPrint := if basedir.None? then "" else basedir.value + "\\";
    baseDirToPrint + filenameToPrint
  }

  /** The entry whose data the line for a classification shows: the second
      entry of a new file and of a modified file, the first of a deleted file;
      none for directories. */
  function FileDataToUse(state: DiffState, a: FindData, b: FindData): (r: Option<FindData>)
    ensures r.Some? <==> SinkOf(state, a, b) in {Some(NewFiles), Some(ModifiedFiles), Some(DeletedFiles)}
    ensures r.Some? ==> r.value == (if state == DELETE then a else b)
  {
    match state
    case SAMESAME => None
    case NEW => if IsDirectory(b.dwFileAttributes) then None else Some(b)
    case MODIFY => Some(b)
    case DELETE => if IsDirectory(a.dwFileAttributes) then None else Some(a)
  }

  /** The line written: the bare path for a directory, and for a file its size,
      its creation, last-write and last-access times and the path, separated by
      tabs. */
  function OutputLine(state: DiffState, basedir: Option<string>, a: FindData, b: FindData,
                      fmt: FileTime -> string): string
  {
    var full := FullFilename(state, basedir, a, b);
    match FileDataToUse(state, a, b)
    case None => full
    case Some(data) =>
      DecimalString(data.FileSize()) + "\t" + fmt(data.ftCreationTime) + "\t" + fmt(data.ftLastWriteTime)
      + "\t" + fmt(data.ftLastAccessTime) + "\t" + full
  }

  // ----------------------------------------------------------------- index

  /** `AddOrUpdate` of a base directory under a key: a new list for a new key,
      appended at the end of the existing list otherwise; no other key changes. */
  function IndexEntry(index: map<FindData, seq<Option<string>>>, key: FindData, basedir: Option<string>)
    : (r: map<FindData, seq<Option<string>>>)
    ensures r.Keys == index.Keys + {key}
    ensures key !in index ==> r[key] == [basedir]
    ensures key in index ==> r[key] == index[key] + [basedir]
    ensures forall k :: k in index && k != key ==> r[k] == index[k]
  {
    if key in index then index[key := index[key] + [basedir]] else index[key := [basedir]]
  }

  /** Every indexed file has at least one base directory. */
  ghost predicate IndexWellFormed(index: map<FindData, seq<Option<string>>>) {
    forall k :: k in index ==> |index[k]| >= 1
  }

  /** Indexing a base directory keeps every list non-empty and puts the
      directory at the end of the key's list: what the move detector's
      `Value[0]` relies on for an indexed file. */
  lemma IndexEntryKeepsWellFormed(index: map<FindData, seq<Option<string>>>, key: FindData, basedir: Option<string>)
    ensures IndexWellFormed(index) ==> IndexWellFormed(IndexEntry(index, key, basedir))
    ensures var r := IndexEntry(index, key, basedir); |r[key]| >= 1 && r[key][|r[key]| - 1] == basedir
  {
  }

  /** The file a classification indexes, if any: the new file for NEW, the
      deleted file for DELETE; directories and modified files are not indexed. */
  function IndexedKey(state: DiffState, a: FindData, b: FindData): (r: Option<FindData>)
    ensures r.Some? <==> SinkOf(state, a, b) in {Some(NewFiles), Some(DeletedFiles)}
    ensures r.Some? ==> r.value == (if state == NEW then b else a)
  {
    if state == NEW && !IsDirectory(b.dwFileAttributes) then Some(b)
    else if state == DELETE && !IsDirectory(a.dwFileAttributes) then Some(a)
    else None
  }

  /** `DiffProcessing`: the statistics, the writers and the two indexes. */
  class DiffProcessing {
    const stats: Stats
    const writers: DiffWriter
    const fmt: FileTime -> string
    var newFiles: map<FindData, seq<Option<string>>>
    var delFiles: map<FindData, seq<Option<string>>>

    /** Every indexed file has a base directory. */
    ghost predicate Valid()
      reads this
    {
      IndexWellFormed(newFiles) && IndexWellFormed(delFiles)
    }

    constructor (stats: Stats, writers: DiffWriter, fmt: FileTime -> string)
      ensures Valid()
      ensures this.stats == stats && this.writers == writers && this.fmt == fmt
      ensures newFiles == map[] && delFiles == map[]
    {
      this.stats := stats;
      this.writers := writers;
      this.fmt := fmt;
      newFiles := map[];
      delFiles := map[];
    }

    /** `DiffCallback`: SAMESAME changes nothing. Any other classification is
        counted, its line goes to the writer of its kind, and a new or deleted
        file is indexed with the base directory, both into `newFiles`, so
        `delFiles` is never written. */
    method DiffCallback(state: DiffState, basedir: Option<string>, a: FindData, b: FindData)
      requires Valid()
      modifies this, stats, writers
      ensures Valid()
      ensures stats.Snapshot() == Account(old(stats.Snapshot()), state, a, b)
      ensures newFiles == (match IndexedKey(state, a, b)
                           case None => old(newFiles)
                           case Some(key) => IndexEntry(old(newFiles), key, basedir))
      ensures delFiles == old(delFiles)
      ensures state == SAMESAME ==> forall s :: writers.Lines(s) == old(writers.Lines(s))
      ensures state != SAMESAME ==>
                var sink := SinkOf(state, a, b).value;
                && writers.Lines(sink) == old(writers.Lines(sink)) + [OutputLine(state, basedir, a, b, fmt)]
                && forall s :: s != sink ==> writers.Lines(s) == old(writers.Lines(s))
    {
      if state == SAMESAME {
        return;
      }
      stats.Record(state, a, b);
      var toWriteTo := SinkOf(state, a, b).value;
      var fileDataToUse := FileDataToUse(state, a, b);
      // `DicToUse` is `newFiles` for a new and for a deleted file, else `null`
      var dicToUse := IndexedKey(state, a, b).Some?;
      if dicToUse && fileDataToUse.Some? {
        IndexEntryKeepsWellFormed(newFiles, fileDataToUse.value, basedir);
        newFiles := IndexEntry(newFiles, fileDataToUse.value, basedir);
      }
      var fullFilename := FullFilename(state, basedir, a, b);
      if fileDataToUse.Some? {
        var data := fileDataToUse.value;
        writers.WriteLine(toWriteTo, DecimalString(data.FileSize()) + "\t" + fmt(data.ftCreationTime) + "\t"
                                     + fmt(data.ftLastWriteTime) + "\t" + fmt(data.ftLastAccessTime) + "\t" + fullFilename);
      } else {
        writers.WriteLine(toWriteTo, fullFilename);
      }
    }
  }

  /** A deleted file is indexed into the new-file index under the deleted entry,
      exactly like a new file: the two indexes cannot tell them apart. */
  lemma DeletedFilesIndexedAsNew(a: FindData, b: FindData)
    requires !IsDirectoryEntry(a)
    ensures IndexedKey(DELETE, a, b) == Some(a)
    ensures IndexedKey(NEW, b, a) == Some(a)
  {
  }
}
