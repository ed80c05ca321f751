/** `CmpTrees.CmpDirsParallel`: the tree walker. A task names a directory by its
    path relative to both roots and its depth; running a task compares the
    source and target directories at that path and queues a task for every
    sub-directory it decides to walk into. The thread pool is modelled as a
    single worker taking tasks from a FIFO queue, with one pair of per-thread
    path buffers; the directory enumeration is the oracle `enumerate`, from a
    full path to the entries found there. */
module CmpDirsParallel {
  import opened Wrappers
  import opened Misc
  import opened Win32
  import opened Delta
  import CmpDirs

  /** `ParallelCtx`: a task, the directory to compare as a path below both roots
      and its depth below them. */
  datatype ParallelCtx = ParallelCtx(dirToSearchSinceRootDir: string, depth: int)

  /** `EnumOptions`. */
  datatype EnumOptions = EnumOptions(maxDepth: int, followJunctions: bool, forceSortSource: bool, forceSortTarget: bool)

  /** A fresh `EnumOptions`: no depth limit, junctions not followed, neither
      side force-sorted. */
  const DefaultOptions := EnumOptions(-1, false, false, false)

  /** `FILE_ATTRIBUTE_REPARSE_POINT`. */
  const FILE_ATTRIBUTE_REPARSE_POINT: bv32 := 0x400

  /** One call of the diff handler: the state, the work item's relative path as the
      base directory, the source entry and the target entry. */
  datatype DiffCall = DiffCall(state: DiffState, basedir: string, src: FindData, trg: FindData)

  // ------------------------------------------------------- recursion policy

  /** `GetDirToEnum`: the directory a classification leads into, with its
      attributes, or none (`null` and 0). */
  function GetDirToEnum(state: DiffState, src: FindData, trg: FindData): (r: (Option<string>, bv32))
    ensures state == NEW && IsDirectoryEntry(src) ==> r == (Some(src.cFileName), src.dwFileAttributes)
    ensures state == DELETE && IsDirectoryEntry(trg) ==> r == (Some(trg.cFileName), trg.dwFileAttributes)
    ensures state == SAMESAME && IsDirectoryEntry(src) && IsDirectoryEntry(trg) ==>
              r == (Some(src.cFileName), src.dwFileAttributes)
    ensures r.0.Some? <==> || (state == NEW && IsDirectoryEntry(src))
                           || (state == DELETE && IsDirectoryEntry(trg))
                           || (state == SAMESAME && IsDirectoryEntry(src) && IsDirectoryEntry(trg))
    ensures r.0.None? ==> r.1 == 0
  {
    if state == NEW && IsDirectory(src.dwFileAttributes) then
      (Some(src.cFileName), src.dwFileAttributes)
    else if state == DELETE && IsDirectory(trg.dwFileAttributes) then
      (Some(trg.cFileName), trg.dwFileAttributes)
    else if state == SAMESAME && IsDirectory(src.dwFileAttributes) && IsDirectory(trg.dwFileAttributes) then
      (Some(src.cFileName), src.dwFileAttributes)
    else
      (None, 0)
  }

  /** `WalkIntoDir`: descend unless the depth limit (when there is one) would be
      exceeded, or the directory is a reparse point and junctions are not
      followed. */
  function WalkIntoDir(dwFileAttributes: bv32, followJunctions: bool, currDepth: int, maxDepth: int): (r: bool)
    ensures maxDepth > -1 && currDepth + 1 > maxDepth ==> !r
    ensures (maxDepth <= -1 || currDepth + 1 <= maxDepth) ==>
              (r <==> dwFileAttributes & FILE_ATTRIBUTE_REPARSE_POINT == 0 || followJunctions)
  {
    if maxDepth > -1 && currDepth + 1 > maxDepth then false
    else
      var enterDir := !(dwFileAttributes & FILE_ATTRIBUTE_REPARSE_POINT != 0 && !followJunctions);
      enterDir
  }

  /** MODIFY never leads into a directory: a directory pair only recurses when
      it is SAMESAME, and two directories always are. */
  lemma ModifiedNeverRecurses(src: FindData, trg: FindData)
    ensures GetDirToEnum(MODIFY, src, trg).0.None?
  {
  }

  /** With the default options there is no depth limit: a directory that is not a
      reparse point is always entered, and a reparse point never is. */
  lemma DefaultOptionsNoDepthLimit(attrs: bv32, currDepth: int)
    ensures WalkIntoDir(attrs, DefaultOptions.followJunctions, currDepth, DefaultOptions.maxDepth)
            <==> attrs & FILE_ATTRIBUTE_REPARSE_POINT == 0
  {
  }

  // ------------------------------------------------------------------ paths

  /** The separators `Path.Combine` recognises at the end of its first argument. */
  predicate IsSeparator(c: char) {
    c == '\\' || c == '/' || c == ':'
  }

  /** `Path.IsPathRooted` for a Windows path: a leading separator or a drive. */
  predicate IsRooted(path: string) {
    (|path| >= 1 && (path[0] == '\\' || path[0] == '/')) || (|path| >= 2 && path[1] == ':')
  }

  /** `Path.Combine(path1, path2)`. */
  function PathCombine(path1: string, path2: string): (r: string)
    ensures path2 == "" ==> r == path1
    ensures path1 == "" ==> r == path2
    ensures path1 != "" && path2 != "" && !IsRooted(path2) && !IsSeparator(path1[|path1| - 1]) ==>
              r == path1 + "\\" + path2
  {
    if path2 == "" then path1
    else if path1 == "" then path2
    else if IsRooted(path2) then path2
    else if IsSeparator(path1[|path1| - 1]) then path1 + path2
    else path1 + "\\" + path2
  }

  /** What `AppendDir` appends to a buffer: nothing for an empty relative path,
      otherwise a backslash and the path. */
  function Suffix(dirToAppend: string): (r: string)
    ensures dirToAppend == "" <==> r == ""
    ensures r != "" ==> r[0] == '\\' && r[1..] == dirToAppend
  {
    if dirToAppend == "" then "" else "\\" + dirToAppend
  }

  /** The full path a task compares below a root. */
  function FullPath(root: string, relativeDir: string): string {
    root + Suffix(relativeDir)
  }

  /** A `StringBuilder` holding a path. */
  class PathBuilder {
    var text: string

    constructor (s: string)
      ensures text == s
    {
      text := s;
    }

    /** `Append`. */
    method Append(s: string)
      modifies this
      ensures text == old(text) + s
    {
      text := text + s;
    }

    /** Setting `Length`: truncates, or pads with NUL characters. */
    method SetLength(n: nat)
      modifies this
      ensures n <= |old(text)| ==> text == old(text)[..n]
      ensures n > |old(text)| ==> text == old(text) + seq(n - |old(text)|, _ => '\0')
    {
      if n <= |text| {
        text := text[..n];
      } else {
        text := text + seq(n - |text|, _ => '\0');
      }
    }
  }

  /** `AppendDir`: append a backslash and the relative path, unless it is empty. */
  method AppendDir(dir: PathBuilder, dirToAppend: string)
    modifies dir
    ensures dir.text == old(dir.text) + Suffix(dirToAppend)
  {
    if dirToAppend != "" {
      dir.Append("\\");
      dir.Append(dirToAppend);
    }
  }

  /** `RootDirs`: one worker's pair of path buffers and the lengths of the two
      roots they start from. */
  class RootDirs {
    const source: PathBuilder
    const target: PathBuilder
    const initialLenSource: nat
    const initialLenTarget: nat

    constructor (sourceDir: string, targetDir: string)
      ensures source.text == sourceDir && target.text == targetDir
      ensures initialLenSource == |sourceDir| && initialLenTarget == |targetDir|
      ensures fresh(source) && fresh(target) && source != target
    {
      source := new PathBuilder(sourceDir);
      target := new PathBuilder(targetDir);
      initialLenSource := |sourceDir|;
      initialLenTarget := |targetDir|;
    }

    /** Between tasks both buffers hold just their roots. */
    predicate AtRoots()
      reads this, source, target
    {
      source != target && |source.text| == initialLenSource && |target.text| == initialLenTarget
    }
  }

  // ------------------------------------------------------------- the walk

  /** The child work item queued for one classification of a work item's comparison, if any:
      the directory's path combined onto the work item's, one level deeper. */
  function ChildTask(opts: EnumOptions, parent: ParallelCtx, e: Compared<FindData>): (r: Option<ParallelCtx>)
    ensures r.Some? ==> r.value.depth == parent.depth + 1
    ensures r.Some? ==> exists name :: GetDirToEnum(e.state, e.a, e.b).0 == Some(name) &&
                                       r.value.dirToSearchSinceRootDir == PathCombine(parent.dirToSearchSinceRootDir, name)
    ensures r.Some? <==> GetDirToEnum(e.state, e.a, e.b).0.Some? &&
                         WalkIntoDir(GetDirToEnum(e.state, e.a, e.b).1, opts.followJunctions, parent.depth, opts.maxDepth)
  {
    var (newDirToEnum, attrs) := GetDirToEnum(e.state, e.a, e.b);
    if newDirToEnum.Some? && WalkIntoDir(attrs, opts.followJunctions, parent.depth, opts.maxDepth) then
      Some(ParallelCtx(PathCombine(parent.dirToSearchSinceRootDir, newDirToEnum.value), parent.depth + 1))
    else None
  }

  /** The child work items a comparison's classifications queue, in order. */
  function ChildTasks(opts: EnumOptions, parent: ParallelCtx, events: seq<Compared<FindData>>): (r: seq<ParallelCtx>)
    ensures |r| <= |events|
    ensures forall t :: t in r ==> t.depth == parent.depth + 1
    decreases |events|
  {
    if events == [] then []
    else
      var init := ChildTasks(opts, parent, events[..|events| - 1]);
      match ChildTask(opts, parent, events[|events| - 1])
      case None => init
      case Some(t) => init + [t]
  }

  /** The diff handler calls of a comparison: every classification, SAMESAME
      included, with the work item's relative path as base directory. */
  function Forwarded(parent: ParallelCtx, events: seq<Compared<FindData>>): (r: seq<DiffCall>)
    ensures |r| == |events|
    ensures forall k :: 0 <= k < |r| ==>
              r[k] == DiffCall(events[k].state, parent.dirToSearchSinceRootDir, events[k].a, events[k].b)
  {
    seq(|events|, k requires 0 <= k < |events| =>
      DiffCall(events[k].state, parent.dirToSearchSinceRootDir, events[k].a, events[k].b))
  }

  /** One more classification adds its child task, if any, and its call. */
  lemma CallbackStep(opts: EnumOptions, parent: ParallelCtx, events: seq<Compared<FindData>>, k: nat)
    requires k < |events|
    ensures ChildTasks(opts, parent, events[..k + 1]) ==
              ChildTasks(opts, parent, events[..k]) +
              (match ChildTask(opts, parent, events[k]) case None => [] case Some(t) => [t])
    ensures Forwarded(parent, events[..k + 1]) ==
              Forwarded(parent, events[..k]) + [DiffCall(events[k].state, parent.dirToSearchSinceRootDir, events[k].a, events[k].b)]
  {
    assert events[..k + 1][..k] == events[..k];
  }

  /** Sequence concatenation is associative. */
  lemma MoveAppend<X>(a: seq<X>, b: seq<X>, c: seq<X>)
    ensures a + b + c == a + (b + c)
  {
  }

  /** Every queued task respects the depth limit, when there is one. */
  ghost predicate WithinDepth(opts: EnumOptions, queue: seq<ParallelCtx>) {
    opts.maxDepth > -1 ==> forall k :: 0 <= k < |queue| ==> 0 <= queue[k].depth <= opts.maxDepth
  }

  /** A task within the limit queues only tasks within the limit. */
  lemma {:induction false} ChildTasksWithinDepth(opts: EnumOptions, parent: ParallelCtx, events: seq<Compared<FindData>>)
    requires opts.maxDepth > -1 ==> 0 <= parent.depth
    ensures WithinDepth(opts, ChildTasks(opts, parent, events))
    decreases |events|
  {
    if events != [] {
      ChildTasksWithinDepth(opts, parent, events[..|events| - 1]);
    }
  }

  /** The walker: its options, the comparer for names, the enumeration oracle,
      one worker's buffers, the work queue, and what was handed to the diff
      handler and written to the console error stream. */
  class Walker {
    const opts: EnumOptions
    const nameCmp: (string, string) -> int
    const enumerate: string -> seq<FindData>
    const rootDir: RootDirs
    var queue: seq<ParallelCtx>
    var diffCalls: seq<DiffCall>
    var errorOutput: seq<string>

    /** The buffers are at their roots and the queue is within the depth limit. */
    ghost predicate Valid()
      reads this, rootDir, rootDir.source, rootDir.target
    {
      rootDir.AtRoots() && WithinDepth(opts, queue)
    }

    /** `new CmpDirsParallel(sourceDir, targetDir, opts, ...)`: nothing queued
        yet. */
    constructor (sourceDir: string, targetDir: string, opts: EnumOptions, nameCmp: (string, string) -> int,
                 enumerate: string -> seq<FindData>)
      ensures Valid()
      ensures this.opts == opts && this.nameCmp == nameCmp && this.enumerate == enumerate
      ensures rootDir.source.text == sourceDir && rootDir.target.text == targetDir
      ensures queue == [] && diffCalls == [] && errorOutput == []
      ensures fresh(rootDir) && fresh(rootDir.source) && fresh(rootDir.target)
    {
      this.opts := opts;
      this.nameCmp := nameCmp;
      this.enumerate := enumerate;
      rootDir := new RootDirs(sourceDir, targetDir);
      queue := [];
      diffCalls := [];
      errorOutput := [];
    }

    /** `Start`: queue the root task, empty path at depth 0. */
    method Start()
      requires Valid()
      modifies this
      ensures Valid()
      ensures queue == old(queue) + [ParallelCtx("", 0)]
      ensures diffCalls == old(diffCalls) && errorOutput == old(errorOutput)
    {
      queue := queue + [ParallelCtx("", 0)];
    }

    /** The callback of `CompareTwoDirectories` for one classification: queue
        the directory it leads into, if the walk goes there, then forward it. */
    method OnCompared(relativeDir: ParallelCtx, e: Compared<FindData>)
      modifies this
      ensures queue == old(queue) + (match ChildTask(opts, relativeDir, e) case None => [] case Some(t) => [t])
      ensures diffCalls == old(diffCalls) + [DiffCall(e.state, relativeDir.dirToSearchSinceRootDir, e.a, e.b)]
      ensures errorOutput == old(errorOutput)
    {
      var (newDirToEnum, attrs) := GetDirToEnum(e.state, e.a, e.b);
      if newDirToEnum.Some? && WalkIntoDir(attrs, opts.followJunctions, relativeDir.depth, opts.maxDepth) {
        queue := queue + [ParallelCtx(PathCombine(relativeDir.dirToSearchSinceRootDir, newDirToEnum.value),
                                      relativeDir.depth + 1)];
      }
      diffCalls := diffCalls + [DiffCall(e.state, relativeDir.dirToSearchSinceRootDir, e.a, e.b)];
    }

    /** The callback applied to each classification of a comparison in turn. */
    method OnComparedAll(relativeDir: ParallelCtx, events: seq<Compared<FindData>>)
      modifies this
      ensures queue == old(queue) + ChildTasks(opts, relativeDir, events)
      ensures diffCalls == old(diffCalls) + Forwarded(relativeDir, events)
      ensures errorOutput == old(errorOutput)
    {
      var k := 0;
      while k < |events|
        invariant 0 <= k <= |events|
        invariant queue == old(queue) + ChildTasks(opts, relativeDir, events[..k])
        invariant diffCalls == old(diffCalls) + Forwarded(relativeDir, events[..k])
        invariant errorOutput == old(errorOutput)
      {
        OnCompared(relativeDir, events[k]);
        CallbackStep(opts, relativeDir, events, k);
        MoveAppend(old(queue), ChildTasks(opts, relativeDir, events[..k]),
                   match ChildTask(opts, relativeDir, events[k]) case None => [] case Some(t) => [t]);
        MoveAppend(old(diffCalls), Forwarded(relativeDir, events[..k]),
                   [DiffCall(events[k].state, relativeDir.dirToSearchSinceRootDir, events[k].a, events[k].b)]);
        k := k + 1;
      }
      assert events[..k] == events;
    }

    /** `CompareTwoDirectories`: extend both buffers by the work item's path, compare
        the two directories found there, and set the buffers back to their
        roots. The queue grows by the work item's child tasks, every classification
        goes to the diff handler, and a sort-order error goes to the error
        output. */
    method CompareTwoDirectories(relativeDir: ParallelCtx)
      requires Valid()
      requires opts.maxDepth > -1 ==> 0 <= relativeDir.depth
      modifies this, rootDir.source, rootDir.target
      ensures Valid()
      ensures rootDir.source.text == old(rootDir.source.text) && rootDir.target.text == old(rootDir.target.text)
      ensures var t := CmpDirs.Comparison(
                         enumerate(FullPath(old(rootDir.source.text), relativeDir.dirToSearchSinceRootDir)),
                         enumerate(FullPath(old(rootDir.target.text), relativeDir.dirToSearchSinceRootDir)),
                         nameCmp, opts.forceSortSource, opts.forceSortTarget);
              && queue == old(queue) + ChildTasks(opts, relativeDir, CmpDirs.SourceFirst(t.steps))
              && diffCalls == old(diffCalls) + Forwarded(relativeDir, CmpDirs.SourceFirst(t.steps))
              && errorOutput == old(errorOutput) + CmpDirs.ErrorLines(t)
    {
      AppendDir(rootDir.source, relativeDir.dirToSearchSinceRootDir);
      AppendDir(rootDir.target, relativeDir.dirToSearchSinceRootDir);

      var events, errorLines := CmpDirs.Run(enumerate(rootDir.source.text), enumerate(rootDir.target.text), nameCmp,
                                            opts.forceSortSource, opts.forceSortTarget);
      OnComparedAll(relativeDir, events);
      errorOutput := errorOutput + errorLines;
      ChildTasksWithinDepth(opts, relativeDir, events);

      rootDir.source.SetLength(rootDir.initialLenSource);
      rootDir.target.SetLength(rootDir.initialLenTarget);
    }

    /** One step of the worker: take the oldest task, if any, and run it. */
    method ProcessNext() returns (ran: Option<ParallelCtx>)
      requires Valid()
      modifies this, rootDir.source, rootDir.target
      ensures Valid()
      ensures old(queue) == [] ==> ran == None && queue == [] && unchanged(this)
      ensures old(queue) != [] ==> ran == Some(old(queue)[0])
      ensures old(queue) != [] ==>
                var task := old(queue)[0];
                var t := CmpDirs.Comparison(
                           enumerate(FullPath(old(rootDir.source.text), task.dirToSearchSinceRootDir)),
                           enumerate(FullPath(old(rootDir.target.text), task.dirToSearchSinceRootDir)),
                           nameCmp, opts.forceSortSource, opts.forceSortTarget);
                && queue == old(queue)[1..] + ChildTasks(opts, task, CmpDirs.SourceFirst(t.steps))
                && diffCalls == old(diffCalls) + Forwarded(task, CmpDirs.SourceFirst(t.steps))
                && errorOutput == old(errorOutput) + CmpDirs.ErrorLines(t)
    {
      if queue == [] {
        return None;
      }
      var task := queue[0];
      queue := queue[1..];
      CompareTwoDirectories(task);
      ran := Some(task);
    }
  }

  /** A child task's full path is its parent's full path, a backslash and the
      directory's name (for a name that is neither empty nor rooted, below a
      relative path that does not end in a separator). */
  lemma ChildPathExtendsParent(root: string, parent: string, name: string)
    requires name != "" && !IsRooted(name)
    requires parent != "" ==> !IsSeparator(parent[|parent| - 1])
    ensures FullPath(root, PathCombine(parent, name)) == FullPath(root, parent) + "\\" + name
  {
  }

  /** The root task compares the two roots themselves. */
  lemma RootTaskComparesRoots(root: string)
    ensures FullPath(root, ParallelCtx("", 0).dirToSearchSinceRootDir) == root
  {
  }
}
