/** The sorted-merge differ of `Spi.Data.DiffSortedLists`. Two sequences expected
    ordered by key are walked in lock-step; every loop iteration classifies the
    current pair as NEW (only in B), DELETE (only in A), MODIFY (same key, different
    attributes) or SAMESAME, hands it to the `OnCompared` callback and counts the
    non-SAMESAME ones.

    The enumerators become indexes into `seq`s; the callback becomes the sequence of
    calls the merge makes; the `ApplicationException` of the sort-order check becomes
    a `Failure` result (the calls made before it stay made). `RunFrom` is the loop
    written as a recursive function; `DiffSortedEnumerablesInternal` is the loop
    itself, proved to make exactly the calls `RunFrom` describes. */
module Delta {
  import opened Wrappers
  import opened Misc

  datatype DiffState = NEW | MODIFY | DELETE | SAMESAME

  /** One call of `OnCompared(state, a, b)`. */
  datatype Compared<T> = Compared(state: DiffState, a: T, b: T)

  /** The `ApplicationException` thrown by `CheckSortOrderOfItems`: the list ('A' or
      'B') and the two keys found out of order. */
  datatype SortOrderError<K> = SortOrderError(whichList: char, lastKey: K, currentKey: K)

  /** The exception's `Message`, with `keyToString` for `K.ToString()`. */
  function SortOrderMessage<K>(e: SortOrderError<K>, keyToString: K -> string): string {
    "Sortorder not given in list [" + [e.whichList] + "]. Last item is greater than current item."
    + "\nLast    [" + keyToString(e.lastKey) + "]"
    + "\n > Curr [" + keyToString(e.currentKey) + "]"
  }

  /** What one merge works with: key and attribute selectors and comparers (a
      `null` attribute selector or comparer is `None`), `default(T)`, which the
      one-sided calls hand over for the missing item, and `default(K)`, which the
      loop's key variables start from. */
  datatype Differ<!T, !K, !A> = Differ(
    keySelector: T -> K,
    keyComparer: (K, K) -> int,
    attributeSelector: Option<T -> A>,
    attributeComparer: Option<(A, A) -> int>,
    defaultItem: T,
    defaultKey: K)

  // -------------------------------------------------------- one iteration

  /** `ItemCompareFunc`: the classification of two live items from the result of
      comparing their keys. */
  function ItemCompareFunc<T, A>(keyCmpResult: int, itemA: T, itemB: T,
                                 attributeSelector: Option<T -> A>,
                                 attributeComparer: Option<(A, A) -> int>): (r: DiffState)
    ensures r == DELETE <==> keyCmpResult < 0
    ensures r == NEW <==> keyCmpResult > 0
    ensures r == SAMESAME <==>
              keyCmpResult == 0 &&
              (attributeSelector.None? || attributeComparer.None? ||
               attributeComparer.value(attributeSelector.value(itemA), attributeSelector.value(itemB)) == 0)
    ensures r == MODIFY <==>
              keyCmpResult == 0 && attributeSelector.Some? && attributeComparer.Some? &&
              attributeComparer.value(attributeSelector.value(itemA), attributeSelector.value(itemB)) != 0
  {
    if keyCmpResult == 0 then
      if attributeSelector.None? || attributeComparer.None? then SAMESAME
      else if attributeComparer.value(attributeSelector.value(itemA), attributeSelector.value(itemB)) == 0 then SAMESAME
      else MODIFY
    else if keyCmpResult < 0 then DELETE
    else NEW
  }

  /** `CheckSortOrderOfItems`: the error it throws when the previous key compares
      greater than the current one. */
  function CheckSortOrderOfItems<K>(keyComparer: (K, K) -> int, lastKey: K, currentKey: K, whichList: char): (r: Option<SortOrderError<K>>)
    ensures r.Some? <==> keyComparer(lastKey, currentKey) > 0
    ensures r.Some? ==> r.value == SortOrderError(whichList, lastKey, currentKey)
  {
    if keyComparer(lastKey, currentKey) > 0 then Some(SortOrderError(whichList, lastKey, currentKey)) else None
  }

  /** The key the loop holds for a side whose cursor is at `i`: the current item's
      key; once the side is drained the variable is no longer assigned, so it keeps
      the last item's key; for a side that was empty from the start, `default(K)`. */
  function KeyAt<T, K, A>(d: Differ<T, K, A>, s: seq<T>, i: nat): K {
    if i < |s| then d.keySelector(s[i])
    else if |s| > 0 then d.keySelector(s[|s| - 1])
    else d.defaultKey
  }

  /** The call the iteration with cursors `i`, `j` makes. */
  function StepAt<T, K, A>(d: Differ<T, K, A>, listA: seq<T>, listB: seq<T>, i: nat, j: nat): Compared<T>
    requires i < |listA| || j < |listB|
  {
    if i < |listA| && j < |listB| then
      var state := ItemCompareFunc(d.keyComparer(KeyAt(d, listA, i), KeyAt(d, listB, j)),
                                   listA[i], listB[j], d.attributeSelector, d.attributeComparer);
      Compared(state, listA[i], listB[j])
    else if i < |listA| then Compared(DELETE, listA[i], d.defaultItem)
    else Compared(NEW, d.defaultItem, listB[j])
  }

  /** The cursors after `MoveIterators`. */
  function Advance(state: DiffState, i: nat, j: nat): (nat, nat) {
    match state
    case SAMESAME => (i + 1, j + 1)
    case MODIFY => (i + 1, j + 1)
    case NEW => (i, j + 1)
    case DELETE => (i + 1, j)
  }

  /** `MoveIterators`: advances the A cursor for DELETE, the B cursor for NEW and
      both for SAMESAME and MODIFY, and reports which sides still have items. */
  method MoveIterators<T>(listA: seq<T>, listB: seq<T>, i: nat, j: nat, state: DiffState)
    returns (i': nat, j': nat, hasMoreA: bool, hasMoreB: bool)
    requires i <= |listA| && j <= |listB|
    requires state != NEW ==> i < |listA|
    requires state != DELETE ==> j < |listB|
    ensures i' == (if state == NEW then i else i + 1)
    ensures j' == (if state == DELETE then j else j + 1)
    ensures (i', j') == Advance(state, i, j)
    ensures i' <= |listA| && j' <= |listB|
    ensures hasMoreA == (i' < |listA|) && hasMoreB == (j' < |listB|)
  {
    i', j' := i, j;
    match state {
      case SAMESAME =>
        i', j' := i + 1, j + 1;
      case MODIFY =>
        i', j' := i + 1, j + 1;
      case NEW =>
        j' := j + 1;
      case DELETE =>
        i' := i + 1;
    }
    hasMoreA := i' < |listA|;
    hasMoreB := j' < |listB|;
  }

  /** The keys `LastKeyA`/`LastKeyB` are set to in the iteration at `i`, `j`. */
  function LastKeys<T, K, A>(d: Differ<T, K, A>, listA: seq<T>, listB: seq<T>, i: nat, j: nat): (K, K) {
    if i < |listA| && j < |listB| then (KeyAt(d, listA, i), KeyAt(d, listB, j))
    else if i < |listA| then (KeyAt(d, listA, i), d.defaultKey)
    else (d.defaultKey, KeyAt(d, listB, j))
  }

  /** The sort-order check at the end of the iteration that moved the cursors from
      `i`, `j` to `i'`, `j'`: list A first, then list B. */
  function SortCheck<T, K, A>(d: Differ<T, K, A>, listA: seq<T>, listB: seq<T>, i: nat, j: nat, i': nat, j': nat): Option<SortOrderError<K>> {
    var lastKeys := LastKeys(d, listA, listB, i, j);
    var errA := CheckSortOrderOfItems(d.keyComparer, lastKeys.0, KeyAt(d, listA, i'), 'A');
    if errA.Some? then errA
    else CheckSortOrderOfItems(d.keyComparer, lastKeys.1, KeyAt(d, listB, j'), 'B')
  }

  // ---------------------------------------------------- the whole loop

  /** The iterations a merge runs, in order (SAMESAME ones included, whether or not
      they are reported), and the sort-order error that ended it, if any. */
  datatype Trace<T, K> = Trace(steps: seq<Compared<T>>, failure: Option<SortOrderError<K>>)

  /** The loop from cursors `i`, `j` on. */
  function RunFrom<T, K, A>(d: Differ<T, K, A>, listA: seq<T>, listB: seq<T>, checkSortOrder: bool, i: nat, j: nat): Trace<T, K>
    requires i <= |listA| && j <= |listB|
    decreases |listA| - i + |listB| - j
  {
    if i == |listA| && j == |listB| then Trace([], None)
    else
      var step := StepAt(d, listA, listB, i, j);
      var (i', j') := Advance(step.state, i, j);
      var failure := if checkSortOrder then SortCheck(d, listA, listB, i, j, i', j') else None;
      if failure.Some? then Trace([step], failure)
      else
        var rest := RunFrom(d, listA, listB, checkSortOrder, i', j');
        Trace([step] + rest.steps, rest.failure)
  }

  /** One unrolling of `RunFrom`. */
  lemma RunFromStep<T, K, A>(d: Differ<T, K, A>, listA: seq<T>, listB: seq<T>, checkSortOrder: bool, i: nat, j: nat)
    requires i <= |listA| && j <= |listB| && (i < |listA| || j < |listB|)
    ensures var step := StepAt(d, listA, listB, i, j);
            var (i', j') := Advance(step.state, i, j);
            var failure := if checkSortOrder then SortCheck(d, listA, listB, i, j, i', j') else None;
            && i' <= |listA| && j' <= |listB|
            && RunFrom(d, listA, listB, checkSortOrder, i, j) ==
               if failure.Some? then Trace([step], failure)
               else Trace([step] + RunFrom(d, listA, listB, checkSortOrder, i', j').steps,
                          RunFrom(d, listA, listB, checkSortOrder, i', j').failure)
  {
  }

  /** The whole merge of `listA` against `listB`. */
  function Merge<T, K, A>(d: Differ<T, K, A>, listA: seq<T>, listB: seq<T>, checkSortOrder: bool): Trace<T, K> {
    RunFrom(d, listA, listB, checkSortOrder, 0, 0)
  }

  /** The iterations that reach `OnCompared`: all but SAMESAME unless it is reported. */
  function Reported<T>(steps: seq<Compared<T>>, reportSameSame: bool): seq<Compared<T>> {
    if steps == [] then []
    else (if steps[0].state != SAMESAME || reportSameSame then [steps[0]] else [])
         + Reported(steps[1..], reportSameSame)
  }

  /** The number of non-SAMESAME iterations. */
  function CountDifferences<T>(steps: seq<Compared<T>>): nat {
    if steps == [] then 0
    else (if steps[0].state != SAMESAME then 1 else 0) + CountDifferences(steps[1..])
  }

  /** What the call returns: the difference count as a `uint`, or the exception. */
  function Outcome<T, K>(t: Trace<T, K>): Result<uint32, SortOrderError<K>> {
    if t.failure.Some? then Failure(t.failure.value)
    else Success(CountDifferences(t.steps) % TWO32)
  }

  /** Incrementing a `uint` counter tracks the exact count modulo 2^32. */
  lemma IncrementModulo(n: nat, c: int)
    requires c == n % TWO32
    ensures (c + 1) % TWO32 == (n + 1) % TWO32
  {
  }

  lemma {:induction false} ReportedAppend<T>(s: seq<Compared<T>>, t: seq<Compared<T>>, reportSameSame: bool)
    ensures Reported(s + t, reportSameSame) == Reported(s, reportSameSame) + Reported(t, reportSameSame)
  {
    if s != [] {
      assert (s + t)[1..] == s[1..] + t;
      ReportedAppend(s[1..], t, reportSameSame);
    } else {
      assert s + t == t;
    }
  }

  lemma {:induction false} CountDifferencesAppend<T>(s: seq<Compared<T>>, t: seq<Compared<T>>)
    ensures CountDifferences(s + t) == CountDifferences(s) + CountDifferences(t)
  {
    if s != [] {
      assert (s + t)[1..] == s[1..] + t;
      CountDifferencesAppend(s[1..], t);
    } else {
      assert s + t == t;
    }
  }

  /** The first part of a loop iteration: classify the current pair (a side that
      is drained gives NEW or DELETE against `default(T)`), make the `OnCompared`
      call unless it is an unreported SAMESAME, and set `LastKeyA`/`LastKeyB`. */
  method CompareCurrent<T, K, A>(listA: seq<T>, listB: seq<T>, d: Differ<T, K, A>, i: nat, j: nat,
                                 keyA: K, keyB: K, reportSameSame: bool, calls: seq<Compared<T>>)
    returns (deltaState: DiffState, calls': seq<Compared<T>>, lastKeyA: K, lastKeyB: K)
    requires i <= |listA| && j <= |listB| && (i < |listA| || j < |listB|)
    requires keyA == KeyAt(d, listA, i) && keyB == KeyAt(d, listB, j)
    ensures deltaState == StepAt(d, listA, listB, i, j).state
    ensures calls' == calls + Reported([StepAt(d, listA, listB, i, j)], reportSameSame)
    ensures (lastKeyA, lastKeyB) == LastKeys(d, listA, listB, i, j)
  {
    deltaState := SAMESAME;
    calls' := calls;
    lastKeyA, lastKeyB := d.defaultKey, d.defaultKey;
    var hasMoreA, hasMoreB := i < |listA|, j < |listB|;
    if hasMoreA && hasMoreB {
      deltaState := ItemCompareFunc(d.keyComparer(keyA, keyB), listA[i], listB[j], d.attributeSelector, d.attributeComparer);
      if deltaState != SAMESAME || reportSameSame {
        calls' := calls + [Compared(deltaState, listA[i], listB[j])];
      }
      lastKeyA, lastKeyB := keyA, keyB;
    } else if hasMoreA && !hasMoreB {
      deltaState := DELETE;
      calls' := calls + [Compared(deltaState, listA[i], d.defaultItem)];
      lastKeyA, lastKeyB := keyA, d.defaultKey;
    } else if !hasMoreA && hasMoreB {
      deltaState := NEW;
      calls' := calls + [Compared(deltaState, d.defaultItem, listB[j])];
      lastKeyA, lastKeyB := d.defaultKey, keyB;
    }
  }

  /** Splitting off the first step of a run: what it adds to the calls made and
      to the difference count. */
  lemma ReportedCountCons<T>(step: Compared<T>, steps: seq<Compared<T>>, reportSameSame: bool)
    ensures Reported([step] + steps, reportSameSame) == Reported([step], reportSameSame) + Reported(steps, reportSameSame)
    ensures CountDifferences([step] + steps) == CountDifferences([step]) + CountDifferences(steps)
    ensures CountDifferences([step]) == if step.state != SAMESAME then 1 else 0
  {
    ReportedAppend([step], steps, reportSameSame);
    CountDifferencesAppend([step], steps);
  }

  /** The second part of a loop iteration: `MoveIterators`, reading the keys of
      the new current items (a drained side keeps its old key), and, when asked
      for, the sort-order check of list A and then of list B; `err` is the
      exception of the first check that fails. */
  method AdvanceAndCheck<T, K, A>(listA: seq<T>, listB: seq<T>, d: Differ<T, K, A>, i: nat, j: nat,
                                  deltaState: DiffState, keyA: K, keyB: K, lastKeyA: K, lastKeyB: K,
                                  checkSortOrder: bool)
    returns (i': nat, j': nat, hasMoreA: bool, hasMoreB: bool, keyA': K, keyB': K, err: Option<SortOrderError<K>>)
    requires i <= |listA| && j <= |listB| && (i < |listA| || j < |listB|)
    requires deltaState == StepAt(d, listA, listB, i, j).state
    requires keyA == KeyAt(d, listA, i) && keyB == KeyAt(d, listB, j)
    ensures (i', j') == Advance(deltaState, i, j)
    ensures i' <= |listA| && j' <= |listB| && i + j < i' + j'
    ensures hasMoreA == (i' < |listA|) && hasMoreB == (j' < |listB|)
    ensures keyA' == KeyAt(d, listA, i') && keyB' == KeyAt(d, listB, j')
    ensures !checkSortOrder ==> err.None?
    ensures checkSortOrder ==>
              var errA := CheckSortOrderOfItems(d.keyComparer, lastKeyA, keyA', 'A');
              err == if errA.Some? then errA else CheckSortOrderOfItems(d.keyComparer, lastKeyB, keyB', 'B')
  {
    i', j', hasMoreA, hasMoreB := MoveIterators(listA, listB, i, j, deltaState);
    keyA', keyB' := keyA, keyB;
    if hasMoreA {
      keyA' := d.keySelector(listA[i']);
    }
    if hasMoreB {
      keyB' := d.keySelector(listB[j']);
    }
    err := None;
    if checkSortOrder {
      err := CheckSortOrderOfItems(d.keyComparer, lastKeyA, keyA', 'A');
      if err.None? {
        err := CheckSortOrderOfItems(d.keyComparer, lastKeyB, keyB', 'B');
      }
    }
  }

  /** Moving the first part `x` of the remainder of `whole` over to its prefix. */
  lemma MoveToPrefix<X>(whole: seq<X>, prefix: seq<X>, x: seq<X>, rest: seq<X>, next: seq<X>)
    requires whole == prefix + rest && rest == x + next
    ensures whole == (prefix + x) + next
  {
  }

  /** The continuation of the loop after one iteration, from the values the loop
      holds once the cursors have moved: the iteration's step, then either the
      exception of the sort-order check or the rest of the loop. */
  lemma IterationTrace<T, K, A>(d: Differ<T, K, A>, listA: seq<T>, listB: seq<T>, checkSortOrder: bool,
                                i: nat, j: nat, i': nat, j': nat, lastKeyA: K, lastKeyB: K, keyA: K, keyB: K,
                                err: Option<SortOrderError<K>>)
    requires i <= |listA| && j <= |listB| && (i < |listA| || j < |listB|)
    requires (i', j') == Advance(StepAt(d, listA, listB, i, j).state, i, j)
    requires (lastKeyA, lastKeyB) == LastKeys(d, listA, listB, i, j)
    requires keyA == KeyAt(d, listA, i') && keyB == KeyAt(d, listB, j')
    requires !checkSortOrder ==> err.None?
    requires checkSortOrder ==>
               var errA := CheckSortOrderOfItems(d.keyComparer, lastKeyA, keyA, 'A');
               err == if errA.Some? then errA else CheckSortOrderOfItems(d.keyComparer, lastKeyB, keyB, 'B')
    ensures i' <= |listA| && j' <= |listB|
    ensures err.Some? ==> RunFrom(d, listA, listB, checkSortOrder, i, j) == Trace([StepAt(d, listA, listB, i, j)], err)
    ensures err.None? ==>
              RunFrom(d, listA, listB, checkSortOrder, i, j) ==
              Trace([StepAt(d, listA, listB, i, j)] + RunFrom(d, listA, listB, checkSortOrder, i', j').steps,
                    RunFrom(d, listA, listB, checkSortOrder, i', j').failure)
  {
    RunFromStep(d, listA, listB, checkSortOrder, i, j);
  }

  /** The loop invariant of `DiffSortedEnumerablesInternal` carried across one
      iteration: what the iteration at `i`, `j` adds to the calls made and to the
      count, and how the rest of the merge continues from the advanced cursors
      (or ends with the exception). */
  lemma LoopStep<T, K, A>(d: Differ<T, K, A>, listA: seq<T>, listB: seq<T>, checkSortOrder: bool, reportSameSame: bool,
                          whole: Trace<T, K>, i: nat, j: nat, calls: seq<Compared<T>>, count: nat,
                          i': nat, j': nat, calls': seq<Compared<T>>, lastKeyA: K, lastKeyB: K, keyA: K, keyB: K,
                          err: Option<SortOrderError<K>>)
    requires i <= |listA| && j <= |listB| && (i < |listA| || j < |listB|)
    requires whole.failure == RunFrom(d, listA, listB, checkSortOrder, i, j).failure
    requires Reported(whole.steps, reportSameSame) == calls + Reported(RunFrom(d, listA, listB, checkSortOrder, i, j).steps, reportSameSame)
    requires CountDifferences(whole.steps) == count + CountDifferences(RunFrom(d, listA, listB, checkSortOrder, i, j).steps)
    requires calls' == calls + Reported([StepAt(d, listA, listB, i, j)], reportSameSame)
    requires (i', j') == Advance(StepAt(d, listA, listB, i, j).state, i, j)
    requires (lastKeyA, lastKeyB) == LastKeys(d, listA, listB, i, j)
    requires keyA == KeyAt(d, listA, i') && keyB == KeyAt(d, listB, j')
    requires !checkSortOrder ==> err.None?
    requires checkSortOrder ==>
               var errA := CheckSortOrderOfItems(d.keyComparer, lastKeyA, keyA, 'A');
               err == if errA.Some? then errA else CheckSortOrderOfItems(d.keyComparer, lastKeyB, keyB, 'B')
    ensures i' <= |listA| && j' <= |listB|
    ensures err.Some? ==> whole.failure == err && Reported(whole.steps, reportSameSame) == calls'
    ensures err.Some? ==> CountDifferences(whole.steps) == count + (if StepAt(d, listA, listB, i, j).state != SAMESAME then 1 else 0)
    ensures err.None? ==> whole.failure == RunFrom(d, listA, listB, checkSortOrder, i', j').failure
    ensures err.None? ==> Reported(whole.steps, reportSameSame) == calls' + Reported(RunFrom(d, listA, listB, checkSortOrder, i', j').steps, reportSameSame)
    ensures err.None? ==> CountDifferences(whole.steps) ==
                            count + (if StepAt(d, listA, listB, i, j).state != SAMESAME then 1 else 0)
                            + CountDifferences(RunFrom(d, listA, listB, checkSortOrder, i', j').steps)
  {
    var step := StepAt(d, listA, listB, i, j);
    IterationTrace(d, listA, listB, checkSortOrder, i, j, i', j', lastKeyA, lastKeyB, keyA, keyB, err);
    var next := if err.Some? then [] else RunFrom(d, listA, listB, checkSortOrder, i', j').steps;
    ReportedCountCons(step, next, reportSameSame);
    MoveToPrefix(Reported(whole.steps, reportSameSame), calls, Reported([step], reportSameSame),
                 Reported([step] + next, reportSameSame), Reported(next, reportSameSame));
    if err.Some? {
      assert [step] + next == [step];
    }
  }

  /** What the loop returns once both lists are drained. */
  lemma LoopOutcome<T, K, A>(d: Differ<T, K, A>, listA: seq<T>, listB: seq<T>, checkSortOrder: bool,
                             whole: Trace<T, K>, i: nat, j: nat, count: nat, countDifferences: uint32)
    requires i == |listA| && j == |listB|
    requires whole.failure == RunFrom(d, listA, listB, checkSortOrder, i, j).failure
    requires CountDifferences(whole.steps) == count + CountDifferences(RunFrom(d, listA, listB, checkSortOrder, i, j).steps)
    requires countDifferences == count % TWO32
    ensures Outcome(whole) == Success(countDifferences)
  {
  }

  /** `_internal_DiffSortedEnumerables`: the merge loop. It makes exactly the
      `OnCompared` calls of `Merge`'s iterations that are reported, and returns the
      number of differences modulo 2^32 or the sort-order exception (list A is
      checked first; the first failing check throws). */
  method DiffSortedEnumerablesInternal<T, K, A>(listA: seq<T>, listB: seq<T>, d: Differ<T, K, A>,
                                                 checkSortOrder: bool, reportSameSame: bool)
    returns (calls: seq<Compared<T>>, result: Result<uint32, SortOrderError<K>>)
    ensures calls == Reported(Merge(d, listA, listB, checkSortOrder).steps, reportSameSame)
    ensures result == Outcome(Merge(d, listA, listB, checkSortOrder))
  {
    var i: nat, j: nat := 0, 0;
    var hasMoreA, hasMoreB := |listA| > 0, |listB| > 0;
    var countDifferences: uint32 := 0;
    var lastKeyA, lastKeyB := d.defaultKey, d.defaultKey;
    var keyA := if hasMoreA then d.keySelector(listA[0]) else d.defaultKey;
    var keyB := if hasMoreB then d.keySelector(listB[0]) else d.defaultKey;
    calls := [];
    ghost var whole := Merge(d, listA, listB, checkSortOrder);
    ghost var count: nat := 0;

    while hasMoreA || hasMoreB
      invariant i <= |listA| && j <= |listB|
      invariant hasMoreA == (i < |listA|) && hasMoreB == (j < |listB|)
      invariant keyA == KeyAt(d, listA, i) && keyB == KeyAt(d, listB, j)
      invariant whole.failure == RunFrom(d, listA, listB, checkSortOrder, i, j).failure
      invariant Reported(whole.steps, reportSameSame) == calls + Reported(RunFrom(d, listA, listB, checkSortOrder, i, j).steps, reportSameSame)
      invariant CountDifferences(whole.steps) == count + CountDifferences(RunFrom(d, listA, listB, checkSortOrder, i, j).steps)
      invariant countDifferences as int == count % TWO32
      decreases |listA| - i + |listB| - j
    {
      ghost var step := StepAt(d, listA, listB, i, j);
      ghost var i0, j0, calls0 := i, j, calls;
      var deltaState;
      deltaState, calls, lastKeyA, lastKeyB := CompareCurrent(listA, listB, d, i, j, keyA, keyB, reportSameSame, calls);
      if deltaState != SAMESAME {
        IncrementModulo(count, countDifferences as int);
        countDifferences := (countDifferences + 1) % TWO32;
      }
      var err;
      i, j, hasMoreA, hasMoreB, keyA, keyB, err :=
        AdvanceAndCheck(listA, listB, d, i, j, deltaState, keyA, keyB, lastKeyA, lastKeyB, checkSortOrder);
      LoopStep(d, listA, listB, checkSortOrder, reportSameSame, whole, i0, j0, calls0, count,
               i, j, calls, lastKeyA, lastKeyB, keyA, keyB, err);
      count := count + (if deltaState != SAMESAME then 1 else 0);
      if err.Some? {
        result := Failure(err.value);
        return;
      }
    }
    LoopOutcome(d, listA, listB, checkSortOrder, whole, i, j, count, countDifferences);
    result := Success(countDifferences);
  }

  // ---------------------------------------------------------- the wrappers

  /** The differ of `Run` and of the first `DiffSortedEnumerables`: every item is
      its own key and its own attribute, so `default(K)` is `default(T)`. */
  function SelfKeyed<T>(keyComparer: (T, T) -> int, attributeComparer: Option<(T, T) -> int>, defaultItem: T): Differ<T, T, T> {
    Differ(x => x, keyComparer, Some(x => x), attributeComparer, defaultItem, defaultItem)
  }

  /** `DiffSortedLists.Run`: the merge of items compared by themselves. */
  method Run<T>(listA: seq<T>, listB: seq<T>, keyComparer: (T, T) -> int, attributeComparer: Option<(T, T) -> int>,
                reportSameSame: bool, checkSortOrder: bool, defaultItem: T)
    returns (calls: seq<Compared<T>>, result: Result<uint32, SortOrderError<T>>)
    ensures var t := Merge(SelfKeyed(keyComparer, attributeComparer, defaultItem), listA, listB, checkSortOrder);
            calls == Reported(t.steps, reportSameSame) && result == Outcome(t)
  {
    calls, result := DiffSortedEnumerablesInternal(listA, listB, SelfKeyed(keyComparer, attributeComparer, defaultItem),
                                                   checkSortOrder, reportSameSame);
  }

  /** `DiffSortedEnumerables` over items compared by themselves: every iteration,
      SAMESAME included, is reported. */
  method DiffSortedEnumerables<T>(listA: seq<T>, listB: seq<T>, keyComparer: (T, T) -> int,
                                  attributeComparer: Option<(T, T) -> int>, checkSortOrder: bool, defaultItem: T)
    returns (calls: seq<Compared<T>>, result: Result<uint32, SortOrderError<T>>)
    ensures var t := Merge(SelfKeyed(keyComparer, attributeComparer, defaultItem), listA, listB, checkSortOrder);
            calls == Reported(t.steps, true) && result == Outcome(t)
  {
    calls, result := DiffSortedEnumerablesInternal(listA, listB, SelfKeyed(keyComparer, attributeComparer, defaultItem),
                                                   checkSortOrder, true);
  }

  /** `DiffSortedEnumerables` with key and attribute selectors: every iteration,
      SAMESAME included, is reported. */
  method DiffSortedEnumerablesBy<T, K, A>(listA: seq<T>, listB: seq<T>, d: Differ<T, K, A>, checkSortOrder: bool)
    returns (calls: seq<Compared<T>>, result: Result<uint32, SortOrderError<K>>)
    ensures calls == Reported(Merge(d, listA, listB, checkSortOrder).steps, true)
    ensures result == Outcome(Merge(d, listA, listB, checkSortOrder))
  {
    calls, result := DiffSortedEnumerablesInternal(listA, listB, d, checkSortOrder, true);
  }
}
