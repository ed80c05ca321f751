/** What the sorted-merge differ of `Delta` promises over whole runs: every item
    of both lists is consumed by exactly one iteration, the count is the number of
    non-SAMESAME iterations, a drained side yields one-sided events, the sort-order
    check throws on an inversion and never on ascending input, and a list diffed
    against itself has no differences. */
module DeltaProperties {
  import opened Wrappers
  import opened Misc
  import opened Delta
  import opened Ordering

  // ---------------------------------------------------------- consumption

  /** The items of list A the iterations consume: every iteration but NEW. */
  function ItemsA<T>(steps: seq<Compared<T>>): seq<T> {
    if steps == [] then []
    else (if steps[0].state != NEW then [steps[0].a] else []) + ItemsA(steps[1..])
  }

  /** The items of list B the iterations consume: every iteration but DELETE. */
  function ItemsB<T>(steps: seq<Compared<T>>): seq<T> {
    if steps == [] then []
    else (if steps[0].state != DELETE then [steps[0].b] else []) + ItemsB(steps[1..])
  }

  /** One iteration consumes the current A item unless it is NEW and the current B
      item unless it is DELETE, and moves the matching cursor by one. */
  lemma StepConsumes<T, K, A>(d: Differ<T, K, A>, listA: seq<T>, listB: seq<T>, i: nat, j: nat)
    requires i <= |listA| && j <= |listB| && (i < |listA| || j < |listB|)
    ensures var step := StepAt(d, listA, listB, i, j);
            var next := Advance(step.state, i, j);
            && (step.state != NEW ==> i < |listA| && step.a == listA[i] && next.0 == i + 1)
            && (step.state == NEW ==> next.0 == i)
            && (step.state != DELETE ==> j < |listB| && step.b == listB[j] && next.1 == j + 1)
            && (step.state == DELETE ==> next.1 == j)
  {
  }

  /** From cursors `i`, `j` on, the iterations consume the A items `listA[i..]`
      and the B items `listB[j..]` in order, each exactly once; an iteration that
      throws ends the run after consuming a prefix of them. */
  lemma {:induction false} RunConsumesEachItemOnce<T, K, A>(d: Differ<T, K, A>, listA: seq<T>, listB: seq<T>,
                                                           checkSortOrder: bool, i: nat, j: nat)
    requires i <= |listA| && j <= |listB|
    ensures var t := RunFrom(d, listA, listB, checkSortOrder, i, j);
            && ItemsA(t.steps) <= listA[i..] && ItemsB(t.steps) <= listB[j..]
            && (t.failure.None? ==> ItemsA(t.steps) == listA[i..] && ItemsB(t.steps) == listB[j..])
    decreases |listA| - i + |listB| - j
  {
    if i < |listA| || j < |listB| {
      var step := StepAt(d, listA, listB, i, j);
      var (i', j') := Advance(step.state, i, j);
      RunFromStep(d, listA, listB, checkSortOrder, i, j);
      StepConsumes(d, listA, listB, i, j);
      RunConsumesEachItemOnce(d, listA, listB, checkSortOrder, i', j');
      var t := RunFrom(d, listA, listB, checkSortOrder, i, j);
      var rest := RunFrom(d, listA, listB, checkSortOrder, i', j');
      var tail := if t.failure.Some? && t.steps == [step] then [] else rest.steps;
      assert t.steps == [step] + tail;
      ItemsCons(step, tail);
      ConsumedPrefix(listA, i, i', step.state != NEW, step.a, ItemsA(tail), t.failure.None?);
      ConsumedPrefix(listB, j, j', step.state != DELETE, step.b, ItemsB(tail), t.failure.None?);
    }
  }

  /** The consumed items of a run that starts with `step`. */
  lemma ItemsCons<T>(step: Compared<T>, tail: seq<Compared<T>>)
    ensures ItemsA([step] + tail) == (if step.state != NEW then [step.a] else []) + ItemsA(tail)
    ensures ItemsB([step] + tail) == (if step.state != DELETE then [step.b] else []) + ItemsB(tail)
  {
    assert ([step] + tail)[1..] == tail;
  }

  /** Consuming `s[i]` (or nothing) and then a prefix of `s[i'..]` consumes a
      prefix of `s[i..]`, all of it when the rest was all of `s[i'..]`. */
  lemma ConsumedPrefix<T>(s: seq<T>, i: nat, i': nat, consumed: bool, x: T, rest: seq<T>, whole: bool)
    requires i <= i' <= |s|
    requires consumed ==> i < |s| && x == s[i] && i' == i + 1
    requires !consumed ==> i' == i
    requires rest <= s[i'..]
    requires !whole || rest == s[i'..]
    ensures (if consumed then [x] else []) + rest <= s[i..]
    ensures whole ==> (if consumed then [x] else []) + rest == s[i..]
  {
    if consumed {
      assert s[i..] == [s[i]] + s[i'..];
    } else {
      assert s[i..] == s[i'..];
    }
  }

  /** Every iteration's A item (unless it is NEW) is among the consumed A items,
      and its B item (unless it is DELETE) among the consumed B items. */
  lemma {:induction false} StepItemsConsumed<T>(steps: seq<Compared<T>>)
    ensures forall k :: 0 <= k < |steps| && steps[k].state != NEW ==> steps[k].a in ItemsA(steps)
    ensures forall k :: 0 <= k < |steps| && steps[k].state != DELETE ==> steps[k].b in ItemsB(steps)
  {
    if steps != [] {
      StepItemsConsumed(steps[1..]);
      forall k | 0 < k < |steps|
        ensures steps[k] == steps[1..][k - 1]
      {
      }
    }
  }

  /** The loop runs at most `|A| + |B|` iterations. */
  lemma {:induction false} RunLength<T, K, A>(d: Differ<T, K, A>, listA: seq<T>, listB: seq<T>,
                                             checkSortOrder: bool, i: nat, j: nat)
    requires i <= |listA| && j <= |listB|
    ensures |RunFrom(d, listA, listB, checkSortOrder, i, j).steps| <= |listA| - i + |listB| - j
    decreases |listA| - i + |listB| - j
  {
    if i < |listA| || j < |listB| {
      var step := StepAt(d, listA, listB, i, j);
      var (i', j') := Advance(step.state, i, j);
      RunFromStep(d, listA, listB, checkSortOrder, i, j);
      StepConsumes(d, listA, listB, i, j);
      RunLength(d, listA, listB, checkSortOrder, i', j');
    }
  }

  /** The whole merge consumes every item of both lists exactly once (when it does
      not throw) in at most `|A| + |B|` iterations. */
  lemma MergeConsumesEachItemOnce<T, K, A>(d: Differ<T, K, A>, listA: seq<T>, listB: seq<T>, checkSortOrder: bool)
    ensures var t := Merge(d, listA, listB, checkSortOrder);
            && |t.steps| <= |listA| + |listB|
            && ItemsA(t.steps) <= listA && ItemsB(t.steps) <= listB
            && (t.failure.None? ==> ItemsA(t.steps) == listA && ItemsB(t.steps) == listB)
  {
    RunConsumesEachItemOnce(d, listA, listB, checkSortOrder, 0, 0);
    RunLength(d, listA, listB, checkSortOrder, 0, 0);
    assert listA[0..] == listA && listB[0..] == listB;
  }

  // ------------------------------------------------- reporting and count

  /** With `ReportSameSame`, every iteration reaches `OnCompared`. */
  lemma {:induction false} ReportedAll<T>(steps: seq<Compared<T>>)
    ensures Reported(steps, true) == steps
  {
    if steps != [] {
      ReportedAll(steps[1..]);
    }
  }

  /** Without it, exactly the non-SAMESAME iterations reach `OnCompared`, so the
      number of calls is the difference count; every one-sided (NEW or DELETE)
      iteration is among them. */
  lemma {:induction false} ReportedDifferences<T>(steps: seq<Compared<T>>)
    ensures |Reported(steps, false)| == CountDifferences(steps)
    ensures forall c :: c in Reported(steps, false) <==> c in steps && c.state != SAMESAME
  {
    if steps != [] {
      ReportedDifferences(steps[1..]);
      assert steps == [steps[0]] + steps[1..];
      forall c | c in steps
        ensures c in steps[1..] || c == steps[0]
      {
      }
    }
  }

  /** The count is the number of differences found and never more than the
      number of iterations. */
  lemma {:induction false} CountBounded<T>(steps: seq<Compared<T>>)
    ensures CountDifferences(steps) <= |steps|
    ensures CountDifferences(steps) == |steps| <==> forall k :: 0 <= k < |steps| ==> steps[k].state != SAMESAME
  {
    if steps != [] {
      CountBounded(steps[1..]);
      if CountDifferences(steps) == |steps| {
        forall k | 0 <= k < |steps|
          ensures steps[k].state != SAMESAME
        {
          if k > 0 {
            assert steps[k] == steps[1..][k - 1];
          }
        }
      }
      if forall k :: 0 <= k < |steps| ==> steps[k].state != SAMESAME {
        forall k | 0 <= k < |steps[1..]|
          ensures steps[1..][k].state != SAMESAME
        {
          assert steps[1..][k] == steps[k + 1];
        }
      }
    }
  }

  // ------------------------------------------------------ drained sides

  /** Every iteration against an empty list B is a DELETE of the next A item
      against `default(T)` (with the sort-order check off). */
  lemma {:induction false} OnlyA<T, K, A>(d: Differ<T, K, A>, listA: seq<T>, i: nat)
    requires i <= |listA|
    ensures var t := RunFrom(d, listA, [], false, i, 0);
            && t.failure.None?
            && |t.steps| == |listA| - i
            && forall k :: 0 <= k < |t.steps| ==> t.steps[k] == Compared(DELETE, listA[i + k], d.defaultItem)
    decreases |listA| - i
  {
    if i < |listA| {
      RunFromStep(d, listA, [], false, i, 0);
      OnlyA(d, listA, i + 1);
      var t := RunFrom(d, listA, [], false, i, 0);
      var rest := RunFrom(d, listA, [], false, i + 1, 0);
      assert t.steps == [Compared(DELETE, listA[i], d.defaultItem)] + rest.steps;
      forall k | 0 <= k < |t.steps|
        ensures t.steps[k] == Compared(DELETE, listA[i + k], d.defaultItem)
      {
        if k > 0 {
          assert t.steps[k] == rest.steps[k - 1];
        }
      }
    }
  }

  /** Every iteration from an empty list A is a NEW of the next B item against
      `default(T)` (with the sort-order check off). */
  lemma {:induction false} OnlyB<T, K, A>(d: Differ<T, K, A>, listB: seq<T>, j: nat)
    requires j <= |listB|
    ensures var t := RunFrom(d, [], listB, false, 0, j);
            && t.failure.None?
            && |t.steps| == |listB| - j
            && forall k :: 0 <= k < |t.steps| ==> t.steps[k] == Compared(NEW, d.defaultItem, listB[j + k])
    decreases |listB| - j
  {
    if j < |listB| {
      RunFromStep(d, [], listB, false, 0, j);
      OnlyB(d, listB, j + 1);
      var t := RunFrom(d, [], listB, false, 0, j);
      var rest := RunFrom(d, [], listB, false, 0, j + 1);
      assert t.steps == [Compared(NEW, d.defaultItem, listB[j])] + rest.steps;
      forall k | 0 <= k < |t.steps|
        ensures t.steps[k] == Compared(NEW, d.defaultItem, listB[j + k])
      {
        if k > 0 {
          assert t.steps[k] == rest.steps[k - 1];
        }
      }
    }
  }

  /** A list against an empty list: `|A|` DELETE calls with `default(T)` as the B
      item, and the count `|A|` (as a `uint`). */
  lemma DiffAgainstEmpty<T, K, A>(d: Differ<T, K, A>, listA: seq<T>)
    ensures var t := Merge(d, listA, [], false);
            && |t.steps| == |listA|
            && (forall k :: 0 <= k < |listA| ==> t.steps[k] == Compared(DELETE, listA[k], d.defaultItem))
            && Outcome(t) == Success(|listA| % TWO32)
  {
    OnlyA(d, listA, 0);
    var t := Merge(d, listA, [], false);
    CountBounded(t.steps);
  }

  /** An empty list against a list: `|B|` NEW calls with `default(T)` as the A
      item, and the count `|B|` (as a `uint`). */
  lemma DiffFromEmpty<T, K, A>(d: Differ<T, K, A>, listB: seq<T>)
    ensures var t := Merge(d, [], listB, false);
            && |t.steps| == |listB|
            && (forall k :: 0 <= k < |listB| ==> t.steps[k] == Compared(NEW, d.defaultItem, listB[k]))
            && Outcome(t) == Success(|listB| % TWO32)
  {
    OnlyB(d, listB, 0);
    var t := Merge(d, [], listB, false);
    CountBounded(t.steps);
  }

  // ----------------------------------------------------- sort-order check

  /** Without the sort-order check the merge never throws. */
  lemma {:induction false} NoCheckNeverFails<T, K, A>(d: Differ<T, K, A>, listA: seq<T>, listB: seq<T>, i: nat, j: nat)
    requires i <= |listA| && j <= |listB|
    ensures RunFrom(d, listA, listB, false, i, j).failure.None?
    decreases |listA| - i + |listB| - j
  {
    if i < |listA| || j < |listB| {
      var step := StepAt(d, listA, listB, i, j);
      var (i', j') := Advance(step.state, i, j);
      RunFromStep(d, listA, listB, false, i, j);
      NoCheckNeverFails(d, listA, listB, i', j');
    }
  }

  /** With the check on, two adjacent A items whose keys are out of order make
      the merge throw: at the latest in the iteration that moves the A cursor
      from the first of them to the second. */
  lemma {:induction false} InversionInAFails<T, K, A>(d: Differ<T, K, A>, listA: seq<T>, listB: seq<T>,
                                                     i: nat, j: nat, k: nat)
    requires i <= k && k + 1 < |listA| && j <= |listB|
    requires d.keyComparer(d.keySelector(listA[k]), d.keySelector(listA[k + 1])) > 0
    ensures RunFrom(d, listA, listB, true, i, j).failure.Some?
    decreases |listA| - i + |listB| - j
  {
    var step := StepAt(d, listA, listB, i, j);
    var (i', j') := Advance(step.state, i, j);
    RunFromStep(d, listA, listB, true, i, j);
    StepConsumes(d, listA, listB, i, j);
    if SortCheck(d, listA, listB, i, j, i', j').None? {
      if i' == i || i < k {
        InversionInAFails(d, listA, listB, i', j', k);
      }
    }
  }

  /** The same for list B. */
  lemma {:induction false} InversionInBFails<T, K, A>(d: Differ<T, K, A>, listA: seq<T>, listB: seq<T>,
                                                     i: nat, j: nat, k: nat)
    requires j <= k && k + 1 < |listB| && i <= |listA|
    requires d.keyComparer(d.keySelector(listB[k]), d.keySelector(listB[k + 1])) > 0
    ensures RunFrom(d, listA, listB, true, i, j).failure.Some?
    decreases |listA| - i + |listB| - j
  {
    var step := StepAt(d, listA, listB, i, j);
    var (i', j') := Advance(step.state, i, j);
    RunFromStep(d, listA, listB, true, i, j);
    StepConsumes(d, listA, listB, i, j);
    if SortCheck(d, listA, listB, i, j, i', j').None? {
      if j' == j || j < k {
        InversionInBFails(d, listA, listB, i', j', k);
      }
    }
  }

  /** The keys of `s` ascend under the key comparer: no key compares greater
      than itself or than the next one. */
  ghost predicate Ascending<T, K, A>(d: Differ<T, K, A>, s: seq<T>) {
    && (forall k :: 0 <= k < |s| ==> d.keyComparer(d.keySelector(s[k]), d.keySelector(s[k])) <= 0)
    && (forall k :: 0 <= k < |s| - 1 ==> d.keyComparer(d.keySelector(s[k]), d.keySelector(s[k + 1])) <= 0)
  }

  /** `default(K)` does not compare greater than the key a drained side keeps
      (the last item's key, or `default(K)` itself for an empty list): the one-
      sided iterations check it against that key. */
  ghost predicate DefaultKeyFirst<T, K, A>(d: Differ<T, K, A>, s: seq<T>) {
    d.keyComparer(d.defaultKey, KeyAt(d, s, |s|)) <= 0
  }

  /** The check of one side in one iteration passes on ascending keys. */
  lemma SideCheckPasses<T, K, A>(d: Differ<T, K, A>, s: seq<T>, i: nat, i': nat)
    requires Ascending(d, s) && DefaultKeyFirst(d, s)
    requires i <= |s| && (i' == i || (i < |s| && i' == i + 1))
    ensures d.keyComparer(if i < |s| then KeyAt(d, s, i) else d.defaultKey, KeyAt(d, s, i')) <= 0
  {
    if i < |s| && i' == i + 1 && i' < |s| {
      assert d.keyComparer(d.keySelector(s[i]), d.keySelector(s[i + 1])) <= 0;
    }
  }

  /** On ascending input (and a `default(K)` that sorts first) the check never
      throws. */
  lemma {:induction false} AscendingNeverFails<T, K, A>(d: Differ<T, K, A>, listA: seq<T>, listB: seq<T>, i: nat, j: nat)
    requires Ascending(d, listA) && Ascending(d, listB)
    requires DefaultKeyFirst(d, listA) && DefaultKeyFirst(d, listB)
    requires i <= |listA| && j <= |listB|
    ensures RunFrom(d, listA, listB, true, i, j).failure.None?
    decreases |listA| - i + |listB| - j
  {
    if i < |listA| || j < |listB| {
      var step := StepAt(d, listA, listB, i, j);
      var (i', j') := Advance(step.state, i, j);
      RunFromStep(d, listA, listB, true, i, j);
      StepConsumes(d, listA, listB, i, j);
      SideCheckPasses(d, listA, i, i');
      SideCheckPasses(d, listB, j, j');
      assert SortCheck(d, listA, listB, i, j, i', j').None?;
      AscendingNeverFails(d, listA, listB, i', j');
    }
  }

  // --------------------------------------------------- a list against itself

  /** Keys and attributes of the items of `s` compare equal to themselves. */
  ghost predicate SelfEqual<T, K, A>(d: Differ<T, K, A>, s: seq<T>) {
    && (forall x :: x in s ==> d.keyComparer(d.keySelector(x), d.keySelector(x)) == 0)
    && (d.attributeSelector.Some? && d.attributeComparer.Some? ==>
          forall x :: x in s ==> d.attributeComparer.value(d.attributeSelector.value(x), d.attributeSelector.value(x)) == 0)
  }

  /** From equal cursors, a list diffed against itself runs one SAMESAME
      iteration per item and never throws. */
  lemma {:induction false} SelfRun<T, K, A>(d: Differ<T, K, A>, s: seq<T>, checkSortOrder: bool, i: nat)
    requires SelfEqual(d, s) && Ascending(d, s) && i <= |s|
    ensures var t := RunFrom(d, s, s, checkSortOrder, i, i);
            && t.failure.None?
            && |t.steps| == |s| - i
            && forall k :: 0 <= k < |t.steps| ==> t.steps[k] == Compared(SAMESAME, s[i + k], s[i + k])
    decreases |s| - i
  {
    if i < |s| {
      assert s[i] in s;
      var step := StepAt(d, s, s, i, i);
      assert step == Compared(SAMESAME, s[i], s[i]);
      RunFromStep(d, s, s, checkSortOrder, i, i);
      SideCheckPassesOnSelf(d, s, i);
      SelfRun(d, s, checkSortOrder, i + 1);
      var t := RunFrom(d, s, s, checkSortOrder, i, i);
      var rest := RunFrom(d, s, s, checkSortOrder, i + 1, i + 1);
      assert t.steps == [step] + rest.steps;
      forall k | 0 <= k < |t.steps|
        ensures t.steps[k] == Compared(SAMESAME, s[i + k], s[i + k])
      {
        if k > 0 {
          assert t.steps[k] == rest.steps[k - 1];
        }
      }
    }
  }

  /** The sort-order check of an iteration over a list against itself. */
  lemma SideCheckPassesOnSelf<T, K, A>(d: Differ<T, K, A>, s: seq<T>, i: nat)
    requires Ascending(d, s) && i < |s|
    ensures SortCheck(d, s, s, i, i, i + 1, i + 1).None?
  {
    if i + 1 < |s| {
      assert d.keyComparer(d.keySelector(s[i]), d.keySelector(s[i + 1])) <= 0;
    } else {
      assert d.keyComparer(d.keySelector(s[i]), d.keySelector(s[i])) <= 0;
    }
  }

  /** A list diffed against itself reports no differences and returns 0. */
  lemma DiffWithItselfIsZero<T, K, A>(d: Differ<T, K, A>, s: seq<T>, checkSortOrder: bool)
    requires SelfEqual(d, s) && Ascending(d, s)
    ensures Outcome(Merge(d, s, s, checkSortOrder)) == Success(0)
    ensures Reported(Merge(d, s, s, checkSortOrder).steps, false) == []
  {
    SelfRun(d, s, checkSortOrder, 0);
    var t := Merge(d, s, s, checkSortOrder);
    CountBounded(t.steps);
    ReportedDifferences(t.steps);
    assert CountDifferences(t.steps) == 0 by {
      if CountDifferences(t.steps) > 0 {
        SomeDifference(t.steps);
      }
    }
  }

  /** A positive count means some iteration was not SAMESAME. */
  lemma {:induction false} SomeDifference<T>(steps: seq<Compared<T>>)
    requires CountDifferences(steps) > 0
    ensures exists k :: 0 <= k < |steps| && steps[k].state != SAMESAME
  {
    if steps[0].state == SAMESAME {
      SomeDifference(steps[1..]);
      var k :| 0 <= k < |steps[1..]| && steps[1..][k].state != SAMESAME;
      assert steps[k + 1] == steps[1..][k];
    }
  }

  // ------------------------------------------------------- the classification

  /** When both cursors are live, the key comparison decides: negative is
      DELETE, positive is NEW, zero is SAMESAME or MODIFY as the attributes
      decide; both items are passed to `OnCompared`. */
  lemma BothLiveClassification<T, K, A>(d: Differ<T, K, A>, listA: seq<T>, listB: seq<T>, i: nat, j: nat)
    requires i < |listA| && j < |listB|
    ensures var step := StepAt(d, listA, listB, i, j);
            var c := d.keyComparer(d.keySelector(listA[i]), d.keySelector(listB[j]));
            && step.a == listA[i] && step.b == listB[j]
            && (step.state == DELETE <==> c < 0)
            && (step.state == NEW <==> c > 0)
            && (step.state in {SAMESAME, MODIFY} <==> c == 0)
            && (c == 0 && (d.attributeSelector.None? || d.attributeComparer.None?) ==> step.state == SAMESAME)
  {
  }
  /** Every SAMESAME or MODIFY iteration pairs two items whose keys compare
      equal. */
  ghost predicate MatchedKeysEqual<T, K, A>(d: Differ<T, K, A>, steps: seq<Compared<T>>) {
    forall k :: 0 <= k < |steps| && steps[k].state in {SAMESAME, MODIFY} ==>
      d.keyComparer(d.keySelector(steps[k].a), d.keySelector(steps[k].b)) == 0
  }

  /** A run only matches items whose keys compare equal. */
  lemma {:induction false} RunMatchesEqualKeys<T, K, A>(d: Differ<T, K, A>, listA: seq<T>, listB: seq<T>,
                                                       checkSortOrder: bool, i: nat, j: nat)
    requires i <= |listA| && j <= |listB|
    ensures MatchedKeysEqual(d, RunFrom(d, listA, listB, checkSortOrder, i, j).steps)
    decreases |listA| - i + |listB| - j
  {
    if i < |listA| || j < |listB| {
      var step := StepAt(d, listA, listB, i, j);
      var (i', j') := Advance(step.state, i, j);
      RunFromStep(d, listA, listB, checkSortOrder, i, j);
      RunMatchesEqualKeys(d, listA, listB, checkSortOrder, i', j');
      if i < |listA| && j < |listB| {
        BothLiveClassification(d, listA, listB, i, j);
      }
      var steps := RunFrom(d, listA, listB, checkSortOrder, i, j).steps;
      var rest := RunFrom(d, listA, listB, checkSortOrder, i', j').steps;
      forall k | 1 <= k < |steps|
        ensures steps[k] == rest[k - 1]
      {
      }
    }
  }

  /** The keys of `s` strictly ascend: every key compares less than each later
      one, as the keys of a `SortedList` do (it refuses a key that compares equal
      to one it holds). */
  ghost predicate StrictlyAscending<T, K, A>(d: Differ<T, K, A>, s: seq<T>) {
    forall k, l :: 0 <= k < l < |s| ==> d.keyComparer(d.keySelector(s[k]), d.keySelector(s[l])) < 0
  }

  /** One iteration never steps past a pair of equal keys: with the current keys
      `x`, `y` not beyond the paired keys `kp`, `kq`, a DELETE leaves `x` strictly
      behind `kp`, a NEW leaves `y` strictly behind `kq`, and a key match that is
      not the pair itself leaves both strictly behind. */
  lemma StepTowardsPair<K(!new)>(cmp: (K, K) -> int, x: K, y: K, kp: K, kq: K)
    requires IsTotalPreorder(cmp)
    requires cmp(kp, kq) == 0 && cmp(x, kp) <= 0 && cmp(y, kq) <= 0
    ensures cmp(x, y) < 0 ==> cmp(x, kp) < 0
    ensures cmp(x, y) > 0 ==> cmp(y, kq) < 0
    ensures cmp(x, y) == 0 ==> (cmp(x, kp) < 0 <==> cmp(y, kq) < 0)
  {
    if cmp(x, kp) == 0 {
      // x is kp's equal, so y compares like kq's equal against x
      assert cmp(kp, x) == 0;
      if cmp(y, kq) < 0 {
        LessThenNotGreater(cmp, y, kq, x);
      }
    }
    if cmp(y, kq) == 0 {
      assert cmp(kq, y) == 0;
      if cmp(x, kp) < 0 {
        LessThenNotGreater(cmp, x, kp, y);
      }
    }
  }

  /** Every key present on both sides is paired: when both lists strictly ascend
      and the run does not end in a sort-order error, two items whose keys compare
      equal meet in one iteration, SAMESAME or MODIFY as their attributes decide. */
  lemma {:induction false} RunPairsEqualKeys<T, K(!new), A>(d: Differ<T, K, A>, listA: seq<T>, listB: seq<T>,
                                                           checkSortOrder: bool, i: nat, j: nat, p: nat, q: nat)
    returns (k: nat)
    requires IsTotalPreorder(d.keyComparer)
    requires StrictlyAscending(d, listA) && StrictlyAscending(d, listB)
    requires i <= p < |listA| && j <= q < |listB|
    requires d.keyComparer(d.keySelector(listA[p]), d.keySelector(listB[q])) == 0
    requires RunFrom(d, listA, listB, checkSortOrder, i, j).failure.None?
    ensures var steps := RunFrom(d, listA, listB, checkSortOrder, i, j).steps;
            && k < |steps| && steps[k].state in {SAMESAME, MODIFY}
            && steps[k] == Compared(ItemCompareFunc(0, listA[p], listB[q], d.attributeSelector, d.attributeComparer),
                                    listA[p], listB[q])
    decreases |listA| - i + |listB| - j
  {
    AdvanceTowardsPair(d, listA, listB, i, j, p, q);
    var next := RunFromCons(d, listA, listB, checkSortOrder, i, j);
    if i == p && j == q {
      k := 0;
    } else {
      var k' := RunPairsEqualKeys(d, listA, listB, checkSortOrder, next.0, next.1, p, q);
      k := k' + 1;
    }
  }

  /** A run that ends without a sort-order error is its first iteration followed
      by an error-free run from the advanced cursors. */
  lemma RunFromCons<T, K, A>(d: Differ<T, K, A>, listA: seq<T>, listB: seq<T>, checkSortOrder: bool, i: nat, j: nat)
    returns (next: (nat, nat))
    requires i <= |listA| && j <= |listB| && (i < |listA| || j < |listB|)
    requires RunFrom(d, listA, listB, checkSortOrder, i, j).failure.None?
    ensures next == Advance(StepAt(d, listA, listB, i, j).state, i, j)
    ensures next.0 <= |listA| && next.1 <= |listB|
    ensures RunFrom(d, listA, listB, checkSortOrder, next.0, next.1).failure.None?
    ensures RunFrom(d, listA, listB, checkSortOrder, i, j).steps
            == [StepAt(d, listA, listB, i, j)] + RunFrom(d, listA, listB, checkSortOrder, next.0, next.1).steps
  {
    next := Advance(StepAt(d, listA, listB, i, j).state, i, j);
    RunFromStep(d, listA, listB, checkSortOrder, i, j);
  }

  /** The iteration at `i`, `j` on the way to the pair `p`, `q`: at the pair it
      classifies the two items by their attributes; before it, the cursors it
      leaves are still not past the pair. */
  lemma AdvanceTowardsPair<T, K(!new), A>(d: Differ<T, K, A>, listA: seq<T>, listB: seq<T>,
                                          i: nat, j: nat, p: nat, q: nat)
    requires IsTotalPreorder(d.keyComparer)
    requires StrictlyAscending(d, listA) && StrictlyAscending(d, listB)
    requires i <= p < |listA| && j <= q < |listB|
    requires d.keyComparer(d.keySelector(listA[p]), d.keySelector(listB[q])) == 0
    ensures var step := StepAt(d, listA, listB, i, j);
            && (i == p && j == q ==>
                  step == Compared(ItemCompareFunc(0, listA[p], listB[q], d.attributeSelector, d.attributeComparer),
                                   listA[p], listB[q]))
            && (!(i == p && j == q) ==> Advance(step.state, i, j).0 <= p && Advance(step.state, i, j).1 <= q)
  {
    var x, y := d.keySelector(listA[i]), d.keySelector(listB[j]);
    var kp, kq := d.keySelector(listA[p]), d.keySelector(listB[q]);
    CursorBehind(d, listA, i, p);
    CursorBehind(d, listB, j, q);
    StepTowardsPair(d.keyComparer, x, y, kp, kq);
    BothLiveClassification(d, listA, listB, i, j);
  }

  /** On strictly ascending keys, a cursor at `i` is behind position `p` exactly
      when its key compares less than the key at `p`, and never compares greater. */
  lemma CursorBehind<T, K(!new), A>(d: Differ<T, K, A>, s: seq<T>, i: nat, p: nat)
    requires IsTotalPreorder(d.keyComparer) && StrictlyAscending(d, s)
    requires i <= p < |s|
    ensures d.keyComparer(d.keySelector(s[i]), d.keySelector(s[p])) <= 0
    ensures d.keyComparer(d.keySelector(s[i]), d.keySelector(s[p])) < 0 <==> i < p
  {
  }
}
