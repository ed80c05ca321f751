/** `Spi.ListExtension.AddSorted`: insert a value into a list kept sorted under a
    comparer, at the place `List<T>.BinarySearch` finds for it. The list is a
    class whose contents are a `seq` that `AddSorted` replaces. */
module ListExtension {
  import opened Ordering

  /** `s` with `value` inserted before the element at `index`. */
  function Insert<T>(s: seq<T>, index: nat, value: T): (r: seq<T>)
    requires index <= |s|
    ensures |r| == |s| + 1
    ensures r[index] == value
    ensures forall k :: 0 <= k < index ==> r[k] == s[k]
    ensures forall k :: index <= k < |s| ==> r[k + 1] == s[k]
    ensures multiset(r) == multiset(s) + multiset{value}
  {
    assert s == s[..index] + s[index..];
    s[..index] + [value] + s[index..]
  }

  /** `List<T>.BinarySearch(value, comparer)`: the index of an element comparing
      equal to `value`, or else the bitwise complement of the index at which
      `value` belongs (the first greater element, or the end). */
  method BinarySearch<T(!new)>(items: seq<T>, value: T, cmp: (T, T) -> int) returns (x: int)
    ensures x >= 0 ==> x < |items| && cmp(items[x], value) == 0
    ensures x < 0 ==> -x - 1 <= |items|
    ensures x < 0 && Sorted(items, cmp) && IsTotalPreorder(cmp) ==>
              && (forall k :: 0 <= k < -x - 1 ==> cmp(items[k], value) < 0)
              && (forall k :: -x - 1 <= k < |items| ==> cmp(items[k], value) > 0)
  {
    var lo, hi := 0, |items| - 1;
    ghost var sorted := Sorted(items, cmp) && IsTotalPreorder(cmp);
    while lo <= hi
      invariant 0 <= lo <= hi + 1 <= |items|
      invariant sorted ==> forall k :: 0 <= k < lo ==> cmp(items[k], value) < 0
      invariant sorted ==> forall k :: hi < k < |items| ==> cmp(items[k], value) > 0
    {
      var i := lo + (hi - lo) / 2;
      var order := cmp(items[i], value);
      if order == 0 {
        return i;
      }
      if order < 0 {
        if sorted {
          forall k | lo <= k <= i
            ensures cmp(items[k], value) < 0
          {
            if k < i {
              LessThroughNotGreater(cmp, items[k], items[i], value);
            }
          }
        }
        lo := i + 1;
      } else {
        if sorted {
          forall k | i <= k <= hi
            ensures cmp(items[k], value) > 0
          {
            if i < k {
              assert cmp(items[i], items[k]) <= 0;
              GreaterThroughNotLess(cmp, items[k], items[i], value);
            }
          }
        }
        hi := i - 1;
      }
    }
    return -lo - 1;
  }

  /** Inserting `value` where everything before it is not greater and
      everything after it is not less keeps a sorted sequence sorted. */
  lemma InsertKeepsSorted<T(!new)>(s: seq<T>, index: nat, value: T, cmp: (T, T) -> int)
    requires IsTotalPreorder(cmp) && Sorted(s, cmp) && index <= |s|
    requires forall k :: 0 <= k < index ==> cmp(s[k], value) <= 0
    requires forall k :: index <= k < |s| ==> cmp(value, s[k]) <= 0
    ensures Sorted(Insert(s, index, value), cmp)
  {
    var r := Insert(s, index, value);
    forall p, q | 0 <= p < q < |r|
      ensures cmp(r[p], r[q]) <= 0
    {
      if q < index {
        assert r[p] == s[p] && r[q] == s[q];
      } else if q == index {
        assert r[p] == s[p];
      } else if p < index {
        assert r[p] == s[p] && r[q] == s[q - 1];
        assert cmp(s[p], value) <= 0 && cmp(value, s[q - 1]) <= 0;
      } else if p == index {
        assert r[q] == s[q - 1];
      } else {
        assert r[p] == s[p - 1] && r[q] == s[q - 1];
      }
    }
  }

  /** A `List<T>`: its contents as a sequence. */
  class List<T(!new)> {
    var items: seq<T>

    constructor (items: seq<T>)
      ensures this.items == items
    {
      this.items := items;
    }

    /** `AddSorted(value, comparer)`: `List.Insert` at the index `BinarySearch`
        returned, or at its complement when no equal element was found. The
        list grows by exactly `value`; a sorted list stays sorted; an equal
        element found puts `value` at its index, and with no equal element
        `value` goes before the first greater element or at the end. */
    method AddSorted(value: T, cmp: (T, T) -> int) returns (ghost at: nat)
      modifies this
      ensures at <= |old(items)| && items == Insert(old(items), at, value)
      ensures || (at < |old(items)| && cmp(old(items)[at], value) == 0)
              || (Sorted(old(items), cmp) && IsTotalPreorder(cmp) ==>
                    && (forall k :: 0 <= k < at ==> cmp(old(items)[k], value) < 0)
                    && (forall k :: at <= k < |old(items)| ==> cmp(old(items)[k], value) > 0))
      ensures Sorted(old(items), cmp) && IsTotalPreorder(cmp) ==> Sorted(items, cmp)
    {
      var x := BinarySearch(items, value, cmp);
      var index := if x >= 0 then x else -x - 1;
      at := index;
      if Sorted(items, cmp) && IsTotalPreorder(cmp) {
        InsertionPointFits(items, index, value, cmp, x >= 0);
        InsertKeepsSorted(items, index, value, cmp);
      }
      items := Insert(items, index, value);
    }
  }

  /** The index `AddSorted` inserts at has nothing greater than `value` before it
      and nothing less after it: next to an equal element, or between the
      smaller and the greater ones. */
  lemma InsertionPointFits<T(!new)>(s: seq<T>, index: nat, value: T, cmp: (T, T) -> int, found: bool)
    requires IsTotalPreorder(cmp) && Sorted(s, cmp) && index <= |s|
    requires found ==> index < |s| && cmp(s[index], value) == 0
    requires !found ==> forall k :: 0 <= k < index ==> cmp(s[k], value) < 0
    requires !found ==> forall k :: index <= k < |s| ==> cmp(s[k], value) > 0
    ensures forall k :: 0 <= k < index ==> cmp(s[k], value) <= 0
    ensures forall k :: index <= k < |s| ==> cmp(value, s[k]) <= 0
  {
    if found {
      forall k | 0 <= k < index
        ensures cmp(s[k], value) <= 0
      {
        assert cmp(s[k], s[index]) <= 0;
      }
      forall k | index <= k < |s|
        ensures cmp(value, s[k]) <= 0
      {
        assert cmp(value, s[index]) <= 0;
        if index < k {
          assert cmp(s[index], s[k]) <= 0;
        }
      }
    }
  }
}
