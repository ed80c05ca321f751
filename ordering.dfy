/** Comparers as the source uses them: a function returning a negative number,
    zero or a positive number. String orderings (ordinal-ignore-case, culture
    collation) are not modelled concretely; they are any comparer that is a total
    preorder in the sense below. */
module Ordering {

  /** The contract of an `IComparer`: every value compares equal to itself, swapping
      the arguments flips the sign, and "not greater" is transitive. */
  ghost predicate IsTotalPreorder<T(!new)>(cmp: (T, T) -> int) {
    && (forall x :: cmp(x, x) == 0)
    && (forall x, y :: cmp(x, y) < 0 <==> cmp(y, x) > 0)
    && (forall x, y, z :: cmp(x, y) <= 0 && cmp(y, z) <= 0 ==> cmp(x, z) <= 0)
  }

  /** `s` is sorted ascending under `cmp`: no element compares greater than a later one. */
  ghost predicate Sorted<T>(s: seq<T>, cmp: (T, T) -> int) {
    forall i, j :: 0 <= i < j < |s| ==> cmp(s[i], s[j]) <= 0
  }

  /** Under a total preorder, "not greater" followed by "less" is "less". */
  lemma LessThroughNotGreater<T(!new)>(cmp: (T, T) -> int, x: T, y: T, z: T)
    requires IsTotalPreorder(cmp)
    requires cmp(x, y) <= 0 && cmp(y, z) < 0
    ensures cmp(x, z) < 0
  {
  }

  /** Under a total preorder, "not less" followed by "greater" is "greater". */
  lemma GreaterThroughNotLess<T(!new)>(cmp: (T, T) -> int, x: T, y: T, z: T)
    requires IsTotalPreorder(cmp)
    requires cmp(x, y) >= 0 && cmp(y, z) > 0
    ensures cmp(x, z) > 0
  {
  }

  /** Under a total preorder, "less" followed by "not greater" is "less". */
  lemma LessThenNotGreater<T(!new)>(cmp: (T, T) -> int, x: T, y: T, z: T)
    requires IsTotalPreorder(cmp)
    requires cmp(x, y) < 0 && cmp(y, z) <= 0
    ensures cmp(x, z) < 0
  {
  }
}
