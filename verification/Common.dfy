/** Shared vocabulary: optional values, the machine's signed 64-bit range, and stable sorting. */
module Common {
  datatype Option<+T> = None | Some(value: T)

  const MAX_INT64: int := 0x7FFF_FFFF_FFFF_FFFF

  /** One past the largest unsigned 64-bit word. */
  const WORD: int := 0x1_0000_0000_0000_0000

  function Min(a: int, b: int): int { if a <= b then a else b }

  function Max(a: int, b: int): int { if a >= b then a else b }

  function MaxReal(a: real, b: real): real { if a >= b then a else b }

  /** Go's int64 counters stick at the top of their range instead of wrapping. */
  function SaturatedAdd(a: int, b: int): (r: int)
    ensures a >= 0 && b >= 0 ==> r == Min(MAX_INT64, a + b)
  {
    if a < 0 || b < 0 || a > MAX_INT64 - b then MAX_INT64 else a + b
  }

  function Ceiling(x: real): (r: int)
    ensures (r as real) - 1.0 < x <= r as real
  {
    -(-x).Floor
  }

  lemma ProductMonotone(a: int, b: int, d: int)
    requires a <= b && d > 0
    ensures a * d <= b * d
  {
  }
}

/** Stable insertion sort over a strict weak order, with what callers need to know about it. */
module Sorting {

  ghost predicate StrictWeakOrder<T(!new)>(less: (T, T) -> bool) {
    (forall a :: !less(a, a)) &&
    (forall a, b, c :: less(a, b) && less(b, c) ==> less(a, c)) &&
    (forall a, b, c :: !less(a, b) && !less(b, c) ==> !less(a, c))
  }

  ghost predicate Sorted<T>(s: seq<T>, less: (T, T) -> bool) {
    forall i, j :: 0 <= i < j < |s| ==> !less(s[j], s[i])
  }

  /** Places `x` after every element it does not precede. */
  function Insert<T>(s: seq<T>, x: T, less: (T, T) -> bool): (r: seq<T>)
    ensures multiset(r) == multiset(s) + multiset{x}
    ensures |r| == |s| + 1
  {
    if s == [] then [x]
    else
      assert s == s[..|s| - 1] + [s[|s| - 1]];
      if less(x, s[|s| - 1]) then Insert(s[..|s| - 1], x, less) + [s[|s| - 1]] else s + [x]
  }

  function StableSort<T>(s: seq<T>, less: (T, T) -> bool): (r: seq<T>)
    ensures multiset(r) == multiset(s)
    ensures |r| == |s|
  {
    if s == [] then []
    else
      assert s == s[..|s| - 1] + [s[|s| - 1]];
      Insert(StableSort(s[..|s| - 1], less), s[|s| - 1], less)
  }

  lemma SameMembers<T>(s: seq<T>, less: (T, T) -> bool, x: T)
    ensures x in StableSort(s, less) <==> x in s
  {
    assert x in StableSort(s, less) <==> x in multiset(StableSort(s, less));
    assert x in s <==> x in multiset(s);
  }

  lemma {:induction false} InsertSorted<T(!new)>(s: seq<T>, x: T, less: (T, T) -> bool)
    requires StrictWeakOrder(less) && Sorted(s, less)
    ensures Sorted(Insert(s, x, less), less)
  {
    if s != [] {
      var last := s[|s| - 1];
      if less(x, last) {
        InsertSorted(s[..|s| - 1], x, less);
        var front := Insert(s[..|s| - 1], x, less);
        forall i | 0 <= i < |front| ensures !less(last, front[i]) {
          assert front[i] in multiset(front);
          if front[i] == x {
            assert !less(last, last);
          } else {
            assert front[i] in multiset(s[..|s| - 1]);
            var k :| 0 <= k < |s| - 1 && s[k] == front[i];
          }
        }
      } else {
        forall i | 0 <= i < |s| ensures !less(x, s[i]) {
          if i < |s| - 1 { assert !less(last, s[i]); }
        }
      }
    }
  }

  lemma {:induction false} StableSortSorted<T(!new)>(s: seq<T>, less: (T, T) -> bool)
    requires StrictWeakOrder(less)
    ensures Sorted(StableSort(s, less), less)
  {
    if s != [] {
      StableSortSorted(s[..|s| - 1], less);
      InsertSorted(StableSort(s[..|s| - 1], less), s[|s| - 1], less);
    }
  }

  /** Stability: a sequence that is already in order comes back untouched, ties included. */
  lemma {:induction false} SortedIsFixed<T>(s: seq<T>, less: (T, T) -> bool)
    requires Sorted(s, less)
    ensures StableSort(s, less) == s
  {
    if s != [] {
      SortedIsFixed(s[..|s| - 1], less);
      assert |s| >= 2 ==> !less(s[|s| - 1], s[|s| - 2]);
      assert s == s[..|s| - 1] + [s[|s| - 1]];
    }
  }

  /** Lexicographic order on labels, as the `<` on strings compares them. */
  predicate Precedes(a: string, b: string) {
    b != [] && (a == [] || a[0] < b[0] || (a[0] == b[0] && Precedes(a[1..], b[1..])))
  }
}
