/** Lists without repetition, and sorting by any order. */
module Sequences {
  predicate NoRepeats<T(==)>(s: seq<T>) {
    forall i, j :: 0 <= i < j < |s| ==> s[i] != s[j]
  }

  /** `less` is a strict order in which any two items compare, equal ones aside. */
  ghost predicate Ordering<T(!new)>(less: (T, T) -> bool) {
    && (forall a, b :: less(a, b) ==> !less(b, a))
    && (forall a, b, c :: !less(b, a) && !less(c, b) ==> !less(c, a))
  }

  /** Insertion; an equal item stays behind the ones already there. */
  function Insert<T>(x: T, s: seq<T>, less: (T, T) -> bool): seq<T> {
    if s == [] then [x]
    else if less(x, s[|s| - 1]) then Insert(x, s[..|s| - 1], less) + [s[|s| - 1]]
    else s + [x]
  }

  /** A stable sort. */
  function Sort<T>(s: seq<T>, less: (T, T) -> bool): seq<T> {
    if s == [] then [] else Insert(s[|s| - 1], Sort(s[..|s| - 1], less), less)
  }

  ghost predicate Sorted<T(!new)>(s: seq<T>, less: (T, T) -> bool) {
    forall i, j :: 0 <= i < j < |s| ==> !less(s[j], s[i])
  }

  lemma {:induction false} InsertAddsOne<T>(x: T, s: seq<T>, less: (T, T) -> bool)
    ensures multiset(Insert(x, s, less)) == multiset(s) + multiset{x}
  {
    if s != [] {
      InsertAddsOne(x, s[..|s| - 1], less);
      assert s == s[..|s| - 1] + [s[|s| - 1]];
    }
  }

  /** Nothing in the result is above a bound that neither `x` nor the sequence is above. */
  lemma {:induction false} InsertStaysBelow<T(!new)>(x: T, s: seq<T>, less: (T, T) -> bool, top: T)
    requires !less(top, x) && forall i :: 0 <= i < |s| ==> !less(top, s[i])
    ensures forall i :: 0 <= i < |Insert(x, s, less)| ==> !less(top, Insert(x, s, less)[i])
  {
    if s != [] {
      InsertStaysBelow(x, s[..|s| - 1], less, top);
    }
  }

  lemma {:induction false} InsertKeepsOrder<T(!new)>(x: T, s: seq<T>, less: (T, T) -> bool)
    requires Ordering(less) && Sorted(s, less)
    ensures Sorted(Insert(x, s, less), less)
  {
    if s != [] {
      var n := |s| - 1;
      var last := s[n];
      if less(x, last) {
        InsertKeepsOrder(x, s[..n], less);
        InsertStaysBelow(x, s[..n], less, last);
      } else {
        forall i | 0 <= i < |s| ensures !less(x, s[i]) {
          assert i < n ==> !less(last, s[i]);
        }
      }
    }
  }

  /** Sorting yields an ascending permutation. */
  lemma {:induction false} SortIsCorrect<T(!new)>(s: seq<T>, less: (T, T) -> bool)
    requires Ordering(less)
    ensures Sorted(Sort(s, less), less) && multiset(Sort(s, less)) == multiset(s)
  {
    if s != [] {
      var n := |s| - 1;
      SortIsCorrect(s[..n], less);
      InsertKeepsOrder(s[n], Sort(s[..n], less), less);
      InsertAddsOne(s[n], Sort(s[..n], less), less);
      assert s == s[..n] + [s[n]];
    }
  }
}
