/** Stable sorting by an arbitrary "comes before" relation, as every ranking and every argsort of the
    repository uses it.

    The sort is a stable insertion sort. Under a strict weak order on the elements it yields a sorted
    permutation that keeps ties in the order of arrival; under a strict total order there is only one
    sorted arrangement, so the order of arrival does not matter at all. */
module Ordering {
  import opened Counting

  /** `precedes` is a strict weak order on `domain`. */
  ghost predicate StrictWeakOrder<T>(domain: set<T>, precedes: (T, T) -> bool) {
    && (forall x | x in domain :: !precedes(x, x))
    && (forall x, y | x in domain && y in domain :: precedes(x, y) ==> !precedes(y, x))
    && (forall x, y, z {:trigger precedes(x, z), precedes(x, y)} | x in domain && y in domain && z in domain ::
          precedes(x, z) ==> precedes(x, y) || precedes(y, z))
  }

  /** A strict weak order that also tells any two different elements of `domain` apart. */
  ghost predicate StrictTotalOrder<T>(domain: set<T>, precedes: (T, T) -> bool) {
    && StrictWeakOrder(domain, precedes)
    && (forall x, y | x in domain && y in domain && x != y :: precedes(x, y) || precedes(y, x))
  }

  ghost predicate SortedBy<T>(xs: seq<T>, precedes: (T, T) -> bool) {
    forall i, j | 0 <= i < j < |xs| :: !precedes(xs[j], xs[i])
  }

  function Elements<T(==)>(xs: seq<T>): set<T> {
    set x | x in xs
  }

  ghost predicate AllIn<T>(xs: seq<T>, domain: set<T>) {
    forall i | 0 <= i < |xs| :: xs[i] in domain
  }

  /** Put `x` after everything it does not precede, and before the rest. */
  function Insert<T>(xs: seq<T>, x: T, precedes: (T, T) -> bool): seq<T> {
    if xs == [] || !precedes(x, xs[|xs| - 1]) then xs + [x]
    else Insert(xs[..|xs| - 1], x, precedes) + [xs[|xs| - 1]]
  }

  /** Stable insertion sort: ties keep the order of `xs`. */
  function StableSort<T>(xs: seq<T>, precedes: (T, T) -> bool): seq<T> {
    if xs == [] then []
    else Insert(StableSort(xs[..|xs| - 1], precedes), xs[|xs| - 1], precedes)
  }

  lemma {:induction false} InsertIsPermutation<T(!new)>(xs: seq<T>, x: T, precedes: (T, T) -> bool)
    ensures multiset(Insert(xs, x, precedes)) == multiset(xs) + multiset{x}
  {
    if xs == [] || !precedes(x, xs[|xs| - 1]) {
    } else {
      InsertIsPermutation(xs[..|xs| - 1], x, precedes);
      assert xs == xs[..|xs| - 1] + [xs[|xs| - 1]];
    }
  }

  lemma {:induction false} SortIsPermutation<T(!new)>(xs: seq<T>, precedes: (T, T) -> bool)
    ensures multiset(StableSort(xs, precedes)) == multiset(xs)
  {
    if xs == [] {
    } else {
      var front, last := xs[..|xs| - 1], xs[|xs| - 1];
      assert multiset(xs) == multiset(front) + multiset{last} by {
        assert xs == front + [last];
      }
      SortIsPermutation(front, precedes);
      InsertIsPermutation(StableSort(front, precedes), last, precedes);
    }
  }

  /** Permutations have the same elements. */
  lemma SameElements<T(!new)>(xs: seq<T>, ys: seq<T>)
    requires multiset(xs) == multiset(ys)
    ensures |xs| == |ys|
    ensures forall x :: x in xs <==> x in ys
  {
    assert |multiset(xs)| == |multiset(ys)|;
    forall x ensures x in xs <==> x in ys {
      assert x in xs <==> x in multiset(xs);
      assert x in ys <==> x in multiset(ys);
    }
  }

  lemma PermutationStaysIn<T(!new)>(xs: seq<T>, ys: seq<T>, domain: set<T>)
    requires multiset(xs) == multiset(ys) && AllIn(xs, domain)
    ensures AllIn(ys, domain)
  {
    SameElements(xs, ys);
    forall i | 0 <= i < |ys| ensures ys[i] in domain {
      assert ys[i] in xs;
    }
  }

  lemma InsertStaysIn<T(!new)>(xs: seq<T>, x: T, domain: set<T>, precedes: (T, T) -> bool)
    requires AllIn(xs, domain) && x in domain
    ensures AllIn(Insert(xs, x, precedes), domain)
    ensures forall y | y in Insert(xs, x, precedes) :: y == x || y in xs
  {
    InsertIsPermutation(xs, x, precedes);
    SameElements(Insert(xs, x, precedes), xs + [x]);
    PermutationStaysIn(xs + [x], Insert(xs, x, precedes), domain);
  }

  lemma {:induction false} InsertKeepsSorted<T(!new)>(xs: seq<T>, x: T, domain: set<T>, precedes: (T, T) -> bool)
    requires StrictWeakOrder(domain, precedes)
    requires AllIn(xs, domain) && x in domain
    requires SortedBy(xs, precedes)
    ensures SortedBy(Insert(xs, x, precedes), precedes)
  {
    if xs == [] {
    } else if !precedes(x, xs[|xs| - 1]) {
      var last := xs[|xs| - 1];
      forall i | 0 <= i < |xs| ensures !precedes(x, xs[i]) {
        assert i < |xs| - 1 ==> !precedes(last, xs[i]);
      }
    } else {
      var last, front := xs[|xs| - 1], xs[..|xs| - 1];
      InsertKeepsSorted(front, x, domain, precedes);
      InsertStaysIn(front, x, domain, precedes);
      var ys := Insert(front, x, precedes);
      forall i | 0 <= i < |ys| ensures !precedes(last, ys[i]) {
        assert ys[i] in ys;
        if ys[i] != x {
          var k :| 0 <= k < |front| && front[k] == ys[i];
          assert front[k] == xs[k];
        }
      }
    }
  }

  lemma {:induction false} SortIsSorted<T(!new)>(xs: seq<T>, domain: set<T>, precedes: (T, T) -> bool)
    requires StrictWeakOrder(domain, precedes)
    requires AllIn(xs, domain)
    ensures SortedBy(StableSort(xs, precedes), precedes)
  {
    if xs == [] {
    } else {
      var front, x := xs[..|xs| - 1], xs[|xs| - 1];
      SortIsSorted(front, domain, precedes);
      SortIsPermutation(front, precedes);
      PermutationStaysIn(front, StableSort(front, precedes), domain);
      InsertKeepsSorted(StableSort(front, precedes), x, domain, precedes);
    }
  }

  lemma SortedHeadsAgree<T(!new)>(xs: seq<T>, ys: seq<T>, domain: set<T>, precedes: (T, T) -> bool)
    requires multiset(xs) == multiset(ys) && xs != [] && ys != []
    requires AllIn(xs, domain) && StrictTotalOrder(domain, precedes)
    requires SortedBy(xs, precedes) && SortedBy(ys, precedes)
    ensures xs[0] == ys[0]
  {
    SameElements(xs, ys);
    assert ys[0] in xs && xs[0] in ys;
    var j :| 0 <= j < |xs| && xs[j] == ys[0];
    var i :| 0 <= i < |ys| && ys[i] == xs[0];
  }

  /** Under a strict total order there is only one sorted arrangement of a multiset. */
  lemma {:induction false} SortedArrangementIsUnique<T(!new)>(
      xs: seq<T>, ys: seq<T>, domain: set<T>, precedes: (T, T) -> bool)
    requires multiset(xs) == multiset(ys)
    requires AllIn(xs, domain) && StrictTotalOrder(domain, precedes)
    requires SortedBy(xs, precedes) && SortedBy(ys, precedes)
    ensures xs == ys
  {
    SameElements(xs, ys);
    if xs == [] {
    } else {
      SortedHeadsAgree(xs, ys, domain, precedes);
      HeadOut(xs);
      HeadOut(ys);
      SortedArrangementIsUnique(xs[1..], ys[1..], domain, precedes);
    }
  }

  /** Sorting does not depend on the order in which the elements arrive. */
  lemma SortIgnoresInputOrder<T(!new)>(xs: seq<T>, ys: seq<T>, domain: set<T>, precedes: (T, T) -> bool)
    requires multiset(xs) == multiset(ys)
    requires AllIn(xs, domain) && StrictTotalOrder(domain, precedes)
    ensures StableSort(xs, precedes) == StableSort(ys, precedes)
  {
    SortIsPermutation(xs, precedes);
    SortIsPermutation(ys, precedes);
    PermutationStaysIn(xs, ys, domain);
    PermutationStaysIn(xs, StableSort(xs, precedes), domain);
    SortIsSorted(xs, domain, precedes);
    SortIsSorted(ys, domain, precedes);
    SortedArrangementIsUnique(StableSort(xs, precedes), StableSort(ys, precedes), domain, precedes);
  }

  /** `xs` lists its elements in the order `earlier`. */
  ghost predicate Listed<T>(xs: seq<T>, earlier: (T, T) -> bool) {
    forall i, j | 0 <= i < j < |xs| :: earlier(xs[i], xs[j]) && !earlier(xs[j], xs[i])
  }

  /** In the order `precedes`, with ties in the order `earlier`. */
  ghost predicate StablySorted<T>(xs: seq<T>, precedes: (T, T) -> bool, earlier: (T, T) -> bool) {
    forall i, j | 0 <= i < j < |xs| ::
      precedes(xs[i], xs[j]) || (!precedes(xs[j], xs[i]) && earlier(xs[i], xs[j]))
  }

  lemma {:induction false} InsertIsStable<T(
      !new)>(xs: seq<T>, x: T, domain: set<T>, precedes: (T, T) -> bool, earlier: (T, T) -> bool)
    requires StrictWeakOrder(domain, precedes)
    requires AllIn(xs, domain) && x in domain
    requires StablySorted(xs, precedes, earlier)
    requires forall i | 0 <= i < |xs| :: earlier(xs[i], x)
    ensures StablySorted(Insert(xs, x, precedes), precedes, earlier)
  {
    if xs == [] {
    } else if !precedes(x, xs[|xs| - 1]) {
      var last := xs[|xs| - 1];
      forall i | 0 <= i < |xs| ensures !precedes(x, xs[i]) {
        assert i < |xs| - 1 ==> !precedes(last, xs[i]);
      }
    } else {
      var last, front := xs[|xs| - 1], xs[..|xs| - 1];
      InsertIsStable(front, x, domain, precedes, earlier);
      InsertStaysIn(front, x, domain, precedes);
      var ys := Insert(front, x, precedes);
      forall i | 0 <= i < |ys|
        ensures precedes(ys[i], last) || (!precedes(last, ys[i]) && earlier(ys[i], last))
      {
        assert ys[i] in ys;
        if ys[i] != x {
          var k :| 0 <= k < |front| && front[k] == ys[i];
          assert front[k] == xs[k];
        }
      }
    }
  }

  /** Ties keep the order in which they were listed. */
  lemma {:induction false} SortIsStable<T(
      !new)>(xs: seq<T>, domain: set<T>, precedes: (T, T) -> bool, earlier: (T, T) -> bool)
    requires StrictWeakOrder(domain, precedes)
    requires AllIn(xs, domain) && Listed(xs, earlier)
    ensures StablySorted(StableSort(xs, precedes), precedes, earlier)
  {
    if xs == [] {
    } else {
      var front, x := xs[..|xs| - 1], xs[|xs| - 1];
      SortIsStable(front, domain, precedes, earlier);
      SortIsPermutation(front, precedes);
      var ys := StableSort(front, precedes);
      PermutationStaysIn(front, ys, domain);
      SameElements(front, ys);
      forall i | 0 <= i < |ys| ensures earlier(ys[i], x) {
        assert ys[i] in front;
      }
      InsertIsStable(ys, x, domain, precedes, earlier);
    }
  }
}
