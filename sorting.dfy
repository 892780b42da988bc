/** The comparison-based stable sort that `Vec::sort_by` performs, as a pure
    specification: an insertion sort that inserts each element after every
    element already placed that is not greater than it. */
module Sorting {

  /** The outcome of a three-way comparison (Rust's `core::cmp::Ordering`). */
  datatype Ordering = Less | Equal | Greater

  /** What an `Ord` implementation promises, as far as sorting needs it:
      reading a comparison backwards reverses it, and "not greater" chains. */
  ghost predicate TotalPreorder<T(!new)>(cmp: (T, T) -> Ordering) {
    && (forall a, b :: cmp(a, b) == Greater <==> cmp(b, a) == Less)
    && (forall a, b, c :: cmp(a, b) != Greater && cmp(b, c) != Greater ==> cmp(a, c) != Greater)
  }

  /** No adjacent pair is out of order. */
  predicate Sorted<T>(cmp: (T, T) -> Ordering, s: seq<T>) {
    forall i :: 0 < i < |s| ==> cmp(s[i - 1], s[i]) != Greater
  }

  /** Inserts `x` into `s`, after the longest suffix of `s` whose elements are
      all greater than `x`. */
  function Insert<T>(cmp: (T, T) -> Ordering, s: seq<T>, x: T): seq<T>
    decreases |s|
  {
    if s == [] || cmp(s[|s| - 1], x) != Greater then s + [x]
    else Insert(cmp, s[..|s| - 1], x) + [s[|s| - 1]]
  }

  /** The stable sort of `s`: a permutation of `s` (SortPermutation), sorted
      (SortSorted) and stable (SortStable). */
  function StableSort<T>(cmp: (T, T) -> Ordering, s: seq<T>): seq<T>
    decreases |s|
  {
    if s == [] then []
    else Insert(cmp, StableSort(cmp, s[..|s| - 1]), s[|s| - 1])
  }

  /** Insertion adds `x` and loses nothing. */
  lemma {:induction false} InsertPermutation<T>(cmp: (T, T) -> Ordering, s: seq<T>, x: T)
    ensures multiset(Insert(cmp, s, x)) == multiset(s) + multiset{x}
    decreases |s|
  {
    if s != [] && cmp(s[|s| - 1], x) == Greater {
      var init, last := s[..|s| - 1], s[|s| - 1];
      InsertPermutation(cmp, init, x);
      assert s == init + [last];
    }
  }

  /** The sort rearranges `s` and does nothing else. */
  lemma {:induction false} SortPermutation<T>(cmp: (T, T) -> Ordering, s: seq<T>)
    ensures multiset(StableSort(cmp, s)) == multiset(s)
    decreases |s|
  {
    if s != [] {
      var init, last := s[..|s| - 1], s[|s| - 1];
      SortPermutation(cmp, init);
      InsertPermutation(cmp, StableSort(cmp, init), last);
      assert s == init + [last];
    }
  }

  /** The elements of `s` that compare equal to `k`, in their order in `s`. */
  function EquivalentTo<T>(cmp: (T, T) -> Ordering, s: seq<T>, k: T): (r: seq<T>)
    decreases |s|
  {
    if s == [] then []
    else EquivalentTo(cmp, s[..|s| - 1], k) + (if cmp(s[|s| - 1], k) == Equal then [s[|s| - 1]] else [])
  }

  lemma {:induction false} InsertSorted<T(!new)>(cmp: (T, T) -> Ordering, s: seq<T>, x: T)
    requires TotalPreorder(cmp) && Sorted(cmp, s)
    ensures Sorted(cmp, Insert(cmp, s, x))
    ensures |Insert(cmp, s, x)| == |s| + 1
    ensures Insert(cmp, s, x)[|s|] == x || Insert(cmp, s, x)[|s|] == s[|s| - 1]
    decreases |s|
  {
    if s == [] || cmp(s[|s| - 1], x) != Greater {
    } else {
      var init, last := s[..|s| - 1], s[|s| - 1];
      assert Sorted(cmp, init);
      InsertSorted(cmp, init, x);
      var r' := Insert(cmp, init, x);
      assert cmp(x, last) == Less;
      assert |s| > 1 && r'[|init|] != x ==> r'[|init|] == s[|s| - 2];
    }
  }

  /** The sort puts its result in order. */
  lemma {:induction false} SortSorted<T(!new)>(cmp: (T, T) -> Ordering, s: seq<T>)
    requires TotalPreorder(cmp)
    ensures Sorted(cmp, StableSort(cmp, s))
    decreases |s|
  {
    if s != [] {
      SortSorted(cmp, s[..|s| - 1]);
      InsertSorted(cmp, StableSort(cmp, s[..|s| - 1]), s[|s| - 1]);
    }
  }

  lemma SortedInit<T>(cmp: (T, T) -> Ordering, s: seq<T>)
    requires Sorted(cmp, s) && s != []
    ensures Sorted(cmp, s[..|s| - 1])
  {
    var init := s[..|s| - 1];
    forall i | 0 < i < |init| ensures cmp(init[i - 1], init[i]) != Greater {
      assert init[i - 1] == s[i - 1] && init[i] == s[i];
    }
  }

  /** Sorting an already sorted sequence changes nothing. */
  lemma {:induction false} SortOfSorted<T>(cmp: (T, T) -> Ordering, s: seq<T>)
    requires Sorted(cmp, s)
    ensures StableSort(cmp, s) == s
    decreases |s|
  {
    if s != [] {
      var init, last := s[..|s| - 1], s[|s| - 1];
      SortedInit(cmp, s);
      SortOfSorted(cmp, init);
      assert StableSort(cmp, s) == Insert(cmp, init, last);
      assert init == [] || cmp(init[|init| - 1], last) != Greater;
      assert init + [last] == s;
    }
  }

  lemma {:induction false} EquivalentToAppend<T>(cmp: (T, T) -> Ordering, a: seq<T>, b: seq<T>, k: T)
    ensures EquivalentTo(cmp, a + b, k) == EquivalentTo(cmp, a, k) + EquivalentTo(cmp, b, k)
    decreases |b|
  {
    if b == [] {
      assert a + b == a;
    } else {
      assert (a + b)[..|a + b| - 1] == a + b[..|b| - 1];
      EquivalentToAppend(cmp, a, b[..|b| - 1], k);
    }
  }

  /** No element of `k`'s class compares greater than another one: what
      stability needs of the ordering. */
  ghost predicate ClassUnsplit<T(!new)>(cmp: (T, T) -> Ordering, k: T) {
    forall a, b :: cmp(a, b) == Greater && cmp(a, k) == Equal ==> cmp(b, k) != Equal
  }

  /** A total preorder never splits a class. */
  lemma PreorderClassUnsplit<T(!new)>(cmp: (T, T) -> Ordering, k: T)
    requires TotalPreorder(cmp)
    ensures ClassUnsplit(cmp, k)
  {
    forall a, b | cmp(a, b) == Greater && cmp(a, k) == Equal
      ensures cmp(b, k) != Equal
    {
      assert cmp(k, b) == Greater ==> cmp(b, k) == Less;
    }
  }

  lemma {:induction false} InsertStable<T(!new)>(cmp: (T, T) -> Ordering, s: seq<T>, x: T, k: T)
    requires ClassUnsplit(cmp, k)
    ensures EquivalentTo(cmp, Insert(cmp, s, x), k) == EquivalentTo(cmp, s, k) + EquivalentTo(cmp, [x], k)
    decreases |s|
  {
    if s == [] || cmp(s[|s| - 1], x) != Greater {
      EquivalentToAppend(cmp, s, [x], k);
    } else {
      var init, last := s[..|s| - 1], s[|s| - 1];
      var ex, el := EquivalentTo(cmp, [x], k), EquivalentTo(cmp, [last], k);
      assert Insert(cmp, s, x) == Insert(cmp, init, x) + [last];
      InsertStable(cmp, init, x, k);
      EquivalentToAppend(cmp, Insert(cmp, init, x), [last], k);
      assert init + [last] == s;
      EquivalentToAppend(cmp, init, [last], k);
      assert [x][..0] == [] && [last][..0] == [];
      assert ex == [] || el == [];
      assert ex + el == el + ex;
    }
  }

  lemma {:induction false} SortStableInClass<T(!new)>(cmp: (T, T) -> Ordering, s: seq<T>, k: T)
    requires ClassUnsplit(cmp, k)
    ensures EquivalentTo(cmp, StableSort(cmp, s), k) == EquivalentTo(cmp, s, k)
    decreases |s|
  {
    if s != [] {
      var init, last := s[..|s| - 1], s[|s| - 1];
      assert StableSort(cmp, s) == Insert(cmp, StableSort(cmp, init), last);
      SortStableInClass(cmp, init, k);
      InsertStable(cmp, StableSort(cmp, init), last, k);
      assert init + [last] == s;
      EquivalentToAppend(cmp, init, [last], k);
    }
  }

  /** The sort is stable: the elements of any one equivalence class keep
      their relative order. */
  lemma SortStable<T(!new)>(cmp: (T, T) -> Ordering, s: seq<T>, k: T)
    requires TotalPreorder(cmp)
    ensures EquivalentTo(cmp, StableSort(cmp, s), k) == EquivalentTo(cmp, s, k)
  {
    PreorderClassUnsplit(cmp, k);
    SortStableInClass(cmp, s, k);
  }
}
