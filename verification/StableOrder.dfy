// Stable sorting: what it means, that the meaning determines the result, and
// the in-place algorithm the program runs.
module StableOrder {
  import opened Common

  /** One instance of the strict weak order laws: asymmetry and negative transitivity. */
  ghost predicate Coherent<T>(less: (T, T) -> bool, x: T, y: T, z: T) {
    && (less(x, y) ==> !less(y, x))
    && (!less(x, y) && !less(y, z) ==> !less(x, z))
  }

  /** `less` is a strict weak order on the elements of `s`. */
  ghost predicate StrictWeakOn<T(!new)>(less: (T, T) -> bool, s: seq<T>) {
    forall x, y, z :: x in s && y in s && z in s ==> Coherent(less, x, y, z)
  }

  ghost predicate Sorted<T>(less: (T, T) -> bool, s: seq<T>) {
    forall i, j :: 0 <= i < j < |s| ==> !less(s[j], s[i])
  }

  /** The elements that `less` does not separate from `x`. */
  function Tied<T>(less: (T, T) -> bool, x: T): T -> bool {
    y => !less(x, y) && !less(y, x)
  }

  /** `r` rearranges `s` in order, and every class of ties keeps its input order. */
  ghost predicate StableArrangement<T>(less: (T, T) -> bool, s: seq<T>, r: seq<T>) {
    && multiset(r) == multiset(s)
    && Sorted(less, r)
    && forall x :: x in s ==> Filter(Tied(less, x), r) == Filter(Tied(less, x), s)
  }

  /** Moves `x` left from the end of `s` past every element it must precede. */
  function Insert<T>(less: (T, T) -> bool, s: seq<T>, x: T): (r: seq<T>)
    ensures |r| == |s| + 1
  {
    if s == [] || !less(x, s[|s| - 1]) then
      s + [x]
    else
      Insert(less, s[..|s| - 1], x) + [s[|s| - 1]]
  }

  function StableSort<T>(less: (T, T) -> bool, s: seq<T>): (r: seq<T>)
    ensures |r| == |s|
  {
    if s == [] then
      []
    else
      Insert(less, StableSort(less, s[..|s| - 1]), s[|s| - 1])
  }

  lemma {:induction false} InsertPermutes<T>(less: (T, T) -> bool, s: seq<T>, x: T)
    ensures multiset(Insert(less, s, x)) == multiset(s) + multiset{x}
  {
    if s != [] && less(x, s[|s| - 1]) {
      InsertPermutes(less, s[..|s| - 1], x);
      assert s == s[..|s| - 1] + [s[|s| - 1]];
    }
  }

  lemma SameElements<T>(a: seq<T>, b: seq<T>)
    requires multiset(a) == multiset(b)
    ensures |a| == |b|
    ensures forall x :: x in a ==> x in b
    ensures forall x :: x in b ==> x in a
  {
    assert |multiset(a)| == |a| && |multiset(b)| == |b|;
    forall x | x in a
      ensures x in b
    {
      assert x in multiset(a);
    }
    forall x | x in b
      ensures x in a
    {
      assert x in multiset(b);
    }
  }

  lemma {:induction false} SortPermutes<T>(less: (T, T) -> bool, s: seq<T>)
    ensures multiset(StableSort(less, s)) == multiset(s)
    ensures forall x :: x in StableSort(less, s) ==> x in s
  {
    if s != [] {
      SortPermutes(less, s[..|s| - 1]);
      InsertPermutes(less, StableSort(less, s[..|s| - 1]), s[|s| - 1]);
      assert s == s[..|s| - 1] + [s[|s| - 1]];
    }
    SameElements(StableSort(less, s), s);
  }

  ghost predicate Within<T>(s: seq<T>, base: seq<T>) {
    forall x :: x in s ==> x in base
  }

  lemma SortedAppend<T>(less: (T, T) -> bool, s: seq<T>, last: T)
    requires Sorted(less, s) && forall i :: 0 <= i < |s| ==> !less(last, s[i])
    ensures Sorted(less, s + [last])
  {
  }

  lemma CoherentIn<T(!new)>(less: (T, T) -> bool, base: seq<T>, x: T, y: T, z: T)
    requires StrictWeakOn(less, base) && x in base && y in base && z in base
    ensures Coherent(less, x, y, z)
  {
  }

  lemma {:induction false} InsertKeepsOrder<T(!new)>(less: (T, T) -> bool, s: seq<T>, x: T, base: seq<T>)
    requires StrictWeakOn(less, base) && Within(s, base) && x in base && Sorted(less, s)
    ensures Sorted(less, Insert(less, s, x))
  {
    hide StrictWeakOn;
    if s != [] && less(x, s[|s| - 1]) {
      var init, last := s[..|s| - 1], s[|s| - 1];
      assert forall y :: y in init ==> y in s;
      InsertKeepsOrder(less, init, x, base);
      InsertPermutes(less, init, x);
      var r := Insert(less, init, x);
      SameElements(r, init + [x]);
      CoherentIn(less, base, x, last, x);
      assert forall i :: 0 <= i < |r| ==> r[i] in init + [x];
      SortedAppend(less, r, last);
    } else {
      forall i | 0 <= i < |s|
        ensures !less(x, s[i])
      {
        assert s[i] in s && s[|s| - 1] in s;
        CoherentIn(less, base, s[|s| - 1], s[|s| - 1], s[|s| - 1]);
        CoherentIn(less, base, x, s[|s| - 1], s[i]);
      }
      SortedAppend(less, s, x);
    }
  }

  lemma {:induction false} InsertKeepsTies<T(!new)>(less: (T, T) -> bool, s: seq<T>, x: T, y: T, base: seq<T>)
    requires StrictWeakOn(less, base) && Within(s, base) && x in base && y in base
    ensures Filter(Tied(less, y), Insert(less, s, x)) == Filter(Tied(less, y), s + [x])
  {
    hide Filter;
    if s != [] && less(x, s[|s| - 1]) {
      var init, last, tied := s[..|s| - 1], s[|s| - 1], Tied(less, y);
      InsertKeepsTies(less, init, x, y, base);
      assert s == init + [last];
      assert !(tied(x) && tied(last)) by {
        assert Coherent(less, x, y, last);
      }
      FilterAppend(tied, Insert(less, init, x), last);
      FilterAppend(tied, init, x);
      FilterAppend(tied, init, last);
      FilterAppend(tied, s, x);
    }
  }

  lemma {:induction false} SortIsOrdered<T(!new)>(less: (T, T) -> bool, s: seq<T>, base: seq<T>)
    requires StrictWeakOn(less, base) && Within(s, base)
    ensures Sorted(less, StableSort(less, s))
  {
    if s != [] {
      SortIsOrdered(less, s[..|s| - 1], base);
      SortPermutes(less, s[..|s| - 1]);
      InsertKeepsOrder(less, StableSort(less, s[..|s| - 1]), s[|s| - 1], base);
    }
  }

  lemma {:induction false} SortKeepsTies<T(!new)>(less: (T, T) -> bool, s: seq<T>, y: T, base: seq<T>)
    requires StrictWeakOn(less, base) && Within(s, base) && y in base
    ensures Filter(Tied(less, y), StableSort(less, s)) == Filter(Tied(less, y), s)
  {
    if s != [] {
      var init, last := s[..|s| - 1], s[|s| - 1];
      SortKeepsTies(less, init, y, base);
      SortPermutes(less, init);
      InsertKeepsTies(less, StableSort(less, init), last, y, base);
      FilterAppend(Tied(less, y), StableSort(less, init), last);
    }
  }

  /** The result of the sort is a stable arrangement of its input. */
  lemma SortIsStable<T(!new)>(less: (T, T) -> bool, s: seq<T>)
    requires StrictWeakOn(less, s)
    ensures StableArrangement(less, s, StableSort(less, s))
  {
    SortPermutes(less, s);
    SortIsOrdered(less, s, s);
    forall y | y in s
      ensures Filter(Tied(less, y), StableSort(less, s)) == Filter(Tied(less, y), s)
    {
      SortKeepsTies(less, s, y, s);
    }
  }

  /** The last elements of two arrangements of the same elements coincide. */
  lemma LastIsDetermined<T(!new)>(less: (T, T) -> bool, a: seq<T>, b: seq<T>)
    requires a != [] && Sorted(less, a) && StableArrangement(less, a, b)
    requires a[|a| - 1] in a && !less(a[|a| - 1], a[|a| - 1])
    ensures |a| == |b| && a[|a| - 1] == b[|b| - 1]
  {
    hide Filter;
    SameElements(a, b);
    var p, q := a[|a| - 1], b[|b| - 1];
    assert q in b && p in a;
    var i :| 0 <= i < |a| && a[i] == q;
    var j :| 0 <= j < |b| && b[j] == p;
    var tied := Tied(less, p);
    assert tied(q) && tied(p);
    assert a == a[..|a| - 1] + [p] && b == b[..|b| - 1] + [q];
    FilterAppend(tied, a[..|a| - 1], p);
    FilterAppend(tied, b[..|b| - 1], q);
    assert Filter(tied, a) == Filter(tied, b);
    assert p == Filter(tied, a)[|Filter(tied, a)| - 1] == q;
  }

  lemma ArrangementWithoutLast<T(!new)>(less: (T, T) -> bool, a: seq<T>, b: seq<T>, p: T)
    requires Sorted(less, a + [p]) && StableArrangement(less, a + [p], b + [p])
    ensures Sorted(less, a) && StableArrangement(less, a, b)
  {
    assert multiset(a) == multiset(a + [p]) - multiset{p};
    assert multiset(b) == multiset(b + [p]) - multiset{p};
    assert forall i :: 0 <= i < |a| ==> (a + [p])[i] == a[i];
    assert forall i :: 0 <= i < |b| ==> (b + [p])[i] == b[i];
    forall x | x in a
      ensures Filter(Tied(less, x), b) == Filter(Tied(less, x), a)
    {
      assert x in a + [p];
      FilterDropsLast(Tied(less, x), a, b, p);
    }
  }

  /** Order, permutation and tie order leave exactly one result. */
  lemma {:induction false} ArrangementIsUnique<T(!new)>(less: (T, T) -> bool, a: seq<T>, b: seq<T>, base: seq<T>)
    requires StrictWeakOn(less, base) && Within(a, base)
    requires Sorted(less, a) && StableArrangement(less, a, b)
    ensures a == b
  {
    SameElements(a, b);
    if a != [] {
      var a', b', p := a[..|a| - 1], b[..|b| - 1], a[|a| - 1];
      assert p in a && Coherent(less, p, p, p);
      LastIsDetermined(less, a, b);
      assert a == a' + [p] && b == b' + [p];
      ArrangementWithoutLast(less, a', b', p);
      ArrangementIsUnique(less, a', b', base);
    }
  }

  /** Any stable arrangement is the sort's own result. */
  lemma OnlyTheSortArranges<T(!new)>(less: (T, T) -> bool, s: seq<T>, r: seq<T>)
    requires StrictWeakOn(less, s) && StableArrangement(less, s, r)
    ensures r == StableSort(less, s)
  {
    var sorted := StableSort(less, s);
    SortIsStable(less, s);
    SortPermutes(less, s);
    SameElements(r, s);
    ArrangementIsUnique(less, sorted, r, s);
  }

  lemma {:induction false} FilterKeepsOrder<T>(less: (T, T) -> bool, keep: T -> bool, s: seq<T>)
    requires Sorted(less, s)
    ensures Sorted(less, Filter(keep, s))
  {
    if s != [] {
      var init, last := s[..|s| - 1], s[|s| - 1];
      FilterKeepsOrder(less, keep, init);
      var kept := Filter(keep, init);
      forall i | 0 <= i < |kept|
        ensures !less(last, kept[i])
      {
        assert kept[i] in init;
      }
    }
  }

  /** Filtering a stably sorted sequence is stably sorting the filtered one. */
  lemma FilterCommutesWithSort<T(!new)>(less: (T, T) -> bool, keep: T -> bool, s: seq<T>)
    requires StrictWeakOn(less, s)
    ensures Filter(keep, StableSort(less, s)) == StableSort(less, Filter(keep, s))
  {
    var sorted := StableSort(less, s);
    var kept, r := Filter(keep, s), Filter(keep, sorted);
    SortIsStable(less, s);
    FilterKeepsOrder(less, keep, sorted);
    forall x
      ensures multiset(r)[x] == multiset(kept)[x]
    {
      FilterMultiplicity(keep, sorted, x);
      FilterMultiplicity(keep, s, x);
    }
    forall x | x in kept
      ensures Filter(Tied(less, x), r) == Filter(Tied(less, x), kept)
    {
      FiltersCommute(Tied(less, x), keep, sorted);
      FiltersCommute(Tied(less, x), keep, s);
    }
    OnlyTheSortArranges(less, kept, r);
  }

  /** `Insert` stops at the last position whose left neighbour `x` need not precede. */
  lemma {:induction false} InsertPosition<T>(less: (T, T) -> bool, s: seq<T>, x: T, j: nat)
    requires j <= |s| && (j > 0 ==> !less(x, s[j - 1]))
    requires forall k :: j <= k < |s| ==> less(x, s[k])
    ensures Insert(less, s, x) == s[..j] + [x] + s[j..]
  {
    var front := s[..j];
    if j < |s| {
      var init, last := s[..|s| - 1], s[|s| - 1];
      var back := init[j..];
      InsertPosition(less, init, x, j);
      assert init[..j] == front && back + [last] == s[j..];
      assert front + [x] + back + [last] == front + [x] + (back + [last]);
    } else {
      assert front == s && s[j..] == [];
    }
  }

  /** The inner loop: swaps `a[i]` left until its left neighbour need not follow it. */
  method SwapIntoPlace<T>(less: (T, T) -> bool, a: array<T>, i: nat)
    requires i < a.Length
    modifies a
    ensures a[..i + 1] == Insert(less, old(a[..i]), old(a[i]))
    ensures forall k :: i < k < a.Length ==> a[k] == old(a[k])
  {
    ghost var x := a[i];
    var j := i;
    while j > 0 && less(a[j], a[j - 1])
      invariant 0 <= j <= i && a[j] == x
      invariant forall k :: 0 <= k < a.Length && (k < j || i < k) ==> a[k] == old(a[k])
      invariant forall k :: j < k <= i ==> a[k] == old(a[k - 1])
      invariant forall k :: j <= k < i ==> less(x, old(a[k]))
    {
      a[j], a[j - 1] := a[j - 1], a[j];
      j := j - 1;
    }
    ghost var front := old(a[..i]);
    InsertPosition(less, front, x, j);
    assert a[..i + 1] == front[..j] + [x] + front[j..];
  }

  /** In-place insertion sort by adjacent swaps. */
  method InsertionSort<T>(less: (T, T) -> bool, a: array<T>)
    modifies a
    ensures a[..] == StableSort(less, old(a[..]))
  {
    ghost var was := a[..];
    var i := 0;
    while i < a.Length
      invariant 0 <= i <= a.Length
      invariant a[..i] == StableSort(less, was[..i])
      invariant forall k :: i <= k < a.Length ==> a[k] == was[k]
    {
      SwapIntoPlace(less, a, i);
      assert was[..i + 1][..i] == was[..i];
      i := i + 1;
    }
    assert a[..i] == a[..] && was[..i] == was;
  }
}
