/** Filtering, stable sorting and picking the first: how a list is ranked. */
module Ranking {
  import opened Options

  function Filter<T>(xs: seq<T>, p: T -> bool): seq<T> {
    if xs == [] then [] else (if p(xs[0]) then [xs[0]] else []) + Filter(xs[1..], p)
  }

  lemma {:induction false} FilterMembers<T>(xs: seq<T>, p: T -> bool)
    ensures forall y :: y in Filter(xs, p) <==> y in xs && p(y)
  {
    if xs != [] {
      FilterMembers(xs[1..], p);
      assert forall y :: y in xs <==> y == xs[0] || y in xs[1..];
    }
  }

  /** `[...xs].sort((a, b) => key(a) - key(b))`, which is stable. */
  function Sort<T>(xs: seq<T>, key: T -> real): seq<T> {
    if xs == [] then [] else Insert(xs[0], Sort(xs[1..], key), key)
  }

  function Insert<T>(x: T, ys: seq<T>, key: T -> real): seq<T> {
    if ys == [] || key(x) <= key(ys[0]) then [x] + ys else [ys[0]] + Insert(x, ys[1..], key)
  }

  predicate IsSorted<T(==)>(xs: seq<T>, key: T -> real) {
    xs != [] ==> (forall y <- xs[1..] :: key(xs[0]) <= key(y)) && IsSorted(xs[1..], key)
  }

  /** The result is in order, holds the same elements, and keeps the elements of each key in the
      order they had. */
  lemma {:induction false} SortIsStable<T>(xs: seq<T>, key: T -> real, k: real)
    ensures IsSorted(Sort(xs, key), key)
    ensures multiset(Sort(xs, key)) == multiset(xs)
    ensures Filter(Sort(xs, key), x => key(x) == k) == Filter(xs, x => key(x) == k)
  {
    if xs != [] {
      SortIsStable(xs[1..], key, k);
      assert xs == [xs[0]] + xs[1..];
      InsertKeepsElements(xs[0], Sort(xs[1..], key), key);
      InsertIsSorted(xs[0], Sort(xs[1..], key), key);
      InsertIsStable(xs[0], Sort(xs[1..], key), key, k);
    }
  }

  lemma {:induction false} InsertKeepsElements<T>(x: T, ys: seq<T>, key: T -> real)
    ensures multiset(Insert(x, ys, key)) == multiset{x} + multiset(ys)
  {
    if ys != [] && !(key(x) <= key(ys[0])) {
      InsertKeepsElements(x, ys[1..], key);
      assert ys == [ys[0]] + ys[1..];
    }
  }

  lemma {:induction false} InsertIsSorted<T>(x: T, ys: seq<T>, key: T -> real)
    requires IsSorted(ys, key)
    ensures IsSorted(Insert(x, ys, key), key)
  {
    if ys == [] || key(x) <= key(ys[0]) {
      assert ([x] + ys)[1..] == ys;
    } else {
      InsertIsSorted(x, ys[1..], key);
      var rest := Insert(x, ys[1..], key);
      InsertKeepsElements(x, ys[1..], key);
      SameElements([x] + ys[1..], rest);
      assert ([ys[0]] + rest)[1..] == rest;
    }
  }

  lemma SameElements<T>(xs: seq<T>, ys: seq<T>)
    requires multiset(xs) == multiset(ys)
    ensures forall y :: y in ys <==> y in xs
  {
    assert forall y :: y in ys <==> y in multiset(ys);
    assert forall y :: y in xs <==> y in multiset(xs);
  }

  lemma {:induction false} InsertIsStable<T>(x: T, ys: seq<T>, key: T -> real, k: real)
    ensures Filter(Insert(x, ys, key), z => key(z) == k) == Filter([x] + ys, z => key(z) == k)
  {
    var same := (z: T) => key(z) == k;
    FilterCons(x, ys, same);
    if ys != [] && !(key(x) <= key(ys[0])) {
      InsertIsStable(x, ys[1..], key, k);
      FilterCons(x, ys[1..], same);
      FilterCons(ys[0], Insert(x, ys[1..], key), same);
    }
  }

  lemma FilterCons<T>(x: T, ys: seq<T>, p: T -> bool)
    ensures Filter([x] + ys, p) == (if p(x) then [x] else []) + Filter(ys, p)
  {
    assert ([x] + ys)[1..] == ys;
  }

  /** The first element that satisfies `p`. */
  function Find<T>(xs: seq<T>, p: T -> bool): Option<T> {
    if xs == [] then None else if p(xs[0]) then Some(xs[0]) else Find(xs[1..], p)
  }

  /** Position `i` holds the least key among the elements that satisfy `p`, and no earlier position
      does. */
  ghost predicate IsFirstLeast<T>(xs: seq<T>, key: T -> real, p: T -> bool, i: nat) {
    && i < |xs| && p(xs[i])
    && forall j | 0 <= j < |xs| && p(xs[j]) :: key(xs[i]) <= key(xs[j]) && (j < i ==> key(xs[i]) < key(xs[j]))
  }

  /** The earliest of the elements with the least key among those that satisfy `p`. */
  function FirstLeast<T>(xs: seq<T>, key: T -> real, p: T -> bool): Option<T> {
    if xs == [] then None
    else
      var rest := FirstLeast(xs[1..], key, p);
      if p(xs[0]) && (rest.None? || key(xs[0]) <= key(rest.value)) then Some(xs[0]) else rest
  }

  lemma {:induction false} FirstLeastExactly<T>(xs: seq<T>, key: T -> real, p: T -> bool)
    ensures FirstLeast(xs, key, p).None? <==> forall x <- xs :: !p(x)
    ensures FirstLeast(xs, key, p).Some? ==>
      exists i: nat :: IsFirstLeast(xs, key, p, i) && xs[i] == FirstLeast(xs, key, p).value
  {
    if xs != [] {
      FirstLeastExactly(xs[1..], key, p);
      var rest := FirstLeast(xs[1..], key, p);
      if rest.Some? {
        var i: nat :| IsFirstLeast(xs[1..], key, p, i) && xs[1..][i] == rest.value;
        assert forall j | 0 < j < |xs| :: xs[j] == xs[1..][j - 1];
        assert IsFirstLeast(xs, key, p, if p(xs[0]) && key(xs[0]) <= key(rest.value) then 0 else i + 1);
      } else if p(xs[0]) {
        assert forall j | 0 < j < |xs| :: xs[j] in xs[1..];
        assert IsFirstLeast(xs, key, p, 0);
      }
    }
  }

  /** Filtering first makes no difference to which match is the earliest least. */
  lemma {:induction false} FirstLeastOfFilter<T>(
    xs: seq<T>, key: T -> real, p: T -> bool, q: T -> bool, both: T -> bool)
    requires forall x <- xs :: both(x) <==> p(x) && q(x)
    ensures FirstLeast(Filter(xs, p), key, q) == FirstLeast(xs, key, both)
  {
    if xs != [] {
      FirstLeastOfFilter(xs[1..], key, p, q, both);
      if p(xs[0]) {
        assert Filter(xs, p)[1..] == Filter(xs[1..], p);
      } else {
        assert Filter(xs, p) == Filter(xs[1..], p);
      }
    }
  }

  /** Sorting and then looking for the first match finds the earliest least match. */
  lemma {:induction false} FindInSorted<T>(xs: seq<T>, key: T -> real, p: T -> bool)
    ensures Find(Sort(xs, key), p) == FirstLeast(xs, key, p)
  {
    if xs != [] {
      FindInSorted(xs[1..], key, p);
      SortIsStable(xs[1..], key, 0.0);
      FindInInserted(xs[0], Sort(xs[1..], key), key, p);
    }
  }

  lemma {:induction false} FindInInserted<T>(x: T, ys: seq<T>, key: T -> real, p: T -> bool)
    requires IsSorted(ys, key)
    ensures Find(Insert(x, ys, key), p) ==
      if p(x) && (Find(ys, p).None? || key(x) <= key(Find(ys, p).value)) then Some(x) else Find(ys, p)
  {
    if ys == [] || key(x) <= key(ys[0]) {
      assert ([x] + ys)[1..] == ys;
      FindIsMember(ys, p);
    } else {
      FindInInserted(x, ys[1..], key, p);
      assert ([ys[0]] + Insert(x, ys[1..], key))[1..] == Insert(x, ys[1..], key);
    }
  }

  lemma {:induction false} FindIsMember<T>(xs: seq<T>, p: T -> bool)
    ensures Find(xs, p).Some? ==> exists i :: 0 <= i < |xs| && xs[i] == Find(xs, p).value
    ensures Find(xs, p).None? <==> forall x <- xs :: !p(x)
  {
    if xs != [] {
      FindIsMember(xs[1..], p);
      assert forall i | 0 <= i < |xs| - 1 :: xs[1..][i] == xs[i + 1];
      assert forall x | x in xs :: x == xs[0] || x in xs[1..];
    }
  }

  /** Filtering, sorting and taking the first element finds it too. */
  lemma {:induction false} FirstOfSortedMatches<T>(xs: seq<T>, key: T -> real, p: T -> bool)
    ensures Filter(xs, p) == [] <==> FirstLeast(xs, key, p).None?
    ensures Filter(xs, p) != [] ==>
      Sort(Filter(xs, p), key) != [] && Some(Sort(Filter(xs, p), key)[0]) == FirstLeast(xs, key, p)
  {
    if xs != [] {
      FirstOfSortedMatches(xs[1..], key, p);
      if p(xs[0]) {
        assert Filter(xs, p)[1..] == Filter(xs[1..], p);
      } else {
        assert Filter(xs, p) == Filter(xs[1..], p);
      }
    }
  }

  /** Only the order of the keys matters. */
  lemma {:induction false} SameOrderSameChoice<T>(xs: seq<T>, key: T -> real, key': T -> real, p: T -> bool)
    requires forall x, y | x in xs && y in xs && p(x) && p(y) :: key(x) <= key(y) <==> key'(x) <= key'(y)
    ensures FirstLeast(xs, key, p) == FirstLeast(xs, key', p)
  {
    if xs != [] {
      SameOrderSameChoice(xs[1..], key, key', p);
      FirstLeastExactly(xs[1..], key, p);
    }
  }
}
