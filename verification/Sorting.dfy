/** The stable library sort, and the uniqueness of a sorted list of distinct elements. */
module Sorting {
  import opened Sums

  ghost predicate TotalPreorder<T(!new)>(le: (T, T) -> bool) {
    && (forall a, b :: le(a, b) || le(b, a))
    && (forall a, b, c :: le(a, b) && le(b, c) ==> le(a, c))
  }

  ghost predicate Sorted<T>(le: (T, T) -> bool, xs: seq<T>) {
    forall i, j :: 0 <= i < j < |xs| ==> le(xs[i], xs[j])
  }

  function Insert<T>(le: (T, T) -> bool, x: T, xs: seq<T>): seq<T> {
    if xs == [] || le(x, xs[0]) then [x] + xs else [xs[0]] + Insert(le, x, xs[1..])
  }

  /** `sort_by` and `sort_by_key`, which keep equal elements in their order. */
  function Sort<T>(le: (T, T) -> bool, xs: seq<T>): seq<T> {
    if xs == [] then [] else Insert(le, xs[0], Sort(le, xs[1..]))
  }

  lemma {:induction false} InsertMultiset<T>(le: (T, T) -> bool, x: T, xs: seq<T>)
    ensures multiset(Insert(le, x, xs)) == multiset{x} + multiset(xs)
  {
    if xs != [] && !le(x, xs[0]) {
      InsertMultiset(le, x, xs[1..]);
      assert xs == [xs[0]] + xs[1..];
    }
  }

  lemma {:induction false} SortMultiset<T>(le: (T, T) -> bool, xs: seq<T>)
    ensures multiset(Sort(le, xs)) == multiset(xs)
  {
    if xs != [] {
      SortMultiset(le, xs[1..]);
      InsertMultiset(le, xs[0], Sort(le, xs[1..]));
      assert xs == [xs[0]] + xs[1..];
    }
  }

  lemma SortElements<T>(le: (T, T) -> bool, xs: seq<T>)
    ensures |Sort(le, xs)| == |xs|
    ensures forall x :: x in Sort(le, xs) <==> x in xs
  {
    SortMultiset(le, xs);
    assert |multiset(Sort(le, xs))| == |multiset(xs)|;
    forall x
      ensures x in Sort(le, xs) <==> x in xs
    {
      assert x in multiset(Sort(le, xs)) <==> x in multiset(xs);
    }
  }

  /** `a` may stand before `b`: it is smaller, or tied and preferred by `tie`. */
  predicate Before<T>(le: (T, T) -> bool, tie: (T, T) -> bool, a: T, b: T) {
    le(a, b) && (le(b, a) ==> tie(a, b))
  }

  ghost predicate SortedWithTies<T>(le: (T, T) -> bool, tie: (T, T) -> bool, xs: seq<T>) {
    forall i, j :: 0 <= i < j < |xs| ==> Before(le, tie, xs[i], xs[j])
  }

  lemma {:induction false} InsertSorted<T(!new)>(le: (T, T) -> bool, tie: (T, T) -> bool, x: T, xs: seq<T>)
    requires TotalPreorder(le) && SortedWithTies(le, tie, xs)
    requires forall y :: y in xs ==> tie(x, y)
    ensures SortedWithTies(le, tie, Insert(le, x, xs))
  {
    if xs != [] && !le(x, xs[0]) {
      var rest := Insert(le, x, xs[1..]);
      InsertSorted(le, tie, x, xs[1..]);
      InsertMultiset(le, x, xs[1..]);
      forall y | y in rest
        ensures Before(le, tie, xs[0], y)
      {
        assert y in multiset(rest);
      }
    } else if xs != [] {
      forall y | y in xs
        ensures Before(le, tie, x, y)
      {
        var i :| 0 <= i < |xs| && xs[i] == y;
        assert i > 0 ==> Before(le, tie, xs[0], xs[i]);
      }
    }
  }

  /** Stability: sorting a list that is already in `tie` order leaves ties in that order. */
  lemma {:induction false} SortStable<T(!new)>(le: (T, T) -> bool, tie: (T, T) -> bool, xs: seq<T>)
    requires TotalPreorder(le) && Sorted(tie, xs)
    ensures SortedWithTies(le, tie, Sort(le, xs))
  {
    if xs != [] {
      SortStable(le, tie, xs[1..]);
      SortElements(le, xs[1..]);
      InsertSorted(le, tie, xs[0], Sort(le, xs[1..]));
    }
  }

  lemma SortSorted<T(!new)>(le: (T, T) -> bool, xs: seq<T>)
    requires TotalPreorder(le)
    ensures Sorted(le, Sort(le, xs))
  {
    SortStable(le, (a, b) => true, xs);
    assert forall i, j :: 0 <= i < j < |Sort(le, xs)| ==> Before(le, (a, b) => true, Sort(le, xs)[i], Sort(le, xs)[j]);
  }

  lemma LastIsMaximum<T(!new)>(le: (T, T) -> bool, sorted: seq<T>, x: T)
    requires TotalPreorder(le) && Sorted(le, sorted) && x in sorted
    ensures sorted != [] && le(x, sorted[|sorted| - 1])
  {
    var i :| 0 <= i < |sorted| && sorted[i] == x;
    assert le(x, x);
  }

  lemma SortHas<T>(le: (T, T) -> bool, xs: seq<T>, x: T)
    requires x in xs
    ensures x in Sort(le, xs)
  {
    SortElements(le, xs);
  }

  /** The last of a sorted list is a maximum of it. */
  lemma SortLast<T(!new)>(le: (T, T) -> bool, xs: seq<T>, x: T)
    requires TotalPreorder(le) && x in xs
    ensures var sorted := Sort(le, xs);
            sorted != [] && le(x, sorted[|sorted| - 1])
  {
    assert Sorted(le, Sort(le, xs)) by {
      SortSorted(le, xs);
    }
    SortHas(le, xs, x);
    LastIsMaximum(le, Sort(le, xs), x);
  }

  /** Every element strictly precedes all later ones. */
  ghost predicate StrictlySorted<T>(le: (T, T) -> bool, xs: seq<T>) {
    forall i, j :: 0 <= i < j < |xs| ==> le(xs[i], xs[j]) && !le(xs[j], xs[i])
  }

  lemma KeysDiffer<T, K>(key: T -> K, xs: seq<T>, x: T, y: T)
    requires forall i, j :: 0 <= i < j < |xs| ==> key(xs[i]) != key(xs[j])
    requires x in xs && y in xs && x != y
    ensures key(x) != key(y)
  {
    var k :| 0 <= k < |xs| && xs[k] == x;
    var l :| 0 <= l < |xs| && xs[l] == y;
    assert key(xs[k]) != key(xs[l]);
  }

  /** When elements have distinct keys and only elements with equal keys can tie, `order` being `le` with ties
      settled by `tie`, sorting leaves no order to chance. */
  lemma SortStrict<T(!new), K>(le: (T, T) -> bool, tie: (T, T) -> bool, order: (T, T) -> bool, key: T -> K, xs: seq<T>)
    requires TotalPreorder(le) && Sorted(tie, xs)
    requires forall a, b :: order(a, b) <==> Before(le, tie, a, b)
    requires forall a, b :: order(a, b) && order(b, a) ==> key(a) == key(b)
    requires forall i, j :: 0 <= i < j < |xs| ==> key(xs[i]) != key(xs[j])
    ensures StrictlySorted(order, Sort(le, xs))
  {
    var sorted := Sort(le, xs);
    SortStable(le, tie, xs);
    SortMultiset(le, xs);
    SortElements(le, xs);
    assert NoDuplicates(xs);
    NoDuplicatesKept(xs, sorted);
    forall i, j | 0 <= i < j < |sorted|
      ensures order(sorted[i], sorted[j]) && !order(sorted[j], sorted[i])
    {
      assert Before(le, tie, sorted[i], sorted[j]);
      KeysDiffer(key, xs, sorted[i], sorted[j]);
    }
  }

  /** A set of elements has at most one strictly sorted enumeration. */
  lemma {:induction false} StrictlySortedUnique<T>(le: (T, T) -> bool, xs: seq<T>, ys: seq<T>)
    requires StrictlySorted(le, xs) && StrictlySorted(le, ys)
    requires forall x :: x in xs <==> x in ys
    ensures xs == ys
  {
    assert ys == [] || ys[0] in ys;
    if xs != [] {
      assert xs[0] in xs && xs[0] in ys;
      assert ys[0] in ys && ys[0] in xs;
      assert xs[0] == ys[0];
      forall x
        ensures x in xs[1..] <==> x in ys[1..]
      {
        TailMembership(le, xs, x);
        TailMembership(le, ys, x);
      }
      StrictlySortedUnique(le, xs[1..], ys[1..]);
      assert xs == [xs[0]] + xs[1..] && ys == [ys[0]] + ys[1..];
    }
  }

  lemma TailMembership<T>(le: (T, T) -> bool, xs: seq<T>, x: T)
    requires xs != [] && StrictlySorted(le, xs)
    ensures x in xs[1..] <==> x in xs && x != xs[0]
  {
    if x in xs && x != xs[0] {
      var i :| 0 <= i < |xs| && xs[i] == x;
      assert xs[1..][i - 1] == x;
    }
    if x in xs[1..] {
      var i :| 0 <= i < |xs[1..]| && xs[1..][i] == x;
      assert xs[i + 1] == x;
      assert le(xs[0], xs[i + 1]) && !le(xs[i + 1], xs[0]);
    }
  }
}
