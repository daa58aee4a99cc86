/** Sums over lists, total and by key, and their independence of the list's order. */
module Sums {

  function Sum<T>(f: T -> int, xs: seq<T>): int {
    if xs == [] then 0 else f(xs[0]) + Sum(f, xs[1..])
  }

  /** Sum of `f` over the elements of `xs` whose key is `k`. */
  function KeySum<T, K(==)>(key: T -> K, f: T -> int, k: K, xs: seq<T>): int {
    if xs == [] then 0
    else (if key(xs[0]) == k then f(xs[0]) else 0) + KeySum(key, f, k, xs[1..])
  }

  ghost predicate HasKey<T, K>(key: T -> K, k: K, xs: seq<T>) {
    exists x :: x in xs && key(x) == k
  }

  ghost predicate NoDuplicates<T>(xs: seq<T>) {
    forall i, j :: 0 <= i < j < |xs| ==> xs[i] != xs[j]
  }

  lemma {:induction false} SumConcat<T>(f: T -> int, xs: seq<T>, ys: seq<T>)
    ensures Sum(f, xs + ys) == Sum(f, xs) + Sum(f, ys)
  {
    if xs == [] {
      assert xs + ys == ys;
    } else {
      assert (xs + ys)[1..] == xs[1..] + ys;
      SumConcat(f, xs[1..], ys);
    }
  }

  lemma {:induction false} KeySumConcat<T, K>(key: T -> K, f: T -> int, k: K, xs: seq<T>, ys: seq<T>)
    ensures KeySum(key, f, k, xs + ys) == KeySum(key, f, k, xs) + KeySum(key, f, k, ys)
  {
    if xs == [] {
      assert xs + ys == ys;
    } else {
      assert (xs + ys)[1..] == xs[1..] + ys;
      KeySumConcat(key, f, k, xs[1..], ys);
    }
  }

  lemma SumSnoc<T>(f: T -> int, xs: seq<T>, x: T)
    ensures Sum(f, xs + [x]) == Sum(f, xs) + f(x)
  {
    SumConcat(f, xs, [x]);
    assert [x][1..] == [];
  }

  lemma KeySumSnoc<T, K>(key: T -> K, f: T -> int, k: K, xs: seq<T>, x: T)
    ensures KeySum(key, f, k, xs + [x]) == KeySum(key, f, k, xs) + if key(x) == k then f(x) else 0
  {
    KeySumConcat(key, f, k, xs, [x]);
    assert [x][1..] == [];
  }

  lemma HasKeySnoc<T, K>(key: T -> K, k: K, xs: seq<T>, x: T)
    ensures HasKey(key, k, xs + [x]) <==> HasKey(key, k, xs) || key(x) == k
  {
    assert x in xs + [x];
    assert forall y :: y in xs + [x] <==> y in xs || y == x;
  }

  lemma {:induction false} KeySumBounds<T, K>(key: T -> K, f: T -> int, k: K, xs: seq<T>)
    requires forall x :: x in xs ==> f(x) >= 0
    ensures 0 <= KeySum(key, f, k, xs) <= Sum(f, xs)
  {
    if xs != [] {
      KeySumBounds(key, f, k, xs[1..]);
    }
  }

  lemma {:induction false} KeySumAbsent<T, K>(key: T -> K, f: T -> int, k: K, xs: seq<T>)
    requires !HasKey(key, k, xs)
    ensures KeySum(key, f, k, xs) == 0
  {
    if xs != [] {
      assert xs[0] in xs;
      KeySumAbsent(key, f, k, xs[1..]);
    }
  }

  lemma {:induction false} KeySumLe<T, K, L>(key: T -> K, f: T -> int, k: K, key': T -> L, f': T -> int,
                                              k': L, xs: seq<T>)
    requires forall x :: x in xs ==>
               (if key(x) == k then f(x) else 0) <= (if key'(x) == k' then f'(x) else 0)
    ensures KeySum(key, f, k, xs) <= KeySum(key', f', k', xs)
  {
    if xs != [] {
      KeySumLe(key, f, k, key', f', k', xs[1..]);
    }
  }

  /** A sum of natural numbers over a prefix does not exceed the sum over the list. */
  lemma KeySumPrefix<T, K>(key: T -> K, f: T -> int, k: K, xs: seq<T>, i: nat)
    requires i <= |xs| && forall x :: x in xs ==> f(x) >= 0
    ensures KeySum(key, f, k, xs[..i]) <= KeySum(key, f, k, xs)
  {
    assert xs == xs[..i] + xs[i..];
    KeySumConcat(key, f, k, xs[..i], xs[i..]);
    KeySumBounds(key, f, k, xs[i..]);
  }

  /** `xs` without its element at `i`. */
  function Without<T>(xs: seq<T>, i: nat): seq<T>
    requires i < |xs|
  {
    xs[..i] + xs[i + 1..]
  }

  lemma SameMembers<T>(xs: seq<T>, ys: seq<T>)
    requires multiset(xs) == multiset(ys)
    ensures forall x :: x in xs <==> x in ys
  {
    forall x
      ensures x in xs <==> x in ys
    {
      assert x in multiset(xs) <==> x in multiset(ys);
    }
  }

  lemma WithoutMultiset<T>(xs: seq<T>, i: nat)
    requires i < |xs|
    ensures multiset(Without(xs, i)) == multiset(xs) - multiset{xs[i]}
  {
    assert xs == xs[..i] + [xs[i]] + xs[i + 1..];
  }

  lemma KeySumWithout<T, K>(key: T -> K, f: T -> int, k: K, ys: seq<T>, i: nat)
    requires i < |ys|
    ensures KeySum(key, f, k, ys) == KeySum(key, f, k, Without(ys, i)) + if key(ys[i]) == k then f(ys[i]) else 0
  {
    var before, from := ys[..i], ys[i..];
    assert ys == before + from;
    KeySumConcat(key, f, k, before, from);
    assert from[1..] == ys[i + 1..];
    KeySumConcat(key, f, k, before, from[1..]);
  }

  lemma {:induction false} KeySumPermutation<T, K>(key: T -> K, f: T -> int, k: K, xs: seq<T>, ys: seq<T>)
    requires multiset(xs) == multiset(ys)
    ensures KeySum(key, f, k, xs) == KeySum(key, f, k, ys)
  {
    if xs == [] {
      assert |multiset(xs)| == |multiset(ys)|;
    } else {
      assert xs == [xs[0]] + xs[1..];
      assert xs[0] in multiset(ys);
      var i :| 0 <= i < |ys| && ys[i] == xs[0];
      WithoutMultiset(ys, i);
      assert multiset(xs[1..]) == multiset(Without(ys, i));
      KeySumPermutation(key, f, k, xs[1..], Without(ys, i));
      KeySumWithout(key, f, k, ys, i);
    }
  }

  /** A sum is the sum for the one key of everything. */
  lemma {:induction false} SumIsKeySum<T>(f: T -> int, xs: seq<T>)
    ensures Sum(f, xs) == KeySum((x: T) => (), f, (), xs)
  {
    if xs != [] {
      SumIsKeySum(f, xs[1..]);
    }
  }

  lemma SumPermutation<T>(f: T -> int, xs: seq<T>, ys: seq<T>)
    requires multiset(xs) == multiset(ys)
    ensures Sum(f, xs) == Sum(f, ys)
  {
    SumIsKeySum(f, xs);
    SumIsKeySum(f, ys);
    KeySumPermutation((x: T) => (), f, (), xs, ys);
  }

  function KeySums<T, K(==)>(key: T -> K, f: T -> int, xs: seq<T>): K -> int {
    k => KeySum(key, f, k, xs)
  }

  function Indicator<K(==)>(k: K, v: int): K -> int {
    (k': K) => if k' == k then v else 0
  }

  lemma {:induction false} SumIndicator<K>(k: K, v: int, ks: seq<K>)
    requires NoDuplicates(ks)
    ensures Sum(Indicator(k, v), ks) == if k in ks then v else 0
  {
    if ks != [] {
      SumIndicator(k, v, ks[1..]);
    }
  }

  lemma {:induction false} SumPointwise<K>(f: K -> int, g: K -> int, h: K -> int, ks: seq<K>)
    requires forall k :: k in ks ==> f(k) == g(k) + h(k)
    ensures Sum(f, ks) == Sum(g, ks) + Sum(h, ks)
  {
    if ks != [] {
      SumPointwise(f, g, h, ks[1..]);
    }
  }

  lemma {:induction false} SumZero<K>(f: K -> int, ks: seq<K>)
    requires forall k :: k in ks ==> f(k) == 0
    ensures Sum(f, ks) == 0
  {
    if ks != [] {
      SumZero(f, ks[1..]);
    }
  }

  lemma {:induction false} SumCongruence<S, T>(f: S -> int, xs: seq<S>, g: T -> int, ys: seq<T>)
    requires |xs| == |ys| && forall i :: 0 <= i < |xs| ==> f(xs[i]) == g(ys[i])
    ensures Sum(f, xs) == Sum(g, ys)
  {
    if xs != [] {
      assert forall i :: 0 <= i < |xs[1..]| ==> xs[1..][i] == xs[i + 1] && ys[1..][i] == ys[i + 1];
      SumCongruence(f, xs[1..], g, ys[1..]);
    }
  }

  lemma {:induction false} SumNonNegative<T>(f: T -> int, xs: seq<T>)
    requires forall x :: x in xs ==> f(x) >= 0
    ensures Sum(f, xs) >= 0
    ensures forall x :: x in xs ==> f(x) <= Sum(f, xs)
  {
    if xs != [] {
      SumNonNegative(f, xs[1..]);
    }
  }

  /** Conservation: splitting a list by key and summing each part loses and invents nothing, as long as the
      keys of everything that counts are listed once. */
  lemma {:induction false} SumByKey<T, K>(key: T -> K, f: T -> int, ks: seq<K>, xs: seq<T>)
    requires NoDuplicates(ks) && forall x :: x in xs && f(x) != 0 ==> key(x) in ks
    ensures Sum(KeySums(key, f, xs), ks) == Sum(f, xs)
  {
    if xs == [] {
      SumZero(KeySums(key, f, xs), ks);
    } else {
      assert xs[0] in xs;
      SumByKey(key, f, ks, xs[1..]);
      SumIndicator(key(xs[0]), f(xs[0]), ks);
      SumPointwise(KeySums(key, f, xs), Indicator(key(xs[0]), f(xs[0])), KeySums(key, f, xs[1..]), ks);
    }
  }

  lemma TwiceCounted<T>(ys: seq<T>, i: nat, j: nat)
    requires i < j < |ys| && ys[i] == ys[j]
    ensures multiset(ys)[ys[i]] >= 2
  {
    assert ys == ys[..i] + [ys[i]] + ys[i + 1..j] + [ys[j]] + ys[j + 1..];
  }

  lemma {:induction false} AtMostOnce<T>(xs: seq<T>, x: T)
    requires NoDuplicates(xs)
    ensures multiset(xs)[x] <= 1
  {
    if xs != [] {
      assert xs == [xs[0]] + xs[1..];
      AtMostOnce(xs[1..], x);
      if x == xs[0] {
        assert x !in xs[1..];
      }
    }
  }

  lemma NoDuplicatesKept<T>(xs: seq<T>, ys: seq<T>)
    requires NoDuplicates(xs) && multiset(xs) == multiset(ys)
    ensures NoDuplicates(ys)
  {
    forall i, j | 0 <= i < j < |ys|
      ensures ys[i] != ys[j]
    {
      AtMostOnce(xs, ys[i]);
      if ys[i] == ys[j] {
        TwiceCounted(ys, i, j);
      }
    }
  }

  // ------------------------------------------------------------ flat_map

  function FlatMap<T, U>(f: T -> seq<U>, xs: seq<T>): seq<U> {
    if xs == [] then [] else f(xs[0]) + FlatMap(f, xs[1..])
  }

  lemma {:induction false} FlatMapConcat<T, U>(f: T -> seq<U>, xs: seq<T>, ys: seq<T>)
    ensures FlatMap(f, xs + ys) == FlatMap(f, xs) + FlatMap(f, ys)
  {
    if xs == [] {
      assert xs + ys == ys;
    } else {
      assert (xs + ys)[1..] == xs[1..] + ys;
      FlatMapConcat(f, xs[1..], ys);
    }
  }

  lemma FlatMapSnoc<T, U>(f: T -> seq<U>, xs: seq<T>, x: T)
    ensures FlatMap(f, xs + [x]) == FlatMap(f, xs) + f(x)
  {
    FlatMapConcat(f, xs, [x]);
    assert [x][1..] == [];
    assert FlatMap(f, [x]) == f(x);
  }

  lemma FlatMapSplit<T, U>(f: T -> seq<U>, ys: seq<T>, i: nat)
    requires i < |ys|
    ensures FlatMap(f, ys) == FlatMap(f, ys[..i]) + (f(ys[i]) + FlatMap(f, ys[i + 1..]))
  {
    assert ys == ys[..i] + ys[i..];
    FlatMapConcat(f, ys[..i], ys[i..]);
    assert ys[i..][1..] == ys[i + 1..];
  }

  lemma FlatMapWithout<T, U>(f: T -> seq<U>, ys: seq<T>, i: nat)
    requires i < |ys|
    ensures multiset(FlatMap(f, ys)) == multiset(f(ys[i])) + multiset(FlatMap(f, Without(ys, i)))
  {
    FlatMapSplit(f, ys, i);
    FlatMapConcat(f, ys[..i], ys[i + 1..]);
  }

  lemma {:induction false} FlatMapPermutation<T, U>(f: T -> seq<U>, xs: seq<T>, ys: seq<T>)
    requires multiset(xs) == multiset(ys)
    ensures multiset(FlatMap(f, xs)) == multiset(FlatMap(f, ys))
  {
    if xs == [] {
      assert |multiset(xs)| == |multiset(ys)|;
    } else {
      assert xs == [xs[0]] + xs[1..];
      assert xs[0] in multiset(ys);
      var i :| 0 <= i < |ys| && ys[i] == xs[0];
      WithoutMultiset(ys, i);
      assert multiset(xs[1..]) == multiset(Without(ys, i));
      FlatMapPermutation(f, xs[1..], Without(ys, i));
      FlatMapWithout(f, ys, i);
    }
  }

  lemma {:induction false} FlatMapPointwise<S, T, U>(f: S -> seq<U>, xs: seq<S>, g: T -> seq<U>, ys: seq<T>)
    requires |xs| == |ys| && forall i :: 0 <= i < |xs| ==> multiset(f(xs[i])) == multiset(g(ys[i]))
    ensures multiset(FlatMap(f, xs)) == multiset(FlatMap(g, ys))
  {
    if xs != [] {
      assert forall i :: 0 <= i < |xs[1..]| ==> xs[1..][i] == xs[i + 1] && ys[1..][i] == ys[i + 1];
      FlatMapPointwise(f, xs[1..], g, ys[1..]);
    }
  }

  /** Doing one flat_map after another is one flat_map of the composition. */
  lemma {:induction false} FlatMapCompose<T, U, V>(g: U -> seq<V>, f: T -> seq<U>, h: T -> seq<V>, xs: seq<T>)
    requires forall x :: x in xs ==> h(x) == FlatMap(g, f(x))
    ensures FlatMap(g, FlatMap(f, xs)) == FlatMap(h, xs)
  {
    if xs != [] {
      FlatMapCompose(g, f, h, xs[1..]);
      FlatMapConcat(g, f(xs[0]), FlatMap(f, xs[1..]));
    }
  }

  lemma {:induction false} FlatMapMembers<T, U>(f: T -> seq<U>, xs: seq<T>, u: U)
    ensures u in FlatMap(f, xs) <==> exists x :: x in xs && u in f(x)
  {
    if xs != [] {
      FlatMapMembers(f, xs[1..], u);
      assert xs == [xs[0]] + xs[1..];
      assert xs[0] in xs;
    }
  }

  lemma {:induction false} FlatMapNothing<T, U>(f: T -> seq<U>, xs: seq<T>)
    requires forall x :: x in xs ==> f(x) == []
    ensures FlatMap(f, xs) == []
  {
    if xs != [] {
      FlatMapNothing(f, xs[1..]);
    }
  }

  lemma {:induction false} FlatMapSame<T, U>(f: T -> seq<U>, g: T -> seq<U>, xs: seq<T>)
    requires forall x :: x in xs ==> f(x) == g(x)
    ensures FlatMap(f, xs) == FlatMap(g, xs)
  {
    if xs != [] {
      FlatMapSame(f, g, xs[1..]);
    }
  }

  /** What is summed over a flat_map is summed part by part. */
  lemma {:induction false} SumFlatMap<T, U>(g: U -> int, f: T -> seq<U>, h: T -> int, xs: seq<T>)
    requires forall x :: x in xs ==> h(x) == Sum(g, f(x))
    ensures Sum(g, FlatMap(f, xs)) == Sum(h, xs)
  {
    if xs != [] {
      SumFlatMap(g, f, h, xs[1..]);
      SumConcat(g, f(xs[0]), FlatMap(f, xs[1..]));
    }
  }

  // ------------------------------------------------------------ filter

  function Filter<T>(p: T -> bool, xs: seq<T>): seq<T> {
    if xs == [] then []
    else if p(xs[0]) then [xs[0]] + Filter(p, xs[1..])
    else Filter(p, xs[1..])
  }

  lemma {:induction false} FilterConcat<T>(p: T -> bool, xs: seq<T>, ys: seq<T>)
    ensures Filter(p, xs + ys) == Filter(p, xs) + Filter(p, ys)
  {
    if xs == [] {
      assert xs + ys == ys;
    } else {
      assert (xs + ys)[1..] == xs[1..] + ys;
      FilterConcat(p, xs[1..], ys);
      assert [xs[0]] + (Filter(p, xs[1..]) + Filter(p, ys)) == ([xs[0]] + Filter(p, xs[1..])) + Filter(p, ys);
    }
  }

  lemma FilterSnoc<T>(p: T -> bool, xs: seq<T>, x: T)
    ensures Filter(p, xs + [x]) == if p(x) then Filter(p, xs) + [x] else Filter(p, xs)
  {
    FilterConcat(p, xs, [x]);
    assert [x][1..] == [];
  }

  lemma {:induction false} FilterMembers<T>(p: T -> bool, xs: seq<T>, x: T)
    ensures x in Filter(p, xs) <==> x in xs && p(x)
  {
    if xs != [] {
      FilterMembers(p, xs[1..], x);
      assert xs == [xs[0]] + xs[1..];
    }
  }

  lemma {:induction false} FilterMultiset<T>(p: T -> bool, xs: seq<T>, x: T)
    ensures multiset(Filter(p, xs))[x] == if p(x) then multiset(xs)[x] else 0
  {
    if xs != [] {
      FilterMultiset(p, xs[1..], x);
      assert xs == [xs[0]] + xs[1..];
    }
  }

  lemma {:induction false} FilterNone<T>(p: T -> bool, xs: seq<T>)
    requires forall x :: x in xs ==> !p(x)
    ensures Filter(p, xs) == []
  {
    if xs != [] {
      FilterNone(p, xs[1..]);
    }
  }

  lemma {:induction false} FilterAll<T>(p: T -> bool, xs: seq<T>)
    requires forall x :: x in xs ==> p(x)
    ensures Filter(p, xs) == xs
  {
    if xs != [] {
      FilterAll(p, xs[1..]);
    }
  }

  lemma {:induction false} FilterOne<T>(p: T -> bool, xs: seq<T>, i: nat)
    requires i < |xs| && forall j :: 0 <= j < |xs| ==> (p(xs[j]) <==> j == i)
    ensures Filter(p, xs) == [xs[i]]
  {
    if i == 0 {
      forall x | x in xs[1..]
        ensures !p(x)
      {
        var j :| 1 <= j < |xs| && xs[j] == x;
      }
      FilterNone(p, xs[1..]);
    } else {
      FilterOne(p, xs[1..], i - 1);
    }
  }

  /** Filtering by a weaker condition first changes nothing. */
  lemma {:induction false} FilterTwice<T>(p: T -> bool, q: T -> bool, xs: seq<T>)
    requires forall x :: x in xs && p(x) ==> q(x)
    ensures Filter(p, Filter(q, xs)) == Filter(p, xs)
  {
    if xs != [] {
      FilterTwice(p, q, xs[1..]);
      assert ([xs[0]] + Filter(q, xs[1..]))[1..] == Filter(q, xs[1..]);
    }
  }

  lemma {:induction false} FilterCommutes<T>(p: T -> bool, q: T -> bool, xs: seq<T>)
    ensures Filter(p, Filter(q, xs)) == Filter(q, Filter(p, xs))
  {
    if xs != [] {
      FilterCommutes(p, q, xs[1..]);
      assert ([xs[0]] + Filter(q, xs[1..]))[1..] == Filter(q, xs[1..]);
      assert ([xs[0]] + Filter(p, xs[1..]))[1..] == Filter(p, xs[1..]);
    }
  }

  /** Filtering a flat_map is the flat_map of the filtered list, when each element's images agree with it. */
  lemma {:induction false} FilterFlatMap<T, U>(p: U -> bool, f: T -> seq<U>, q: T -> bool, xs: seq<T>)
    requires forall x, u :: x in xs && u in f(x) ==> (p(u) <==> q(x))
    ensures Filter(p, FlatMap(f, xs)) == FlatMap(f, Filter(q, xs))
  {
    if xs != [] {
      FilterFlatMap(p, f, q, xs[1..]);
      FilterConcat(p, f(xs[0]), FlatMap(f, xs[1..]));
      if q(xs[0]) {
        FilterAll(p, f(xs[0]));
        assert ([xs[0]] + Filter(q, xs[1..]))[1..] == Filter(q, xs[1..]);
      } else {
        FilterNone(p, f(xs[0]));
      }
    }
  }

  // ------------------------------------------------------------ sums over sets

  /** Sum of `f` over a set, taken in some order. */
  ghost function SetSum<K>(f: K -> int, ks: set<K>): int {
    if ks == {} then 0 else var k :| k in ks; f(k) + SetSum(f, ks - {k})
  }

  /** The order does not matter: any element may come first. */
  lemma {:induction false} SetSumTake<K>(f: K -> int, ks: set<K>, k: K)
    requires k in ks
    ensures SetSum(f, ks) == f(k) + SetSum(f, ks - {k})
  {
    var first :| first in ks && SetSum(f, ks) == f(first) + SetSum(f, ks - {first});
    if first != k {
      SetSumTake(f, ks - {first}, k);
      SetSumTake(f, ks - {k}, first);
      assert ks - {first} - {k} == ks - {k} - {first};
    }
  }

  lemma {:induction false} SetSumPointwise<K>(f: K -> int, g: K -> int, h: K -> int, ks: set<K>)
    requires forall k :: k in ks ==> f(k) == g(k) + h(k)
    ensures SetSum(f, ks) == SetSum(g, ks) + SetSum(h, ks)
  {
    if ks != {} {
      var k :| k in ks;
      SetSumTake(f, ks, k);
      SetSumTake(g, ks, k);
      SetSumTake(h, ks, k);
      SetSumPointwise(f, g, h, ks - {k});
    }
  }

  lemma {:induction false} SetSumSame<K>(f: K -> int, g: K -> int, ks: set<K>)
    requires forall k :: k in ks ==> f(k) == g(k)
    ensures SetSum(f, ks) == SetSum(g, ks)
  {
    if ks != {} {
      var k :| k in ks;
      SetSumTake(f, ks, k);
      SetSumTake(g, ks, k);
      SetSumSame(f, g, ks - {k});
    }
  }

  lemma {:induction false} SetSumNonNegative<K>(f: K -> int, ks: set<K>)
    requires forall k :: k in ks ==> f(k) >= 0
    ensures SetSum(f, ks) >= 0
    ensures SetSum(f, ks) == 0 <==> forall k :: k in ks ==> f(k) == 0
  {
    if ks != {} {
      var k :| k in ks;
      SetSumTake(f, ks, k);
      SetSumNonNegative(f, ks - {k});
    }
  }
}
