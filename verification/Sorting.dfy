/** Sorting by a real-valued key, as Python's stable sort does it, and index sorting. */
module Sorting {

  ghost predicate SortedBy<T>(xs: seq<T>, key: T -> real) {
    forall i, j :: 0 <= i < j < |xs| ==> key(xs[i]) <= key(xs[j])
  }

  /** x placed behind every element whose key is not larger. */
  function InsertBy<T>(x: T, xs: seq<T>, key: T -> real): seq<T> {
    if xs == [] then [x]
    else if key(xs[|xs| - 1]) <= key(x) then xs + [x]
    else InsertBy(x, xs[..|xs| - 1], key) + [xs[|xs| - 1]]
  }

  function SortBy<T>(xs: seq<T>, key: T -> real): seq<T> {
    if xs == [] then [] else InsertBy(xs[|xs| - 1], SortBy(xs[..|xs| - 1], key), key)
  }

  /** The elements of one key, in their order. */
  ghost function WithKey<T>(xs: seq<T>, key: T -> real, k: real): seq<T> {
    if xs == [] then []
    else
      var rest := WithKey(xs[..|xs| - 1], key, k);
      if key(xs[|xs| - 1]) == k then rest + [xs[|xs| - 1]] else rest
  }

  lemma {:induction false} InsertAdds<T>(x: T, xs: seq<T>, key: T -> real)
    ensures multiset(InsertBy(x, xs, key)) == multiset(xs) + multiset{x}
  {
    if xs != [] {
      var n := |xs| - 1;
      assert xs == xs[..n] + [xs[n]];
      if key(xs[n]) > key(x) {
        InsertAdds(x, xs[..n], key);
      }
    }
  }

  lemma {:induction false} InsertSorts<T>(x: T, xs: seq<T>, key: T -> real)
    requires SortedBy(xs, key)
    ensures SortedBy(InsertBy(x, xs, key), key)
  {
    if xs != [] && key(xs[|xs| - 1]) > key(x) {
      var n := |xs| - 1;
      InsertSorts(x, xs[..n], key);
      var r := InsertBy(x, xs[..n], key);
      forall i | 0 <= i < |r| ensures key(r[i]) <= key(xs[n]) {
        InsertAdds(x, xs[..n], key);
        assert r[i] in multiset(r);
        assert r[i] in xs[..n] || r[i] == x;
      }
    }
  }

  lemma {:induction false} InsertKeepsClasses<T>(x: T, xs: seq<T>, key: T -> real, k: real)
    ensures WithKey(InsertBy(x, xs, key), key, k) == WithKey(xs, key, k) + if key(x) == k then [x] else []
  {
    if xs != [] {
      var n := |xs| - 1;
      if key(xs[n]) <= key(x) {
        assert (xs + [x])[..n + 1] == xs;
      } else {
        InsertKeepsClasses(x, xs[..n], key, k);
        var r := InsertBy(x, xs[..n], key);
        assert (r + [xs[n]])[..|r|] == r;
      }
    } else {
      assert [x][..0] == [];
    }
  }

  /** SortBy is a stable sort: a permutation in key order that keeps equal keys in order. */
  lemma {:induction false} SortByIsStable<T>(xs: seq<T>, key: T -> real)
    ensures SortedBy(SortBy(xs, key), key)
    ensures multiset(SortBy(xs, key)) == multiset(xs)
    ensures forall k :: WithKey(SortBy(xs, key), key, k) == WithKey(xs, key, k)
  {
    if xs != [] {
      var n := |xs| - 1;
      assert xs == xs[..n] + [xs[n]];
      var ys := SortBy(xs[..n], key);
      SortByIsStable(xs[..n], key);
      InsertAdds(xs[n], ys, key);
      InsertSorts(xs[n], ys, key);
      forall k ensures WithKey(SortBy(xs, key), key, k) == WithKey(xs, key, k) {
        InsertKeepsClasses(xs[n], ys, key, k);
      }
    }
  }

  lemma SortByElements<T>(xs: seq<T>, key: T -> real)
    ensures |SortBy(xs, key)| == |xs|
    ensures forall x :: x in SortBy(xs, key) <==> x in xs
  {
    SortByIsStable(xs, key);
    var ys := SortBy(xs, key);
    assert |ys| == |multiset(ys)| && |xs| == |multiset(xs)|;
    assert forall x :: x in ys <==> x in multiset(ys);
    assert forall x :: x in xs <==> x in multiset(xs);
  }

  function Elements<T>(xs: seq<T>): set<T> {
    set x | x in xs
  }

  ghost predicate Distinct<T>(xs: seq<T>) {
    forall i, j :: 0 <= i < j < |xs| ==> xs[i] != xs[j]
  }

  ghost predicate IsPermutation(order: seq<int>) {
    Distinct(order) && forall i :: 0 <= i < |order| ==> 0 <= order[i] < |order|
  }

  /** An index sequence that lists all positions of `values` by non-decreasing value. */
  ghost predicate IsArgsort(order: seq<int>, values: seq<real>) {
    && |order| == |values| && IsPermutation(order)
    && forall i, j :: 0 <= i < j < |order| ==> values[order[i]] <= values[order[j]]
  }

  lemma DistinctPerm<T>(xs: seq<T>, ys: seq<T>)
    requires Distinct(xs) && multiset(xs) == multiset(ys)
    ensures Distinct(ys)
  {
    forall i, j | 0 <= i < j < |ys| ensures ys[i] != ys[j] {
      if ys[i] == ys[j] {
        assert ys == ys[..i] + [ys[i]] + ys[i + 1..j] + [ys[j]] + ys[j + 1..];
        assert multiset(ys)[ys[i]] >= 2;
        DistinctCount(xs, ys[i]);
      }
    }
  }

  lemma {:induction false} DistinctCount<T>(xs: seq<T>, x: T)
    requires Distinct(xs)
    ensures multiset(xs)[x] <= 1
  {
    if xs != [] {
      var n := |xs| - 1;
      assert xs == xs[..n] + [xs[n]];
      DistinctCount(xs[..n], x);
      if x == xs[n] {
        assert x !in xs[..n];
      }
    }
  }

  function Argsort(values: seq<real>): (order: seq<int>)
  {
    SortBy(seq(|values|, i => i), (i: int) => if 0 <= i < |values| then values[i] else 0.0)
  }

  lemma ArgsortSorts(values: seq<real>)
    ensures IsArgsort(Argsort(values), values)
  {
    var ids: seq<int> := seq(|values|, i => i);
    var key := (i: int) => if 0 <= i < |values| then values[i] else 0.0;
    SortByIsStable(ids, key);
    SortByElements(ids, key);
    DistinctPerm(ids, SortBy(ids, key));
    var order := Argsort(values);
    assert forall i :: 0 <= i < |order| ==> order[i] in ids;
    forall i, j | 0 <= i < j < |order| ensures values[order[i]] <= values[order[j]] {
      assert key(order[i]) <= key(order[j]);
    }
  }

  // ----- argsort of a permutation

  lemma {:induction false} IncreasingFloor(s: seq<int>, i: nat)
    requires i < |s| && (forall j, k :: 0 <= j < k < |s| ==> s[j] < s[k]) && s[0] >= 0
    ensures s[i] >= i
  {
    if i > 0 {
      IncreasingFloor(s, i - 1);
    }
  }

  lemma {:induction false} IncreasingCeiling(s: seq<int>, i: nat)
    requires i < |s| && (forall j, k :: 0 <= j < k < |s| ==> s[j] < s[k]) && s[|s| - 1] < |s|
    ensures s[i] <= i
    decreases |s| - i
  {
    if i + 1 < |s| {
      IncreasingCeiling(s, i + 1);
    }
  }

  /** Whatever index sort is used, argsort of a permutation is its inverse. */
  lemma ArgsortInverts(order: seq<int>, inverse: seq<int>)
    requires IsPermutation(order)
    requires IsArgsort(inverse, seq(|order|, i requires 0 <= i < |order| => order[i] as real))
    ensures forall i :: 0 <= i < |order| ==> order[inverse[i]] == i && inverse[order[i]] == i
  {
    var s := seq(|order|, i requires 0 <= i < |order| => order[inverse[i]]);
    forall j, k | 0 <= j < k < |s| ensures s[j] < s[k] {
      assert inverse[j] != inverse[k];
      assert order[inverse[j]] as real <= order[inverse[k]] as real;
    }
    forall i | 0 <= i < |order| ensures order[inverse[i]] == i {
      IncreasingFloor(s, i);
      IncreasingCeiling(s, i);
    }
    forall i | 0 <= i < |order| ensures inverse[order[i]] == i {
      var k := order[i];
      assert order[inverse[k]] == k;
    }
  }
}
