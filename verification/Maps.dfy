/** Sums over the values of a dictionary. */
module Maps {
  import opened Arithmetic

  ghost function SumBy<K, V>(m: map<K, V>, f: V -> int): int {
    if m == map[] then 0 else
      var k :| k in m;
      f(m[k]) + SumBy(m - {k}, f)
  }

  /** The sum does not depend on the order in which keys are taken out. */
  lemma {:induction false} SumRemove<K, V>(m: map<K, V>, f: V -> int, k: K)
    requires k in m
    ensures SumBy(m, f) == f(m[k]) + SumBy(m - {k}, f)
  {
    var j :| j in m && SumBy(m, f) == f(m[j]) + SumBy(m - {j}, f);
    if j != k {
      SumRemove(m - {j}, f, k);
      SumRemove(m - {k}, f, j);
      assert m - {j} - {k} == m - {k} - {j};
    }
  }

  lemma SumPut<K, V>(m: map<K, V>, f: V -> int, k: K, v: V)
    ensures SumBy(m[k := v], f) == SumBy(m, f) + f(v) - if k in m then f(m[k]) else 0
  {
    var n := m[k := v];
    SumRemove(n, f, k);
    assert n - {k} == m - {k};
    if k in m {
      SumRemove(m, f, k);
    } else {
      assert m - {k} == m;
    }
  }

  lemma {:induction false} SumBounds<K, V>(m: map<K, V>, f: V -> int, most: nat)
    requires forall k :: k in m ==> 0 <= f(m[k]) <= most
    ensures 0 <= SumBy(m, f) <= Copies(|m|, most)
  {
    if m != map[] {
      var k :| k in m && SumBy(m, f) == f(m[k]) + SumBy(m - {k}, f);
      SumBounds(m - {k}, f, most);
      OneKeyLess(m, k);
    }
  }

  lemma OneKeyLess<K, V>(m: map<K, V>, k: K)
    requires k in m
    ensures |m| == |m - {k}| + 1
  {
    assert m.Keys == (m - {k}).Keys + {k};
  }

  /** The sum depends on the values only through what is summed. */
  lemma {:induction false} SumSame<K, V>(m: map<K, V>, n: map<K, V>, f: V -> int)
    requires m.Keys == n.Keys && forall k :: k in m ==> f(m[k]) == f(n[k])
    ensures SumBy(m, f) == SumBy(n, f)
  {
    if m != map[] {
      var k :| k in m;
      SumRemove(m, f, k);
      SumRemove(n, f, k);
      SumSame(m - {k}, n - {k}, f);
    }
  }

  /** The keys of a dictionary in some order, each once. */
  method ListKeys<K(==), V>(m: map<K, V>) returns (keys: seq<K>)
    ensures |keys| == |m| && forall k :: k in keys <==> k in m
    ensures forall i, j :: 0 <= i < j < |keys| ==> keys[i] != keys[j]
  {
    keys := [];
    var rest := m.Keys;
    while rest != {}
      invariant rest <= m.Keys && |keys| + |rest| == |m.Keys|
      invariant forall k :: k in keys <==> k in m && k !in rest
      invariant forall i, j :: 0 <= i < j < |keys| ==> keys[i] != keys[j]
      decreases |rest|
    {
      var k :| k in rest;
      keys := keys + [k];
      rest := rest - {k};
    }
  }

  /** As many different elements as places, when nothing is repeated. */
  lemma {:induction false} DistinctSize<K>(keys: seq<K>)
    requires forall i, j :: 0 <= i < j < |keys| ==> keys[i] != keys[j]
    ensures |(set k | k in keys)| == |keys|
  {
    if keys != [] {
      var n := |keys| - 1;
      DistinctSize(keys[..n]);
      assert (set k | k in keys) == (set k | k in keys[..n]) + {keys[n]};
    }
  }

  lemma PartSize<K, V>(m: map<K, V>, gone: set<K>)
    requires gone <= m.Keys
    ensures |m| - |m - gone| == |gone|
  {
    assert m.Keys == (m - gone).Keys + gone;
  }

  lemma RemoveTwice<K, V>(m: map<K, V>, a: set<K>, b: set<K>)
    ensures m - a - b == m - (a + b)
  {
  }

  lemma RemoveOne<K, V>(m: map<K, V>, k: K)
    ensures |m - {k}| == |m| - if k in m then 1 else 0
  {
    if k in m {
      OneKeyLess(m, k);
    } else {
      assert m - {k} == m;
    }
  }
}
