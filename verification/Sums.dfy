/** Sums of natural numbers over the entries of a finite map, and sizes of finite sets. */
module Sums {

  ghost function SumMap<K(!new)>(m: map<K, nat>): nat
  {
    if m == map[] then 0
    else
      var k :| k in m;
      m[k] + SumMap(m - {k})
  }

  lemma {:induction false} SumMapWithout<K(!new)>(m: map<K, nat>, k: K)
    requires k in m
    ensures SumMap(m) == m[k] + SumMap(m - {k})
    decreases |m|
  {
    var c :| c in m && SumMap(m) == m[c] + SumMap(m - {c});
    if c != k {
      SumMapWithout(m - {c}, k);
      SumMapWithout(m - {k}, c);
      assert m - {c} - {k} == m - {k} - {c};
    }
  }

  lemma SumMapUpdate<K(!new)>(m: map<K, nat>, k: K, v: nat)
    ensures SumMap(m[k := v]) + (if k in m then m[k] else 0) == SumMap(m) + v
  {
    SumMapWithout(m[k := v], k);
    assert m[k := v] - {k} == m - {k};
    if k in m {
      SumMapWithout(m, k);
    } else {
      assert m - {k} == m;
    }
  }

  lemma OneMore(cap: nat, n: nat, n': nat)
    requires n' == n + 1
    ensures cap * n' == cap * n + cap
  {
  }

  lemma {:induction false} SumMapBound<K(!new)>(m: map<K, nat>, cap: nat)
    requires forall k | k in m :: m[k] <= cap
    ensures SumMap(m) <= cap * |m|
    decreases |m|
  {
    if m != map[] {
      var k :| k in m && SumMap(m) == m[k] + SumMap(m - {k});
      assert m.Keys == (m - {k}).Keys + {k};
      SumMapBound(m - {k}, cap);
      OneMore(cap, |m - {k}|, |m|);
    }
  }

  lemma SumMapInsert<K(!new)>(m: map<K, nat>, k: K, v: nat, cap: nat)
    requires k !in m && forall x | x in m :: m[x] <= cap
    ensures SumMap(m[k := v]) <= cap * |m| + v
    ensures |m[k := v]| == |m| + 1
  {
    SumMapUpdate(m, k, v);
    SumMapBound(m, cap);
    assert m[k := v].Keys == m.Keys + {k};
  }

  lemma SubsetSize<T>(a: set<T>, b: set<T>)
    requires a <= b
    ensures |a| <= |b|
  {
    assert b == a + (b - a);
  }

  lemma WithSize<T>(a: set<T>, x: T)
    ensures |a + {x}| == if x in a then |a| else |a| + 1
  {
    if x in a {
      assert a + {x} == a;
    }
  }
}
