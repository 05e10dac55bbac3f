/** Totals over finite sets of keys. A key the map does not hold counts as zero,
    as indexing a Go map does. */
module Sums {

  function At<K>(m: map<K, int>, k: K): int
  {
    if k in m then m[k] else 0
  }

  ghost function Total<K(!new)>(s: set<K>, m: map<K, int>): int
  {
    if s == {} then 0
    else
      var k :| k in s;
      At(m, k) + Total(s - {k}, m)
  }

  /** Any key may be taken out first: the total does not depend on an order. */
  lemma {:induction false} TotalTake<K(!new)>(s: set<K>, m: map<K, int>, k: K)
    requires k in s
    ensures Total(s, m) == At(m, k) + Total(s - {k}, m)
    decreases |s|
  {
    var j :| j in s && Total(s, m) == At(m, j) + Total(s - {j}, m);
    if j != k {
      TotalTake(s - {j}, m, k);
      TotalTake(s - {k}, m, j);
      assert s - {j} - {k} == s - {k} - {j};
    }
  }

  lemma TotalPut<K(!new)>(s: set<K>, m: map<K, int>, k: K)
    requires k !in s
    ensures Total(s + {k}, m) == At(m, k) + Total(s, m)
  {
    TotalTake(s + {k}, m, k);
    assert s + {k} - {k} == s;
  }

  /** Pointwise equal maps have equal totals. */
  lemma {:induction false} TotalSame<K(!new)>(s: set<K>, a: map<K, int>, b: map<K, int>)
    requires forall k :: k in s ==> At(a, k) == At(b, k)
    ensures Total(s, a) == Total(s, b)
    decreases |s|
  {
    if s != {} {
      var k :| k in s;
      TotalTake(s, a, k);
      TotalTake(s, b, k);
      TotalSame(s - {k}, a, b);
    }
  }

  /** A pointwise bound by two maps is a bound by the two totals. */
  lemma {:induction false} TotalBound<K(!new)>(s: set<K>, a: map<K, int>, b: map<K, int>, c: map<K, int>)
    requires forall k :: k in s ==> At(a, k) <= At(b, k) + At(c, k)
    ensures Total(s, a) <= Total(s, b) + Total(s, c)
    decreases |s|
  {
    if s != {} {
      var k :| k in s;
      TotalTake(s, a, k);
      TotalTake(s, b, k);
      TotalTake(s, c, k);
      TotalBound(s - {k}, a, b, c);
    }
  }

  /** Keys that count zero do not change a total. */
  lemma {:induction false} TotalIgnoresZero<K(!new)>(s: set<K>, t: set<K>, m: map<K, int>)
    requires t <= s
    requires forall k :: k in s && k !in t ==> At(m, k) == 0
    ensures Total(s, m) == Total(t, m)
    decreases |s|
  {
    if s != t {
      var k :| k in s && k !in t;
      TotalTake(s, m, k);
      TotalIgnoresZero(s - {k}, t, m);
    }
  }

  lemma {:induction false} TotalGrows<K(!new)>(t: set<K>, s: set<K>, m: map<K, int>)
    requires t <= s
    requires forall k :: k in s && k !in t ==> At(m, k) >= 0
    ensures Total(t, m) <= Total(s, m)
    decreases |s|
  {
    if s != t {
      var k :| k in s && k !in t;
      TotalTake(s, m, k);
      TotalGrows(t, s - {k}, m);
    }
  }

  /** The total of all values of a map. */
  ghost function Sum<K(!new)>(m: map<K, int>): int
  {
    Total(m.Keys, m)
  }

  lemma SumPut<K(!new)>(m: map<K, int>, k: K, x: int)
    ensures Sum(m[k := x]) == Sum(m) - At(m, k) + x
  {
    var rest := m.Keys - {k};
    assert m[k := x].Keys - {k} == rest;
    TotalTake(m[k := x].Keys, m[k := x], k);
    TotalSame(rest, m, m[k := x]);
    if k in m {
      TotalTake(m.Keys, m, k);
    } else {
      assert rest == m.Keys;
    }
  }

  lemma SumDrop<K(!new)>(m: map<K, int>, k: K)
    ensures Sum(m - {k}) == Sum(m) - At(m, k)
  {
    if k in m {
      SumPut(m - {k}, k, m[k]);
      assert (m - {k})[k := m[k]] == m;
    } else {
      assert m - {k} == m;
    }
  }

  /** Maps that add up key by key add up in total. */
  lemma SumSplits<K(!new)>(a: map<K, int>, b: map<K, int>, c: map<K, int>)
    requires forall k :: k in a || k in b || k in c ==> At(a, k) == At(b, k) + At(c, k)
    ensures Sum(a) == Sum(b) + Sum(c)
  {
    var u := a.Keys + b.Keys + c.Keys;
    TotalIgnoresZero(u, a.Keys, a);
    TotalIgnoresZero(u, b.Keys, b);
    TotalIgnoresZero(u, c.Keys, c);
    TotalAdds(u, a, b, c);
  }

  lemma {:induction false} TotalAdds<K(!new)>(s: set<K>, a: map<K, int>, b: map<K, int>, c: map<K, int>)
    requires forall k :: k in s ==> At(a, k) == At(b, k) + At(c, k)
    ensures Total(s, a) == Total(s, b) + Total(s, c)
    decreases |s|
  {
    if s != {} {
      var k :| k in s;
      TotalTake(s, a, k);
      TotalTake(s, b, k);
      TotalTake(s, c, k);
      TotalAdds(s - {k}, a, b, c);
    }
  }

  /** A map bounded key by key by two non-negative maps is bounded in total. */
  lemma SumBounded<K(!new)>(a: map<K, int>, b: map<K, int>, c: map<K, int>)
    requires forall k :: k in a ==> a[k] <= At(b, k) + At(c, k)
    requires forall k :: k in b ==> b[k] >= 0
    requires forall k :: k in c ==> c[k] >= 0
    ensures Sum(a) <= Sum(b) + Sum(c)
  {
    var u := a.Keys + b.Keys + c.Keys;
    TotalBound(a.Keys, a, b, c);
    TotalGrows(a.Keys, u, b);
    TotalGrows(a.Keys, u, c);
    TotalIgnoresZero(u, b.Keys, b);
    TotalIgnoresZero(u, c.Keys, c);
  }

  /** Two pairs of maps that agree key by key agree in total. */
  lemma SumsAgree<K(!new)>(a: map<K, int>, b: map<K, int>, c: map<K, int>, d: map<K, int>)
    requires forall k :: At(a, k) + At(b, k) == At(c, k) + At(d, k)
    ensures Sum(a) + Sum(b) == Sum(c) + Sum(d)
  {
    var both := map k | k in a.Keys + b.Keys + c.Keys + d.Keys :: At(a, k) + At(b, k);
    SumSplits(both, a, b);
    SumSplits(both, c, d);
  }
}
