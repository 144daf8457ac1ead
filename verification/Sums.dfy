/** Finite sums over mappings, sets and lists of keys. */
module Sums {
  import opened Primitives

  /** The sum of all values of a mapping. */
  ghost function SumMap<K>(m: map<K, nat>): nat
    decreases m.Keys
  {
    if m.Keys == {} then 0 else
      var k :| k in m.Keys;
      m[k] + SumMap(m - {k})
  }

  lemma {:induction false} SumWithout<K>(m: map<K, nat>, k: K)
    requires k in m
    ensures SumMap(m) == m[k] + SumMap(m - {k})
    decreases m.Keys
  {
    var j :| j in m.Keys && SumMap(m) == m[j] + SumMap(m - {j});
    if j != k {
      SumWithout(m - {j}, k);
      SumWithout(m - {k}, j);
      assert m - {j} - {k} == m - {k} - {j};
    }
  }

  /** Storing a value changes the sum by exactly the difference. */
  lemma SumUpdate<K>(m: map<K, nat>, k: K, v: nat)
    ensures SumMap(m[k := v]) == SumMap(m) - Lookup(m, k) + v
  {
    SumWithout(m[k := v], k);
    assert m[k := v] - {k} == m - {k};
    if k in m {
      SumWithout(m, k);
    } else {
      assert m - {k} == m;
    }
  }

  /** No single value exceeds the sum. */
  lemma LookupWithinSum<K>(m: map<K, nat>, k: K)
    ensures Lookup(m, k) <= SumMap(m)
  {
    if k in m {
      SumWithout(m, k);
    }
  }

  /** The sum of f over a set of keys. */
  ghost function SumSet<K>(s: set<K>, f: map<K, nat>): nat
    decreases s
  {
    if s == {} then 0 else
      var k :| k in s;
      Lookup(f, k) + SumSet(s - {k}, f)
  }

  lemma {:induction false} SumSetWithout<K>(s: set<K>, f: map<K, nat>, k: K)
    requires k in s
    ensures SumSet(s, f) == Lookup(f, k) + SumSet(s - {k}, f)
    decreases s
  {
    var j :| j in s && SumSet(s, f) == Lookup(f, j) + SumSet(s - {j}, f);
    if j != k {
      SumSetWithout(s - {j}, f, k);
      SumSetWithout(s - {k}, f, j);
      assert s - {j} - {k} == s - {k} - {j};
    }
  }

  /** Only the values at the keys of the set matter. */
  lemma {:induction false} SumSetAgree<K>(s: set<K>, f: map<K, nat>, g: map<K, nat>)
    requires forall k | k in s :: Lookup(f, k) == Lookup(g, k)
    ensures SumSet(s, f) == SumSet(s, g)
    decreases s
  {
    if s != {} {
      var k :| k in s;
      SumSetWithout(s, f, k);
      SumSetWithout(s, g, k);
      SumSetAgree(s - {k}, f, g);
    }
  }
}
