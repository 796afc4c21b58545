/** Adding up the multisets stored in a map. */
module Tally {
  ghost function Pick<K, V>(m: map<K, V>): (k: K)
    requires m.Keys != {}
    ensures k in m
  {
    var k :| k in m;
    k
  }

  /** All occurrences over all keys. */
  ghost function Pool<K, V>(m: map<K, multiset<V>>): multiset<V>
    decreases |m.Keys|
  {
    if m.Keys == {} then multiset{}
    else
      var k := Pick(m);
      Smaller(m, k);
      m[k] + Pool(m - {k})
  }

  lemma Smaller<K, V>(m: map<K, V>, k: K)
    requires k in m
    ensures |(m - {k}).Keys| < |m.Keys|
  {
    assert m.Keys == (m - {k}).Keys + {k};
  }

  lemma Exchange<V>(a: multiset<V>, b: multiset<V>, c: multiset<V>)
    ensures a + (b + c) == b + (a + c)
  {
  }

  /** Any key can be taken out first. */
  lemma {:induction false} PoolTake<K, V>(m: map<K, multiset<V>>, k: K)
    requires k in m
    ensures Pool(m) == m[k] + Pool(m - {k})
    decreases |m.Keys|
  {
    var j := Pick(m);
    if j != k {
      Smaller(m, j);
      Smaller(m, k);
      calc {
        Pool(m);
        m[j] + Pool(m - {j});
        { PoolTake(m - {j}, k); }
        m[j] + (m[k] + Pool(m - {j} - {k}));
        { Exchange(m[j], m[k], Pool(m - {j} - {k})); }
        m[k] + (m[j] + Pool(m - {j} - {k}));
        { assert m - {j} - {k} == m - {k} - {j}; PoolTake(m - {k}, j); }
        m[k] + Pool(m - {k});
      }
    }
  }

  lemma PoolPut<K, V>(m: map<K, multiset<V>>, k: K, v: multiset<V>)
    ensures Pool(m[k := v]) == v + Pool(m - {k})
    ensures k !in m ==> Pool(m[k := v]) == v + Pool(m)
  {
    PoolTake(m[k := v], k);
    assert m[k := v] - {k} == m - {k};
    if k !in m {
      assert m - {k} == m;
    }
  }

  lemma PoolEmpty<K, V>(m: map<K, multiset<V>>)
    requires m.Keys == {}
    ensures Pool(m) == multiset{}
  {
  }

  ghost function Within<K, V>(m: map<K, V>, s: set<K>): map<K, V> {
    map k | k in m && k in s :: m[k]
  }

  lemma WithinLess<K, V>(m: map<K, V>, s: set<K>, k: K)
    requires k in s
    ensures Within(m, s) - {k} == Within(m, s - {k})
    ensures k !in m ==> Within(m, s) == Within(m, s - {k})
  {
  }

  lemma WithoutMore<K, V>(m: map<K, V>, s: set<K>, k: K)
    requires k in s
    ensures (m - (s - {k})) - {k} == m - s
    ensures k !in m ==> m - (s - {k}) == m - s
  {
  }

  /** A map splits into the keys of a set and the others. */
  lemma {:induction false} PoolSplit<K, V>(m: map<K, multiset<V>>, s: set<K>)
    ensures Pool(m) == Pool(m - s) + Pool(Within(m, s))
    decreases |s|
  {
    if s == {} {
      assert m - s == m;
      PoolEmpty(Within(m, s));
    } else {
      var k :| k in s;
      PoolSplit(m, s - {k});
      WithinLess(m, s, k);
      WithoutMore(m, s, k);
      if k in m {
        PoolTake(Within(m, s), k);
        PoolTake(m - (s - {k}), k);
        Regroup(m[k], Pool(m - s), Pool(Within(m, s - {k})));
      }
    }
  }

  lemma Regroup<V>(a: multiset<V>, b: multiset<V>, c: multiset<V>)
    ensures a + b + c == b + (a + c)
  {
  }
}
