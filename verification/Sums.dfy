/** Sums over the values of a finite map, in no particular order. */
module Sums {

  ghost function Total<K(!new)>(m: map<K, real>): real
    decreases |m.Keys|
  {
    if m == map[] then 0.0 else
      assert (forall k :: k !in m) ==> m == map[];
      var k :| k in m;
      assert (m - {k}).Keys == m.Keys - {k};
      m[k] + Total(m - {k})
  }

  function ValueAt<K(!new)>(m: map<K, real>, k: K): real {
    if k in m then m[k] else 0.0
  }

  lemma HasKey<K(!new), V>(m: map<K, V>) returns (k: K)
    requires m != map[]
    ensures k in m
  {
    assert (forall l :: l !in m) ==> m == map[];
    k :| k in m;
  }

  /** Any entry may be the one summed first. */
  lemma {:induction false} TotalPick<K(!new)>(m: map<K, real>, k: K)
    requires k in m
    ensures Total(m) == m[k] + Total(m - {k})
    decreases |m.Keys|
  {
    var _ := HasKey(m);
    var l :| l in m && Total(m) == m[l] + Total(m - {l});
    if l != k {
      assert (m - {l}).Keys == m.Keys - {l} && (m - {k}).Keys == m.Keys - {k};
      TotalPick(m - {l}, k);
      TotalPick(m - {k}, l);
      assert m - {l} - {k} == m - {k} - {l};
    }
  }

  lemma TotalPut<K(!new)>(m: map<K, real>, k: K, v: real)
    ensures Total(m[k := v]) == Total(m) - ValueAt(m, k) + v
  {
    TotalPick(m[k := v], k);
    assert m[k := v] - {k} == m - {k};
    TotalDrop(m, k);
  }

  lemma TotalDrop<K(!new)>(m: map<K, real>, k: K)
    ensures Total(m - {k}) == Total(m) - ValueAt(m, k)
  {
    if k in m {
      TotalPick(m, k);
    } else {
      assert m - {k} == m;
    }
  }

  lemma {:induction false} TotalNonNegative<K(!new)>(m: map<K, real>)
    requires forall k | k in m :: m[k] >= 0.0
    ensures Total(m) >= 0.0
    decreases |m.Keys|
  {
    if m != map[] {
      var _ := HasKey(m);
      var k :| k in m && Total(m) == m[k] + Total(m - {k});
      assert (m - {k}).Keys == m.Keys - {k};
      TotalNonNegative(m - {k});
    }
  }
}
