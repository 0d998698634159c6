/** Sums over finite maps. */
module Sums {

  ghost function SumOf<K>(m: map<K, nat>): nat {
    if m == map[] then 0
    else var k :| k in m; m[k] + SumOf(m - {k})
  }

  /** Any entry can be taken out first. */
  lemma {:induction false} SumRemove<K>(m: map<K, nat>, k: K)
    requires k in m
    ensures SumOf(m) == m[k] + SumOf(m - {k})
    decreases |m|
  {
    var x :| x in m && SumOf(m) == m[x] + SumOf(m - {x});
    if x != k {
      SumRemove(m - {x}, k);
      SumRemove(m - {k}, x);
      assert m - {x} - {k} == m - {k} - {x};
    }
  }

  lemma SumAdd<K>(m: map<K, nat>, k: K, v: nat)
    requires k !in m
    ensures SumOf(m[k := v]) == SumOf(m) + v
  {
    SumRemove(m[k := v], k);
    assert m[k := v] - {k} == m;
  }

  /** The sum splits along any set of keys. */
  lemma {:induction false} SumSplit<K>(m: map<K, nat>, s: set<K>)
    ensures SumOf(m) == SumOf(m - s) + SumOf(m - (m.Keys - s))
    decreases |m|
  {
    if m != map[] {
      var k :| k in m;
      SumSplit(m - {k}, s);
      SumRemove(m, k);
      if k in s {
        SumRemove(m - (m.Keys - s), k);
        assert m - s == m - {k} - s;
        assert m - (m.Keys - s) - {k} == m - {k} - ((m - {k}).Keys - s);
      } else {
        SumRemove(m - s, k);
        assert m - s - {k} == m - {k} - s;
        assert m - (m.Keys - s) == m - {k} - ((m - {k}).Keys - s);
      }
    } else {
      assert m - s == map[] && m - (m.Keys - s) == map[];
    }
  }
}
