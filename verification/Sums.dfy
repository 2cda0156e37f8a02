/** The sum of the values of a finite map. */
module Sums {
  ghost function Total<K>(m: map<K, nat>): nat {
    if m == map[] then 0
    else
      var k :| k in m;
      m[k] + Total(m - {k})
  }

  lemma {:induction false} TotalSplits<K>(m: map<K, nat>, k: K)
    requires k in m
    ensures Total(m) == m[k] + Total(m - {k})
    decreases |m|
  {
    var chosen :| chosen in m && Total(m) == m[chosen] + Total(m - {chosen});
    if chosen != k {
      TotalSplits(m - {chosen}, k);
      TotalSplits(m - {k}, chosen);
      assert m - {chosen} - {k} == m - {k} - {chosen};
    }
  }

  lemma TotalUpdated<K>(m: map<K, nat>, k: K, v: nat)
    ensures Total(m[k := v]) == Total(m) - (if k in m then m[k] else 0) + v
  {
    TotalSplits(m[k := v], k);
    if k in m {
      TotalSplits(m, k);
      assert m[k := v] - {k} == m - {k};
    } else {
      assert m[k := v] - {k} == m;
    }
  }

  lemma TotalAtLeastTwo<K>(m: map<K, nat>, a: K, b: K)
    requires a in m && b in m && a != b
    ensures m[a] + m[b] <= Total(m)
  {
    TotalSplits(m, a);
    TotalSplits(m - {a}, b);
  }

  lemma TotalAtLeast<K>(m: map<K, nat>, a: K)
    requires a in m
    ensures m[a] <= Total(m)
  {
    TotalSplits(m, a);
  }

  lemma {:induction false} TotalZero<K>(m: map<K, nat>)
    ensures Total(m) == 0 <==> forall k | k in m :: m[k] == 0
    decreases |m|
  {
    if m != map[] {
      var k :| k in m && Total(m) == m[k] + Total(m - {k});
      TotalZero(m - {k});
      assert forall j | j in m :: j == k || j in m - {k};
    }
  }
}
