/** Sums of the values of a finite map, used to count the tracks stored in all buckets. */
module MapSums {

  /** The sum of the values of `m`. */
  ghost function SumValues<K>(m: map<K, nat>): nat
    decreases |m|
  {
    if |m| == 0 then 0
    else
      var k := Pick(m);
      m[k] + SumValues(m - {k})
  }

  /** Some key of a non-empty map. */
  ghost function Pick<K>(m: map<K, nat>): (k: K)
    requires |m| != 0
    ensures k in m
  {
    assert m.Keys != {} by { assert |m.Keys| == |m|; }
    var k :| k in m; k
  }

  /** The sum does not depend on which key is taken out first. */
  lemma {:induction false} SumValuesRemove<K>(m: map<K, nat>, k: K)
    requires k in m
    ensures SumValues(m) == m[k] + SumValues(m - {k})
    decreases |m|
  {
    assert |m| != 0 by { assert |m.Keys| == |m| && k in m.Keys; }
    var k' := Pick(m);
    assert SumValues(m) == m[k'] + SumValues(m - {k'});
    if k' != k {
      assert (m - {k'}).Keys == m.Keys - {k'};
      assert (m - {k}).Keys == m.Keys - {k};
      assert |m - {k'}| < |m| && |m - {k}| < |m|;
      SumValuesRemove(m - {k'}, k);
      SumValuesRemove(m - {k}, k');
      assert m - {k'} - {k} == m - {k} - {k'};
    }
  }

  /** Updating one entry changes the sum by the difference of the two values. */
  lemma SumValuesUpdate<K>(m: map<K, nat>, k: K, v: nat)
    ensures SumValues(m[k := v]) + (if k in m then m[k] else 0) == SumValues(m) + v
  {
    var m' := m[k := v];
    assert SumValues(m') == v + SumValues(m' - {k}) by {
      SumValuesRemove(m', k);
    }
    if k in m {
      assert SumValues(m) == m[k] + SumValues(m - {k}) by {
        SumValuesRemove(m, k);
      }
      assert m' - {k} == m - {k};
    } else {
      assert m' - {k} == m;
    }
  }
}
