/** Sums over finite maps, for counting the work left in a system of many processes. */
module Totals {

  ghost function Total(m: map<nat, nat>): nat
    decreases |m|
  {
    if m == map[] then 0
    else
      var k :| k in m;
      Removed(m, k);
      m[k] + Total(m - {k})
  }

  lemma Removed(m: map<nat, nat>, k: nat)
    requires k in m
    ensures |m - {k}| < |m|
  {
    var r := m - {k};
    assert r.Keys == m.Keys - {k};
    assert |r| == |r.Keys| && |m| == |m.Keys|;
  }

  /** The sum does not depend on the order in which entries are taken out. */
  lemma {:induction false} TotalSplit(m: map<nat, nat>, k: nat)
    requires k in m
    ensures Total(m) == m[k] + Total(m - {k})
    decreases |m|
  {
    var x :| x in m && Total(m) == m[x] + Total(m - {x});
    if x != k {
      Removed(m, x);
      Removed(m, k);
      TotalSplit(m - {x}, k);
      TotalSplit(m - {k}, x);
      assert m - {x} - {k} == m - {k} - {x};
    }
  }

  /** Changing or adding one entry changes the sum by that entry alone. */
  lemma TotalUpdate(m: map<nat, nat>, k: nat, v: nat)
    ensures Total(m[k := v]) + (if k in m then m[k] else 0) == Total(m) + v
  {
    var m' := m[k := v];
    TotalSplit(m', k);
    if k in m {
      TotalSplit(m, k);
      assert m' - {k} == m - {k};
    } else {
      assert m' - {k} == m;
    }
  }
}
