/** Sums of share quantities over a finite map from order references. */
module Totals {
  import opened Machine

  ghost function Total(m: map<u64, nat>): nat {
    if m == map[] then 0 else var k :| k in m; m[k] + Total(m - {k})
  }

  /** The sum does not depend on the order in which keys are taken. */
  lemma {:induction false} TotalSplit(m: map<u64, nat>, k: u64)
    requires k in m
    ensures Total(m) == m[k] + Total(m - {k})
    decreases |m|
  {
    var j :| j in m && Total(m) == m[j] + Total(m - {j});
    if j != k {
      TotalSplit(m - {j}, k);
      TotalSplit(m - {k}, j);
      assert m - {j} - {k} == m - {k} - {j};
    }
  }

  lemma TotalInsert(m: map<u64, nat>, k: u64, v: nat)
    requires k !in m
    ensures Total(m[k := v]) == Total(m) + v
  {
    TotalSplit(m[k := v], k);
    assert m[k := v] - {k} == m;
  }

  lemma TotalUpdate(m: map<u64, nat>, k: u64, v: nat)
    requires k in m
    ensures Total(m[k := v]) == Total(m) - m[k] + v
    ensures m[k] <= Total(m)
  {
    TotalSplit(m, k);
    TotalSplit(m[k := v], k);
    assert m[k := v] - {k} == m - {k};
  }

  lemma {:induction false} TotalBound(m: map<u64, nat>, top: nat)
    requires forall k :: k in m ==> m[k] <= top
    ensures Total(m) <= |m| * top
    decreases |m|
  {
    hide Total;
    if m == map[] {
      EmptyTotal();
      NoProduct(top);
    } else {
      var k :| k in m;
      TotalSplit(m, k);
      TotalBound(m - {k}, top);
      MapShrinks(m, k);
      OneMore(|m| - 1, top);
    }
  }

  lemma EmptyTotal()
    ensures Total(map[]) == 0
  {
  }

  lemma MapShrinks(m: map<u64, nat>, k: u64)
    requires k in m
    ensures |m - {k}| == |m| - 1
  {
    assert (m - {k}).Keys == m.Keys - {k};
  }

  lemma NoProduct(top: nat)
    ensures 0 * top == 0
  {
  }

  lemma OneMore(n: nat, top: nat)
    ensures (n + 1) * top == n * top + top
  {
  }
}
