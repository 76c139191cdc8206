/** Sums over finite maps: the conserved quantities of both ledgers. */
module Sums {

  ghost function Sum<K>(m: map<K, nat>): nat
    decreases |m|
  {
    if m == map[] then 0 else
      var k :| k in m;
      m[k] + Sum(m - {k})
  }

  /** The sum does not depend on the order in which the entries are taken. */
  lemma {:induction false} SumRemove<K>(m: map<K, nat>, k: K)
    requires k in m
    ensures Sum(m) == m[k] + Sum(m - {k})
    decreases |m|
  {
    var j :| j in m && Sum(m) == m[j] + Sum(m - {j});
    if j != k {
      SumRemove(m - {j}, k);
      SumRemove(m - {k}, j);
      assert m - {j} - {k} == m - {k} - {j};
    }
  }

  lemma SumUpdate<K>(m: map<K, nat>, k: K, v: nat)
    ensures Sum(m[k := v]) == Sum(m - {k}) + v
    ensures k !in m ==> Sum(m[k := v]) == Sum(m) + v
    ensures k in m ==> Sum(m[k := v]) == Sum(m) - m[k] + v
  {
    SumRemove(m[k := v], k);
    assert m[k := v] - {k} == m - {k};
    if k in m {
      SumRemove(m, k);
    } else {
      assert m - {k} == m;
    }
  }

  /** One entry is exchanged for a new one. */
  lemma SumExchange<K>(m: map<K, nat>, i: K, j: K, v: nat)
    requires i in m && j !in m
    ensures Sum((m - {i})[j := v]) == Sum(m) - m[i] + v
  {
    SumRemove(m, i);
    SumUpdate(m - {i}, j, v);
  }

  /** One entry is divided into two new ones. */
  lemma SumDivide<K>(m: map<K, nat>, i: K, j: K, k: K, v: nat)
    requires i in m && j !in m && k !in m && j != k && v <= m[i]
    ensures Sum((m - {i})[j := v][k := m[i] - v]) == Sum(m)
  {
    SumExchange(m, i, j, v);
    SumUpdate((m - {i})[j := v], k, m[i] - v);
  }

  lemma SumBoundsEntry<K>(m: map<K, nat>, k: K)
    requires k in m
    ensures m[k] <= Sum(m)
  {
  }

  /** Two different entries together stay below the sum. */
  lemma SumBoundsPair<K>(m: map<K, nat>, j: K, k: K)
    requires j in m && k in m && j != k
    ensures m[j] + m[k] <= Sum(m)
  {
    SumRemove(m, j);
    SumRemove(m - {j}, k);
  }
}
