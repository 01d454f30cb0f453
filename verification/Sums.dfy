/** Sums of weights over the values of a finite map: the size of a directory tree. */
module Sums {

  ghost function SumOf<K, V>(m: map<K, V>, weight: V -> nat): nat
    decreases |m|
  {
    if |m| == 0 then 0
    else
      var k := Pick(m);
      weight(m[k]) + SumOf(Remove(m, k), weight)
  }

  ghost function Pick<K, V>(m: map<K, V>): (k: K)
    requires |m| > 0
    ensures k in m
  {
    assert m.Keys != {};
    var k :| k in m;
    k
  }

  ghost function Remove<K, V>(m: map<K, V>, k: K): (r: map<K, V>)
    requires k in m
    ensures |r| == |m| - 1
    ensures r.Keys == m.Keys - {k}
    ensures forall j :: j in r ==> r[j] == m[j]
  {
    var r := m - {k};
    assert r.Keys == m.Keys - {k};
    r
  }

  /** Any entry can be taken out first. */
  lemma {:induction false} SumRemove<K, V>(m: map<K, V>, weight: V -> nat, k: K)
    requires k in m
    ensures SumOf(m, weight) == weight(m[k]) + SumOf(Remove(m, k), weight)
    decreases |m|
  {
    var p := Pick(m);
    if p != k {
      SumRemove(Remove(m, p), weight, k);
      SumRemove(Remove(m, k), weight, p);
      RemoveCommutes(m, p, k);
    }
  }

  lemma RemoveCommutes<K, V>(m: map<K, V>, p: K, k: K)
    requires p in m && k in m && p != k
    ensures Remove(Remove(m, p), k) == Remove(Remove(m, k), p)
  {
  }

  lemma {:induction false} SumInsert<K, V>(m: map<K, V>, weight: V -> nat, k: K, v: V)
    requires k !in m
    ensures SumOf(m[k := v], weight) == SumOf(m, weight) + weight(v)
  {
    SumRemove(m[k := v], weight, k);
    assert Remove(m[k := v], k) == m;
  }

  lemma {:induction false} SumUpdate<K, V>(m: map<K, V>, weight: V -> nat, k: K, v: V)
    requires k in m
    ensures SumOf(m[k := v], weight) + weight(m[k]) == SumOf(m, weight) + weight(v)
  {
    hide SumOf;
    SumRemove(m, weight, k);
    SumRemove(m[k := v], weight, k);
    assert Remove(m[k := v], k) == Remove(m, k);
  }

  /** Some weight of `m` is not in `n`. */
  ghost predicate Loses<K, V>(m: map<K, V>, n: map<K, V>, weight: V -> nat) {
    exists k :: k in m && weight(m[k]) > 0 && (k !in n || weight(n[k]) < weight(m[k]))
  }

  /** Entries dropped or made lighter lower the sum exactly when some weight is lost. */
  lemma {:induction false} SumShrinks<K, V>(m: map<K, V>, n: map<K, V>, weight: V -> nat)
    requires n.Keys <= m.Keys && forall k :: k in n ==> weight(n[k]) <= weight(m[k])
    ensures SumOf(n, weight) <= SumOf(m, weight)
    ensures Loses(m, n, weight) <==> SumOf(n, weight) < SumOf(m, weight)
    decreases |m|
  {
    hide SumOf;
    if m.Keys == {} {
      assert n == m;
    } else {
      var k :| k in m;
      SumRemove(m, weight, k);
      if k in n {
        SumRemove(n, weight, k);
        SumShrinks(Remove(m, k), Remove(n, k), weight);
        LosesSplit(m, n, Remove(m, k), Remove(n, k), weight, k);
      } else {
        SumShrinks(Remove(m, k), n, weight);
        LosesSplit(m, n, Remove(m, k), n, weight, k);
      }
    }
  }

  lemma LosesSplit<K, V>(m: map<K, V>, n: map<K, V>, m': map<K, V>, n': map<K, V>, weight: V -> nat, k: K)
    requires k in m && m'.Keys == m.Keys - {k} && forall j :: j in m' ==> m'[j] == m[j]
    requires n'.Keys == n.Keys - {k} && forall j :: j in n' ==> n'[j] == n[j]
    ensures Loses(m, n, weight) <==>
              (weight(m[k]) > 0 && (k !in n || weight(n[k]) < weight(m[k]))) || Loses(m', n', weight)
  {
    if j :| j in m && j != k && weight(m[j]) > 0 && (j !in n || weight(n[j]) < weight(m[j])) {
      assert j in m';
    }
    if j :| j in m' && weight(m'[j]) > 0 && (j !in n' || weight(n'[j]) < weight(m'[j])) {
      assert j in m;
    }
  }
}
