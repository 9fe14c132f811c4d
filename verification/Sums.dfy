/** Sums over the entries of a finite map, independent of iteration order. */
module Sums {

  ghost function Pick<K, V>(m: map<K, V>): (k: K)
    requires m != map[]
    ensures k in m
  {
    var k :| k in m; k
  }

  ghost function Sum<K, V>(m: map<K, V>, weight: (K, V) -> int): int
    decreases |m|
  {
    if m == map[] then 0 else
      var k := Pick(m);
      weight(k, m[k]) + Sum(m - {k}, weight)
  }

  lemma {:induction false} SumRemove<K, V>(m: map<K, V>, weight: (K, V) -> int, k: K)
    requires k in m
    ensures Sum(m, weight) == weight(k, m[k]) + Sum(m - {k}, weight)
    decreases |m|
  {
    var p := Pick(m);
    if p != k {
      SumRemove(m - {p}, weight, k);
      SumRemove(m - {k}, weight, p);
      assert (m - {p}) - {k} == (m - {k}) - {p};
    }
  }

  lemma SumInsert<K, V>(m: map<K, V>, weight: (K, V) -> int, k: K, v: V)
    ensures Sum(m[k := v], weight) ==
            Sum(m, weight) - (if k in m then weight(k, m[k]) else 0) + weight(k, v)
  {
    SumRemove(m[k := v], weight, k);
    if k in m {
      SumRemove(m, weight, k);
      assert m[k := v] - {k} == m - {k};
    } else {
      assert m[k := v] - {k} == m;
    }
  }

  lemma {:induction false} SumNonNegative<K, V>(m: map<K, V>, weight: (K, V) -> int)
    requires forall k :: k in m ==> weight(k, m[k]) >= 0
    ensures Sum(m, weight) >= 0
    decreases |m|
  {
    if m != map[] {
      SumNonNegative(m - {Pick(m)}, weight);
    }
  }

  /** The sum in the order of `keys`. */
  ghost function SeqSum<K, V>(m: map<K, V>, keys: seq<K>, weight: (K, V) -> int): int
    requires forall k :: k in keys ==> k in m
  {
    if keys == [] then 0 else weight(keys[0], m[keys[0]]) + SeqSum(m, keys[1..], weight)
  }

  predicate Distinct<K(==)>(keys: seq<K>) {
    forall i, j :: 0 <= i < j < |keys| ==> keys[i] != keys[j]
  }

  lemma {:induction false} SeqSumWithout<K, V>(m: map<K, V>, keys: seq<K>, weight: (K, V) -> int, k: K)
    requires k !in keys && forall j :: j in keys ==> j in m
    ensures SeqSum(m, keys, weight) == SeqSum(m - {k}, keys, weight)
  {
    if keys != [] { SeqSumWithout(m, keys[1..], weight, k); }
  }

  lemma {:induction false} SeqSumIsSum<K, V>(m: map<K, V>, keys: seq<K>, weight: (K, V) -> int)
    requires Distinct(keys) && forall k :: k in keys <==> k in m
    ensures SeqSum(m, keys, weight) == Sum(m, weight)
    decreases |keys|
  {
    if keys == [] {
      assert m == map[];
    } else {
      var k := keys[0];
      SumRemove(m, weight, k);
      SeqSumWithout(m, keys[1..], weight, k);
      forall j ensures j in keys[1..] <==> j in m - {k} {
        if j in m - {k} { assert j in keys; }
      }
      SeqSumIsSum(m - {k}, keys[1..], weight);
    }
  }

  lemma {:induction false} SeqSumAppend<K, V>(m: map<K, V>, keys: seq<K>, weight: (K, V) -> int, k: K)
    requires k in m && forall j :: j in keys ==> j in m
    ensures SeqSum(m, keys + [k], weight) == SeqSum(m, keys, weight) + weight(k, m[k])
  {
    if keys != [] {
      SeqSumAppend(m, keys[1..], weight, k);
      assert (keys + [k])[1..] == keys[1..] + [k];
    }
  }
}
