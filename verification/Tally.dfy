/** An insertion-ordered map from keys to running totals, as a JavaScript Map keeps it. */
module Tally {
  import opened Sql

  type Entries<K> = seq<(K, int)>

  function Get<K(==)>(e: Entries<K>, k: K): Option<int> {
    if e == [] then None else if e[0].0 == k then Some(e[0].1) else Get(e[1..], k)
  }

  /** `m.set(k, (m.get(k) ?? 0) + w)` */
  function Bump<K(==)>(e: Entries<K>, k: K, w: int): Entries<K> {
    if e == [] then [(k, w)]
    else if e[0].0 == k then [(k, e[0].1 + w)] + e[1..]
    else [e[0]] + Bump(e[1..], k, w)
  }

  function Total<K>(e: Entries<K>): int {
    if e == [] then 0 else e[0].1 + Total(e[1..])
  }

  predicate Distinct<K(==)>(e: Entries<K>) {
    forall i, j | 0 <= i < j < |e| :: e[i].0 != e[j].0
  }

  lemma {:induction false} BumpTotal<K>(e: Entries<K>, k: K, w: int)
    ensures Total(Bump(e, k, w)) == Total(e) + w
  {
    if e != [] && e[0].0 != k {
      BumpTotal(e[1..], k, w);
    }
  }

  lemma {:induction false} BumpGet<K>(e: Entries<K>, k: K, w: int, j: K)
    ensures Get(Bump(e, k, w), j) == if j == k then Some(Coalesce(Get(e, k), 0) + w) else Get(e, j)
  {
    if e != [] && e[0].0 != k {
      BumpGet(e[1..], k, w, j);
    }
  }

  lemma {:induction false} GetIndex<K>(e: Entries<K>, k: K)
    ensures Get(e, k).Some? ==> exists i :: 0 <= i < |e| && e[i] == (k, Get(e, k).value)
    ensures Get(e, k).None? ==> forall i | 0 <= i < |e| :: e[i].0 != k
  {
    if e != [] && e[0].0 != k {
      GetIndex(e[1..], k);
      if Get(e, k).Some? {
        var i :| 0 <= i < |e[1..]| && e[1..][i] == (k, Get(e[1..], k).value);
        assert e[i + 1] == e[1..][i];
      }
      assert forall i | 1 <= i < |e| :: e[i] == e[1..][i - 1];
    }
  }

  lemma {:induction false} DistinctGet<K>(e: Entries<K>, i: nat)
    requires Distinct(e) && i < |e|
    ensures Get(e, e[i].0) == Some(e[i].1)
  {
    if i > 0 {
      DistinctGet(e[1..], i - 1);
    }
  }

  lemma {:induction false} BumpDistinct<K>(e: Entries<K>, k: K, w: int)
    requires Distinct(e)
    ensures Distinct(Bump(e, k, w))
    ensures forall i | 0 <= i < |Bump(e, k, w)| ::
      Bump(e, k, w)[i].0 == k || exists j :: 0 <= j < |e| && e[j].0 == Bump(e, k, w)[i].0
  {
    if e != [] && e[0].0 != k {
      BumpDistinct(e[1..], k, w);
      forall j | 0 <= j < |e[1..]| ensures e[1..][j] == e[j + 1] {
      }
    }
  }
}
