/**
 * Python dictionaries as the scrapers use them: key/value pairs kept in insertion order,
 * where assigning to a key that is present keeps its position and assigning to a new key
 * appends it.
 */
module Dicts {

  import opened Wrappers

  type Dict<K, V> = seq<(K, V)>

  function Keys<K, V>(d: Dict<K, V>): (ks: seq<K>)
    ensures |ks| == |d| && forall i :: 0 <= i < |d| ==> ks[i] == d[i].0
  {
    seq(|d|, i requires 0 <= i < |d| => d[i].0)
  }

  predicate Distinct<T(==)>(s: seq<T>) {
    forall i, j :: 0 <= i < j < |s| ==> s[i] != s[j]
  }

  /** Every key appears once, as in a Python dict. */
  predicate Valid<K(==, !new), V>(d: Dict<K, V>) {
    Distinct(Keys(d))
  }

  /** The first position at or after `i` holding key `k`, or -1. */
  function IndexFrom<K(==, !new), V>(d: Dict<K, V>, k: K, i: nat): (r: int)
    requires i <= |d|
    decreases |d| - i
    ensures r == -1 || (i <= r < |d| && d[r].0 == k)
    ensures forall j :: i <= j < |d| && (r == -1 || j < r) ==> d[j].0 != k
  {
    if i == |d| then -1 else if d[i].0 == k then i else IndexFrom(d, k, i + 1)
  }

  /** The position of key `k`, or -1 when it is absent. */
  function IndexOf<K(==, !new), V>(d: Dict<K, V>, k: K): (r: int)
    ensures r == -1 <==> k !in Keys(d)
    ensures r != -1 ==> 0 <= r < |d| && d[r].0 == k
    ensures forall j :: 0 <= j < r ==> d[j].0 != k
  {
    var r := IndexFrom(d, k, 0);
    assert r == -1 ==> forall j :: 0 <= j < |d| ==> Keys(d)[j] != k;
    r
  }

  /** `d.get(k)`: the value stored under `k`, if any. */
  function Get<K(==, !new), V>(d: Dict<K, V>, k: K): (r: Option<V>)
    ensures r.Some? <==> k in Keys(d)
    ensures r.Some? ==> (k, r.value) in d
  {
    var i := IndexOf(d, k);
    if i < 0 then None else Some(d[i].1)
  }

  /** `d[k] = v`: replaces in place when `k` is present, appends otherwise. */
  function Put<K(==, !new), V>(d: Dict<K, V>, k: K, v: V): (r: Dict<K, V>)
    ensures Get(r, k) == Some(v)
    ensures forall k' :: k' != k ==> Get(r, k') == Get(d, k')
    ensures Keys(r) == if k in Keys(d) then Keys(d) else Keys(d) + [k]
    ensures Valid(d) ==> Valid(r)
  {
    var i := IndexOf(d, k);
    if i < 0 then
      var r := d + [(k, v)];
      assert Keys(r) == Keys(d) + [k];
      AppendKeepsOtherIndices(d, (k, v));
      r
    else
      var r := d[i := (k, v)];
      assert Keys(r) == Keys(d);
      assert IndexOf(r, k) == i;
      UpdateKeepsOtherIndices(d, i, v);
      r
  }

  lemma {:induction false} IndexFromAppend<K(!new), V>(d: Dict<K, V>, x: (K, V), k: K, i: nat)
    requires i <= |d| && x.0 != k
    decreases |d| - i
    ensures IndexFrom(d + [x], k, i) == IndexFrom(d, k, i)
  {
    if i < |d| {
      assert (d + [x])[i] == d[i];
      IndexFromAppend(d, x, k, i + 1);
    }
  }

  lemma AppendKeepsOtherIndices<K(!new), V>(d: Dict<K, V>, x: (K, V))
    ensures forall k :: k != x.0 ==> IndexOf(d + [x], k) == IndexOf(d, k)
  {
    forall k | k != x.0
      ensures IndexOf(d + [x], k) == IndexOf(d, k)
    {
      IndexFromAppend(d, x, k, 0);
    }
  }

  lemma {:induction false} IndexFromUpdate<K(!new), V>(d: Dict<K, V>, p: nat, v: V, k: K, i: nat)
    requires i <= |d| && p < |d| && d[p].0 != k
    decreases |d| - i
    ensures IndexFrom(d[p := (d[p].0, v)], k, i) == IndexFrom(d, k, i)
  {
    if i < |d| {
      IndexFromUpdate(d, p, v, k, i + 1);
    }
  }

  lemma UpdateKeepsOtherIndices<K(!new), V>(d: Dict<K, V>, p: nat, v: V)
    requires p < |d|
    ensures forall k :: k != d[p].0 ==> IndexOf(d[p := (d[p].0, v)], k) == IndexOf(d, k)
  {
    forall k | k != d[p].0
      ensures IndexOf(d[p := (d[p].0, v)], k) == IndexOf(d, k)
    {
      IndexFromUpdate(d, p, v, k, 0);
    }
  }

  /**
   * A Python set built by adding `xs` one by one, kept as a duplicate-free sequence in
   * first-occurrence order.
   */
  function Dedup<T(==, !new)>(xs: seq<T>): (r: seq<T>)
    ensures |r| <= |xs|
  {
    if xs == [] then []
    else
      var r := Dedup(xs[..|xs| - 1]);
      var x := xs[|xs| - 1];
      if x in r then r else r + [x]
  }

  /** The set holds every element of `xs` once, and nothing else. */
  lemma {:induction false} DedupMembers<T(!new)>(xs: seq<T>)
    ensures Distinct(Dedup(xs))
    ensures forall x :: x in Dedup(xs) <==> x in xs
  {
    if xs != [] {
      var init, x := xs[..|xs| - 1], xs[|xs| - 1];
      DedupMembers(init);
      assert xs == init + [x];
      var r := Dedup(init);
      if x !in r {
        forall i, j | 0 <= i < j < |r + [x]| ensures (r + [x])[i] != (r + [x])[j] {
          if j == |r| {
            assert (r + [x])[i] == r[i];
          }
        }
      }
    }
  }

  /** Adding the elements of a duplicate-free sequence changes nothing. */
  lemma {:induction false} DedupOfDistinct<T(!new)>(xs: seq<T>)
    requires Distinct(xs)
    ensures Dedup(xs) == xs
  {
    if xs != [] {
      var init := xs[..|xs| - 1];
      assert Distinct(init);
      DedupOfDistinct(init);
      DedupMembers(init);
      assert xs == init + [xs[|xs| - 1]];
    }
  }
}
