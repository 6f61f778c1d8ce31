/**
  Python dictionaries as the scripts use them: insertion-ordered association
  lists. Assigning to a key that is already present replaces its value and
  keeps the key where it was; a new key goes to the end.
*/
module Dicts {
  import opened Outcomes

  type Dict<K, V> = seq<(K, V)>

  function Keys<K, V>(d: Dict<K, V>): (ks: seq<K>)
    ensures |ks| == |d|
    ensures forall i :: 0 <= i < |d| ==> ks[i] == d[i].0
  {
    seq(|d|, i requires 0 <= i < |d| => d[i].0)
  }

  ghost predicate UniqueKeys<K, V>(d: Dict<K, V>) {
    forall i, j :: 0 <= i < j < |d| ==> d[i].0 != d[j].0
  }

  /** The position of `k` in `d`, if any. */
  function IndexOf<K(==), V>(d: Dict<K, V>, k: K): (r: Option<nat>)
    ensures r.Some? ==>
      && r.value < |d| && d[r.value].0 == k
      && forall j :: 0 <= j < r.value ==> d[j].0 != k
    ensures r.None? ==> forall j :: 0 <= j < |d| ==> d[j].0 != k
  {
    if d == [] then None
    else if d[0].0 == k then Some(0)
    else match IndexOf(d[1..], k)
      case None => None
      case Some(i) => Some(i + 1)
  }

  /** `d.get(k)`. */
  function Get<K(==), V>(d: Dict<K, V>, k: K): Option<V> {
    match IndexOf(d, k)
    case None => None
    case Some(i) => Some(d[i].1)
  }

  /** `d[k] = v`. */
  function Put<K(==, !new), V>(d: Dict<K, V>, k: K, v: V): (r: Dict<K, V>)
    ensures UniqueKeys(d) ==> UniqueKeys(r)
    ensures Get(r, k) == Some(v)
    ensures forall k' :: k' != k ==> Get(r, k') == Get(d, k')
    ensures IndexOf(d, k).Some? ==> Keys(r) == Keys(d)
    ensures IndexOf(d, k).None? ==> Keys(r) == Keys(d) + [k]
  {
    match IndexOf(d, k)
    case Some(i) =>
      var r := d[i := (k, v)];
      assert Keys(r) == Keys(d);
      r
    case None =>
      var r := d + [(k, v)];
      IndexOfAppend(d, (k, v), k);
      forall k' | k' != k ensures IndexOf(r, k') == IndexOf(d, k') {
        IndexOfAppend(d, (k, v), k');
      }
      assert Keys(r) == Keys(d) + [k];
      r
  }

  /** `d[k] = v` keeps the key list when `k` is present, and appends `k` otherwise. */
  lemma PutKeys<K(!new), V>(d: Dict<K, V>, k: K, v: V)
    ensures k in Keys(d) ==> Keys(Put(d, k, v)) == Keys(d)
    ensures k !in Keys(d) ==> Keys(Put(d, k, v)) == Keys(d) + [k]
  {
    if IndexOf(d, k).Some? {
      assert Keys(d)[IndexOf(d, k).value] == k;
    }
  }

  lemma {:induction false} IndexOfAppend<K, V>(d: Dict<K, V>, e: (K, V), k: K)
    ensures IndexOf(d + [e], k) ==
      if IndexOf(d, k).Some? then IndexOf(d, k)
      else if e.0 == k then Some(|d|) else None
  {
    if d != [] {
      assert (d + [e])[1..] == d[1..] + [e];
      IndexOfAppend(d[1..], e, k);
    }
  }
}
