/**
 * `CustomSet<TData, TKey>`: a set whose identity is a caller-supplied key, stored as a map
 * from key to the first item added under it. A JavaScript `Map` iterates in insertion order;
 * `order` records that order.
 */
module CustomSet {
  import opened Wrappers

  /** `s` without `k` (keys are distinct, so at most one element goes). */
  function Without<K(==,!new)>(s: seq<K>, k: K): (r: seq<K>)
    ensures forall x :: x in r <==> x in s && x != k
    ensures |r| <= |s|
  {
    if s == [] then []
    else if s[0] == k then Without(s[1..], k)
    else [s[0]] + Without(s[1..], k)
  }

  predicate Distinct<K(==)>(s: seq<K>)
  {
    forall i, j :: 0 <= i < j < |s| ==> s[i] != s[j]
  }

  lemma {:induction false} WithoutKeepsDistinct<K(!new)>(s: seq<K>, k: K)
    requires Distinct(s)
    ensures Distinct(Without(s, k))
    ensures k in s ==> |Without(s, k)| == |s| - 1
    ensures k !in s ==> Without(s, k) == s
  {
    if s != [] {
      WithoutKeepsDistinct(s[1..], k);
      if s[0] != k {
        var r := [s[0]] + Without(s[1..], k);
        forall i, j | 0 <= i < j < |r| ensures r[i] != r[j] {
          if i == 0 {
            assert r[j] in Without(s[1..], k);
          }
        }
      } else {
        assert k !in s[1..];
      }
    }
  }

  /** A distinct sequence is as long as the set of its elements. */
  lemma {:induction false} DistinctCardinality<K>(s: seq<K>)
    requires Distinct(s)
    ensures |set x | x in s| == |s|
  {
    if s != [] {
      DistinctCardinality(s[1..]);
      assert (set x | x in s) == (set x | x in s[1..]) + {s[0]};
      assert s[0] !in s[1..];
    }
  }

  /** The values stored under `keys`, in that order. */
  function Lookup<K, D>(keys: seq<K>, m: map<K, D>): (r: seq<D>)
    requires forall i :: 0 <= i < |keys| ==> keys[i] in m
    ensures |r| == |keys| && forall i :: 0 <= i < |r| ==> r[i] == m[keys[i]]
  {
    if keys == [] then [] else [m[keys[0]]] + Lookup(keys[1..], m)
  }

  class CustomSet<D, K(==,!new)> {
    var items: map<K, D>
    var order: seq<K>
    const getKey: D -> K

    /** The keys in `order` are distinct and are exactly the map's keys. */
    ghost predicate Valid()
      reads this
    {
      Distinct(order) && (forall k :: k in order <==> k in items)
    }

    constructor (getKey: D -> K)
      ensures Valid() && items == map[] && order == [] && this.getKey == getKey
    {
      items, order := map[], [];
      this.getKey := getKey;
    }

    /** First write wins: an item whose key is present leaves the set unchanged. */
    method Add(item: D)
      requires Valid()
      modifies this
      ensures Valid()
      ensures getKey(item) in old(items) ==> items == old(items) && order == old(order)
      ensures getKey(item) !in old(items) ==> items == old(items)[getKey(item) := item] && order == old(order) + [getKey(item)]
      ensures Has(item) && Get(getKey(item)).Some?
      ensures old(Size()) <= Size() <= old(Size()) + 1
    {
      var key := getKey(item);
      if key !in items {
        items := items[key := item];
        order := order + [key];
      }
    }

    function Get(key: K): (r: Option<D>)
      reads this
      ensures r.Some? <==> key in items
      ensures r.Some? ==> r.value == items[key]
    {
      if key in items then Some(items[key]) else None
    }

    /** Removes only the entry for the item's key; an absent key is a no-op. */
    method Delete(item: D)
      requires Valid()
      modifies this
      ensures Valid()
      ensures items == old(items) - {getKey(item)} && order == Without(old(order), getKey(item))
      ensures !Has(item)
      ensures getKey(item) !in old(items) ==> items == old(items) && order == old(order)
      ensures old(Size()) - 1 <= Size() <= old(Size())
    {
      var key := getKey(item);
      WithoutKeepsDistinct(order, key);
      SizeIsKeyCount();
      if key in items {
        items := items - {key};
        order := Without(order, key);
      }
      SizeIsKeyCount();
    }

    /** `clear` replaces the map by an empty one. */
    method Clear()
      modifies this
      ensures Valid() && items == map[] && order == []
    {
      items, order := map[], [];
    }

    function Has(item: D): (r: bool)
      reads this
      ensures r <==> Get(getKey(item)).Some?
    {
      getKey(item) in items
    }

    /** A copy of the keys in insertion order; being a value, changing it cannot touch the set. */
    function Keys(): (r: seq<K>)
      reads this
      ensures Valid() ==> Distinct(r) && forall k :: k in r <==> k in items
    {
      order
    }

    /** A copy of the items in key insertion order. */
    function Values(): (r: seq<D>)
      requires Valid()
      reads this
      ensures |r| == |order| && forall i :: 0 <= i < |r| ==> Get(order[i]) == Some(r[i])
    {
      Lookup(order, items)
    }

    function Size(): nat
      reads this
    {
      |items|
    }

    /** The size is the number of keys listed in insertion order. */
    lemma SizeIsKeyCount()
      requires Valid()
      ensures Size() == |Keys()|
    {
      DistinctCardinality(order);
      assert items.Keys == set x | x in order;
    }
  }
}
