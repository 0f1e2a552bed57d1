/**
 * `CachedFunction<TParam, TReturn, TKey>`: a function wrapped with a cache keyed by a
 * caller-supplied key. The cache is read with `get`, so a stored JavaScript `undefined` counts
 * as a miss; `isUndefined` says which results are `undefined`.
 */
module CachedFunction {

  /** Every cached entry is what the function returns for any parameter with that key. */
  ghost predicate Faithful<P(!new), R, K(!new)>(cache: map<K, R>, func: P -> R, getKey: P -> K)
  {
    forall p :: getKey(p) in cache ==> cache[getKey(p)] == func(p)
  }

  /** Parameters with the same key get the same result, the assumption a key cache relies on. */
  ghost predicate KeyDetermines<P(!new), R, K(!new)>(func: P -> R, getKey: P -> K)
  {
    forall p, q :: getKey(p) == getKey(q) ==> func(p) == func(q)
  }

  /** A hit: a cached value that is not `undefined`. */
  predicate Hit<K, R>(cache: map<K, R>, key: K, isUndefined: R -> bool)
  {
    key in cache && !isUndefined(cache[key])
  }

  /**
   * One `run` on the cache `cache` for a parameter with key `key`, where `computed` is what the
   * function would return: the result and the new cache.
   */
  function Served<K(!new), R>(cache: map<K, R>, key: K, isUndefined: R -> bool, computed: R): (r: (R, map<K, R>))
    ensures key in r.1 && r.1[key] == r.0
    ensures Hit(cache, key, isUndefined) ==> r == (cache[key], cache)
    ensures !Hit(cache, key, isUndefined) ==> r.0 == computed
    ensures forall k :: k != key ==> (k in r.1 <==> k in cache) && (k in cache ==> r.1[k] == cache[k])
  {
    if Hit(cache, key, isUndefined) then (cache[key], cache) else (computed, cache[key := computed])
  }

  /** Each `run` adds at most one cache entry. */
  lemma ServedGrowsByAtMostOne<K(!new), R>(cache: map<K, R>, key: K, isUndefined: R -> bool, computed: R)
    ensures var c := Served(cache, key, isUndefined, computed).1;
      cache.Keys <= c.Keys && c.Keys <= cache.Keys + {key} && |c.Keys| <= |cache.Keys| + 1
  {
    var c := Served(cache, key, isUndefined, computed).1;
    assert c.Keys <= cache.Keys + {key};
    assert |cache.Keys + {key}| <= |cache.Keys| + 1;
    SubsetCardinality(c.Keys, cache.Keys + {key});
  }

  lemma SubsetCardinality<K>(a: set<K>, b: set<K>)
    requires a <= b
    ensures |a| <= |b|
  {
    assert b == a + (b - a);
  }

  /** A cached `undefined` is recomputed, and the new result replaces it. */
  lemma UndefinedRecomputed<K(!new), R>(cache: map<K, R>, key: K, isUndefined: R -> bool, computed: R)
    requires key in cache && isUndefined(cache[key])
    ensures Served(cache, key, isUndefined, computed) == (computed, cache[key := computed])
  {
  }

  /**
   * When the key determines the result, a faithful cache stays faithful and every `run`
   * returns exactly what the function returns.
   */
  lemma {:induction false} ServedIsFaithful<P(!new), R, K(!new)>(cache: map<K, R>, func: P -> R, getKey: P -> K, isUndefined: R -> bool, p: P)
    requires KeyDetermines(func, getKey) && Faithful(cache, func, getKey)
    ensures var r := Served(cache, getKey(p), isUndefined, func(p));
      r.0 == func(p) && Faithful(r.1, func, getKey)
  {
    var r := Served(cache, getKey(p), isUndefined, func(p));
    forall q | getKey(q) in r.1
      ensures r.1[getKey(q)] == func(q)
    {
      if getKey(q) == getKey(p) {
        assert func(q) == func(p);
      } else {
        assert getKey(q) in cache;
      }
    }
  }

  class CachedFunction<P(!new), R, K(==,!new)> {
    var cache: map<K, R>
    /** The number of times `func` has been called. */
    ghost var calls: nat
    const func: P -> R
    const getKey: P -> K
    const isUndefined: R -> bool

    constructor (func: P -> R, getKey: P -> K, isUndefined: R -> bool)
      ensures cache == map[] && calls == 0
      ensures this.func == func && this.getKey == getKey && this.isUndefined == isUndefined
    {
      cache, calls := map[], 0;
      this.func, this.getKey, this.isUndefined := func, getKey, isUndefined;
    }

    /** `run`: a hit returns the cached value without calling `func`; a miss calls it once and caches the result. */
    method Run(p: P) returns (r: R)
      modifies this
      ensures (r, cache) == Served(old(cache), getKey(p), isUndefined, func(p))
      ensures calls == old(calls) + (if Hit(old(cache), getKey(p), isUndefined) then 0 else 1)
      ensures KeyDetermines(func, getKey) && old(Faithful(cache, func, getKey)) ==> r == func(p) && Faithful(cache, func, getKey)
    {
      if KeyDetermines(func, getKey) && Faithful(cache, func, getKey) {
        ServedIsFaithful(cache, func, getKey, isUndefined, p);
      }
      var key := getKey(p);
      if key in cache && !isUndefined(cache[key]) {
        return cache[key];
      }
      r := func(p);
      calls := calls + 1;
      cache := cache[key := r];
    }
  }
}
