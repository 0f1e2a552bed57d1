/**
 * `memoize({fn, key})`: a closure over a cache keyed by `key(query)`. The cache is consulted
 * with `has`, so every stored result, `undefined` included, is reused. The closure is modelled
 * as an object whose one method is the returned function; the key function is explicit.
 */
module Memoize {
  import CachedFunction

  /** One call on the cache `cache` for a query with key `k`, where `computed` is `fn(query)`. */
  function Consult<D>(cache: map<string, D>, k: string, computed: D): (r: (D, map<string, D>))
    ensures k in r.1 && r.1[k] == r.0
    ensures k in cache ==> r == (cache[k], cache)
    ensures k !in cache ==> r == (computed, cache[k := computed])
  {
    if k in cache then (cache[k], cache) else (computed, cache[k := computed])
  }

  /** With no result counted as `undefined`, `memoize` and `CachedFunction.run` agree. */
  lemma ConsultIsServedWithoutUndefined<D>(cache: map<string, D>, k: string, computed: D)
    ensures Consult(cache, k, computed) == CachedFunction.Served(cache, k, _ => false, computed)
  {
  }

  /** A stored result is reused even when it is one `CachedFunction` would treat as `undefined`. */
  lemma ConsultReusesEveryStoredResult<D>(cache: map<string, D>, k: string, computed: D, isUndefined: D -> bool)
    requires k in cache && isUndefined(cache[k]) && computed != cache[k]
    ensures Consult(cache, k, computed).0 != CachedFunction.Served(cache, k, isUndefined, computed).0
  {
  }

  predicate Distinct(s: seq<string>)
  {
    forall i, j :: 0 <= i < j < |s| ==> s[i] != s[j]
  }

  class Memoized<Q(!new), D> {
    var cache: map<string, D>
    /** The keys for which `fn` was called, in call order. */
    ghost var computed: seq<string>
    const fn: Q -> D
    const key: Q -> string

    /** `fn` has run once per cached key and never for any other. */
    ghost predicate Valid()
      reads this
    {
      Distinct(computed) && (forall k :: k in computed <==> k in cache)
    }

    constructor (fn: Q -> D, key: Q -> string)
      ensures Valid() && cache == map[] && computed == []
      ensures this.fn == fn && this.key == key
    {
      cache, computed := map[], [];
      this.fn, this.key := fn, key;
    }

    /** The memoised function: `fn` is called only for a key not seen before. */
    method Call(query: Q) returns (r: D)
      requires Valid()
      modifies this
      ensures Valid()
      ensures (r, cache) == Consult(old(cache), key(query), fn(query))
      ensures computed == old(computed) + (if key(query) in old(cache) then [] else [key(query)])
      ensures InjectiveKey() && old(Faithful()) ==> r == fn(query) && Faithful()
    {
      if InjectiveKey() && Faithful() {
        ConsultIsFaithful(cache, fn, key, query);
      }
      var cacheKey := key(query);
      if cacheKey in cache {
        return cache[cacheKey];
      }
      r := fn(query);
      computed := computed + [cacheKey];
      cache := cache[cacheKey := r];
    }

    /**
     * For a deterministic `fn` and a key that tells queries apart, every result is `fn`'s own:
     * the cache holds for each key what `fn` returns on the queries with that key.
     */
    ghost predicate Faithful()
      reads this
    {
      CachedFunction.Faithful(cache, fn, key)
    }

    /** The key tells queries apart. */
    ghost predicate InjectiveKey()
    {
      forall p, q :: key(p) == key(q) ==> p == q
    }
  }

  /** An injective key determines the result. */
  lemma InjectiveKeyDetermines<Q(!new), D>(fn: Q -> D, key: Q -> string)
    requires forall p, q :: key(p) == key(q) ==> p == q
    ensures CachedFunction.KeyDetermines(fn, key)
  {
  }

  /** Under an injective key, a call on a faithful cache returns `fn(query)` and keeps the cache faithful. */
  lemma {:induction false} ConsultIsFaithful<Q(!new), D>(cache: map<string, D>, fn: Q -> D, key: Q -> string, query: Q)
    requires forall p, q :: key(p) == key(q) ==> p == q
    requires CachedFunction.Faithful(cache, fn, key)
    ensures var r := Consult(cache, key(query), fn(query));
      r.0 == fn(query) && CachedFunction.Faithful(r.1, fn, key)
  {
    InjectiveKeyDetermines(fn, key);
    ConsultIsServedWithoutUndefined(cache, key(query), fn(query));
    CachedFunction.ServedIsFaithful(cache, fn, key, _ => false, query);
  }
}
