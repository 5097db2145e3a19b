/**
 * `functools::cached_func` of cached.hpp: a callable wrapped together with
 * a mutable map from argument tuples to results. The argument pack is one
 * value of type `K` (the tuple `key_type` built from the arguments); the
 * wrapped callable is a function of that tuple and of the outside state `E`
 * it may capture by reference (a callable that captures nothing ignores it).
 */
module Cached {
  import Memo

  class CachedFunc<E, K(==), R> {
    /** `mFunc`: what the wrapped callable returns for each outside state and argument tuple. */
    const func: (E, K) -> R
    /** `mCache`. */
    var cache: map<K, R>

    /** The function the callable computes while the outside state is `env`. */
    function Current(env: E): K -> R {
      k => func(env, k)
    }

    /** The constructors and `make_cached_func`: the callable is kept and the cache starts empty. */
    constructor (func: (E, K) -> R)
      ensures this.func == func && cache == map[]
    {
      this.func := func;
      cache := map[];
    }

    /**
     * `operator()`: look the tuple up; on a hit return the stored result,
     * on a miss call the callable, store its result and return it.
     */
    method Call(env: E, key: K) returns (r: R)
      modifies this
      ensures Memo.Outcome(r, cache) == Memo.Lookup(old(cache), Current(env), key)
      ensures key in old(cache) ==> r == old(cache)[key] && cache == old(cache)
      ensures key !in old(cache) ==> r == func(env, key) && |cache| == |old(cache)| + 1
      ensures Memo.Agrees(old(cache), Current(env)) ==> r == func(env, key) && Memo.Agrees(cache, Current(env))
    {
      Memo.LookupSize(cache, Current(env), key);
      if key in cache {
        r := cache[key];
        return;
      }
      r := func(env, key);
      cache := cache[key := r];
    }

    /** `cache_size()`: the number of stored tuples. */
    method CacheSize() returns (n: nat)
      ensures n == |cache|
    {
      n := |cache|;
    }

    /** `cache_clear()`: every stored result is dropped; the callable is kept. */
    method CacheClear()
      modifies this
      ensures cache == map[]
    {
      cache := map[];
    }
  }
}
