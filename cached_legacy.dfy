/**
 * The earlier `functools::cached_func` of cached.h. Its `operator()` builds
 * the key tuple from the arguments twice: once for the lookup, before the
 * call, and once for storing, after the arguments were forwarded into the
 * callable. An argument taken by value is moved by that forwarding, so the
 * second tuple is built from what the move left behind (for a
 * `std::string`, in the usual standard libraries, the empty string). The
 * class therefore carries, next to the callable, the function `forwarded`
 * that says what forwarding leaves of an argument tuple; it is the identity
 * when no argument is moved from (integers, characters, references).
 */
module CachedLegacy {
  import Memo

  /**
   * One call on values: the lookup uses the argument tuple `key`; a miss
   * returns `f(key)` and emplaces it under the rebuilt tuple `stored`, which
   * leaves an entry already stored there as it is.
   */
  function LookupAsWritten<K, R>(cache: map<K, R>, f: K -> R, key: K, stored: K): (o: Memo.Outcome<K, R>)
    ensures key in cache ==> o.result == cache[key] && o.cache == cache
    ensures key !in cache ==> o.result == f(key)
    ensures key !in cache ==> o.cache.Keys == cache.Keys + {stored}
    ensures forall k :: k in cache ==> o.cache[k] == cache[k]
  {
    if key in cache then Memo.Outcome(cache[key], cache)
    else
      var r := f(key);
      Memo.Outcome(r, if stored in cache then cache else cache[stored := r])
  }

  /** When the rebuilt tuple is the argument tuple, a call is the lookup of cached.hpp. */
  lemma AsWrittenIntact<K, R>(cache: map<K, R>, f: K -> R, key: K)
    ensures LookupAsWritten(cache, f, key, key) == Memo.Lookup(cache, f, key)
  {
  }

  /**
   * When forwarding changed the arguments, a miss does not store the
   * argument tuple, so calling again with the same arguments misses again;
   * the result is filed under the changed tuple, and a later call with that
   * tuple gets a result the callable does not give for it.
   */
  lemma AsWrittenMisfiles<K, R>(cache: map<K, R>, f: K -> R, key: K, stored: K)
    requires key !in cache && stored !in cache && stored != key
    ensures var o := LookupAsWritten(cache, f, key, stored);
      && key !in o.cache
      && o.cache[stored] == f(key)
      && |o.cache| == |cache| + 1
      && (f(stored) != f(key) ==> !Memo.Agrees(o.cache, f))
  {
    var o := LookupAsWritten(cache, f, key, stored);
    assert o.cache == cache[stored := f(key)];
    assert |o.cache.Keys| == |cache.Keys| + 1;
  }

  class CachedFunc<E, K(==), R> {
    /** `mFunc`, as a function of the outside state it may read and of the argument tuple. */
    const func: (E, K) -> R
    /**
     * What forwarding the arguments into `mFunc` leaves of the argument
     * tuple; fixed by the parameter types.
     */
    const forwarded: K -> K
    /** `mCache`. */
    var cache: map<K, R>

    /** The function the callable computes while the outside state is `env`. */
    function Current(env: E): K -> R {
      k => func(env, k)
    }

    /** The two constructors and `make_cached_func`: the callable is kept and the cache starts empty. */
    constructor (func: (E, K) -> R, forwarded: K -> K)
      ensures this.func == func && this.forwarded == forwarded && cache == map[]
    {
      this.func := func;
      this.forwarded := forwarded;
      cache := map[];
    }

    /**
     * `operator()`: find `key_type(args...)`; on a hit return the stored
     * result; on a miss call the callable with the forwarded arguments and
     * emplace its result under `key_type(args...)` rebuilt afterwards.
     * Only when forwarding leaves the arguments as they were is this the
     * lookup-or-compute step of cached.hpp.
     */
    method Call(env: E, args: K) returns (r: R)
      modifies this
      ensures Memo.Outcome(r, cache) == LookupAsWritten(old(cache), Current(env), args, forwarded(args))
      ensures args in old(cache) ==> r == old(cache)[args] && cache == old(cache)
      ensures args !in old(cache) ==> r == func(env, args)
      ensures forwarded(args) == args ==> Memo.Outcome(r, cache) == Memo.Lookup(old(cache), Current(env), args)
      ensures forwarded(args) in old(cache) ==> cache == old(cache)
      ensures args !in old(cache) && forwarded(args) !in old(cache) ==> |cache| == |old(cache)| + 1
      ensures forwarded(args) == args && Memo.Agrees(old(cache), Current(env)) ==>
        r == func(env, args) && Memo.Agrees(cache, Current(env))
    {
      Memo.LookupSize(cache, Current(env), args);
      if args in cache {
        return cache[args];
      }
      var ret := func(env, args);
      var key := forwarded(args);
      if key !in cache {
        cache := cache[key := ret];
      }
      return ret;
    }

    /** `cache_size()`. */
    method CacheSize() returns (n: nat)
      ensures n == |cache|
    {
      n := |cache|;
    }

    /** `cache_clear()`: the cache is emptied; the callable is kept. */
    method CacheClear()
      modifies this
      ensures cache == map[]
    {
      cache := map[];
    }
  }
}
