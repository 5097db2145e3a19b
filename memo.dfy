/**
 * The lookup-or-compute step of a memoized function `cached_func`, on
 * values: the cache is a map from argument tuples to results, and the
 * wrapped callable is passed as the function `f` it computes at the time of
 * the call. A callable that captures outside state by reference computes a
 * different `f` once that state changes; the cache does not notice.
 */
module Memo {

  /** What one call returns, together with the cache it leaves behind. */
  datatype Outcome<K, R> = Outcome(result: R, cache: map<K, R>)

  /**
   * One call with argument tuple `key`. On a hit the stored value is
   * returned and the cache is left as it is; on a miss `f(key)` is computed,
   * stored under `key` and returned.
   */
  function Lookup<K, R>(cache: map<K, R>, f: K -> R, key: K): (o: Outcome<K, R>)
    ensures key in o.cache && o.result == o.cache[key]
    ensures o.cache.Keys == cache.Keys + {key}
    ensures forall k :: k in cache ==> o.cache[k] == cache[k]
    ensures key in cache ==> o.result == cache[key]
    ensures key !in cache ==> o.result == f(key)
  {
    if key in cache then Outcome(cache[key], cache)
    else var r := f(key); Outcome(r, cache[key := r])
  }

  /** Every stored entry is what `f` computes for its key. */
  ghost predicate Agrees<K, R>(cache: map<K, R>, f: K -> R) {
    forall k :: k in cache ==> cache[k] == f(k)
  }

  /**
   * The size of the cache grows by exactly one on a miss and is unchanged on
   * a hit; a miss stores `f(key)`.
   */
  lemma LookupSize<K, R>(cache: map<K, R>, f: K -> R, key: K)
    ensures var o := Lookup(cache, f, key);
      && (key in cache ==> o.cache == cache && |o.cache| == |cache|)
      && (key !in cache ==> |o.cache| == |cache| + 1 && o.cache[key] == f(key))
  {
    var o := Lookup(cache, f, key);
    if key in cache {
      assert o.cache.Keys == cache.Keys;
    } else {
      assert o.cache.Keys == cache.Keys + {key};
      assert |o.cache.Keys| == |cache.Keys| + 1;
    }
  }

  /**
   * A hit does not consult the callable: whatever the callable computes
   * now, the outcome is the one stored earlier. This is why a callable that
   * captures state by reference yields a stale value after that state
   * changes.
   */
  lemma HitIgnoresCallable<K, R>(cache: map<K, R>, f: K -> R, g: K -> R, key: K)
    requires key in cache
    ensures Lookup(cache, f, key) == Lookup(cache, g, key) == Outcome(cache[key], cache)
  {
  }

  /**
   * While the cache agrees with a pure callable `f`, the memoized function
   * returns exactly `f(key)` and the cache keeps agreeing with `f`.
   */
  lemma LookupAgrees<K, R>(cache: map<K, R>, f: K -> R, key: K)
    requires Agrees(cache, f)
    ensures Lookup(cache, f, key).result == f(key)
    ensures Agrees(Lookup(cache, f, key).cache, f)
  {
  }

  /** Results of a sequence of calls, in call order, and the final cache. */
  datatype Calls<K, R> = Calls(results: seq<R>, cache: map<K, R>)

  /** The calls `keys[0]`, `keys[1]`, ... made one after the other on `cache`. */
  function Run<K, R>(cache: map<K, R>, f: K -> R, keys: seq<K>): (r: Calls<K, R>)
    ensures |r.results| == |keys|
    decreases |keys|
  {
    if keys == [] then Calls([], cache)
    else
      var before := Run(cache, f, keys[..|keys| - 1]);
      var o := Lookup(before.cache, f, keys[|keys| - 1]);
      Calls(before.results + [o.result], o.cache)
  }

  /** The argument tuples occurring in `keys`. */
  ghost function Called<K>(keys: seq<K>): set<K> {
    set i | 0 <= i < |keys| :: keys[i]
  }

  /** The tuples of a sequence are those of all but its last element, and the last one. */
  lemma CalledSnoc<K>(keys: seq<K>)
    requires keys != []
    ensures Called(keys) == Called(keys[..|keys| - 1]) + {keys[|keys| - 1]}
  {
    var init := keys[..|keys| - 1];
    forall k | k in Called(keys)
      ensures k in Called(init) + {keys[|keys| - 1]}
    {
      var i :| 0 <= i < |keys| && keys[i] == k;
      if i < |init| {
        assert init[i] == k;
      }
    }
    forall k | k in Called(init)
      ensures k in Called(keys)
    {
      var i :| 0 <= i < |init| && init[i] == k;
      assert keys[i] == k;
    }
  }

  /** The cache ends up holding exactly the keys it held before and the keys called. */
  lemma {:induction false} RunKeys<K, R>(cache: map<K, R>, f: K -> R, keys: seq<K>)
    ensures Run(cache, f, keys).cache.Keys == cache.Keys + Called(keys)
    decreases |keys|
  {
    if keys != [] {
      RunKeys(cache, f, keys[..|keys| - 1]);
      CalledSnoc(keys);
    }
  }

  /**
   * Starting from an empty cache, `cache_size()` is the number of distinct
   * argument tuples called so far, and so never exceeds the number of calls.
   */
  lemma DistinctCallsBound<K, R>(f: K -> R, keys: seq<K>)
    ensures |Run(map[], f, keys).cache| == |Called(keys)| <= |keys|
  {
    var empty: map<K, R> := map[];
    RunKeys(empty, f, keys);
    assert Run(empty, f, keys).cache.Keys == Called(keys);
    CalledBound(keys);
  }

  lemma {:induction false} CalledBound<K>(keys: seq<K>)
    ensures |Called(keys)| <= |keys|
    decreases |keys|
  {
    if keys != [] {
      CalledBound(keys[..|keys| - 1]);
      CalledSnoc(keys);
    }
  }

  /**
   * With a pure callable, every call of a sequence returns what the callable
   * itself returns for that argument, hit or miss.
   */
  lemma {:induction false} RunAgrees<K, R>(cache: map<K, R>, f: K -> R, keys: seq<K>)
    requires Agrees(cache, f)
    ensures Agrees(Run(cache, f, keys).cache, f)
    ensures forall i :: 0 <= i < |keys| ==> Run(cache, f, keys).results[i] == f(keys[i])
    decreases |keys|
  {
    if keys != [] {
      var init := keys[..|keys| - 1];
      RunAgrees(cache, f, init);
      var before := Run(cache, f, init);
      LookupAgrees(before.cache, f, keys[|keys| - 1]);
      forall i | 0 <= i < |keys|
        ensures Run(cache, f, keys).results[i] == f(keys[i])
      {
        if i < |init| {
          assert Run(cache, f, keys).results[i] == before.results[i];
          assert keys[i] == init[i];
        }
      }
    }
  }
}
