/**
 * Concrete call sequences on the LRU container and on the memoizers, for
 * which the contracts determine every returned value and size.
 */
module Scenarios {
  import opened LruSpec
  import Lru
  import Memo
  import Cached
  import CachedLegacy

  // ---------------------------------------------------------------------
  // LRU

  /** Capacity 0: size stays 0, nothing is found, `emplace` returns (end, false). */
  lemma LruZeroCapacity()
    ensures var c := New<int, int>(0);
      var r := Emplace(c, 1, 11);
      && c.capacity == 0 && Size(c) == 0 && Find(c, 1).it == End
      && r.it == End && !r.inserted && r.cache == c && Size(r.cache) == 0 && Find(r.cache, 1).it == End
  {
  }

  /** Capacity 2: a third key evicts the first one emplaced. */
  lemma LruEvictOldest()
    ensures var c1 := Emplace(New<int, int>(2), 1, 11).cache;
      var c2 := Emplace(c1, 2, 22).cache;
      var c3 := Emplace(c2, 3, 33).cache;
      && Size(c1) == 1 && Size(c2) == 2 && Size(c3) == 2
      && Find(c3, 1).it == End && Find(c3, 2).it == Item(2, 22) && Find(c3, 3).it == Item(3, 33)
  {
    var c1 := Emplace(New<int, int>(2), 1, 11).cache;
    assert c1 == Cache([1], map[1 := 11], 2);
    var c2 := Emplace(c1, 2, 22).cache;
    assert c2 == Cache([1, 2], map[1 := 11, 2 := 22], 2);
    var c3 := Emplace(c2, 3, 33).cache;
    assert c3.values == map[2 := 22, 3 := 33];
  }

  /** Capacity 2: finding the older key first makes the other one the victim. */
  lemma LruEvictAfterFind()
    ensures var c2 := Emplace(Emplace(New<int, int>(2), 1, 11).cache, 2, 22).cache;
      var c3 := Find(c2, 1).cache;
      var c4 := Emplace(c3, 3, 33).cache;
      && Size(c4) == 2
      && Find(c4, 2).it == End && Find(c4, 1).it == Item(1, 11) && Find(c4, 3).it == Item(3, 33)
  {
    var c2 := Emplace(Emplace(New<int, int>(2), 1, 11).cache, 2, 22).cache;
    assert c2 == Cache([1, 2], map[1 := 11, 2 := 22], 2);
    var c3 := Find(c2, 1).cache;
    assert c3.order == [2, 1] by {
      assert Seqs.Without([1, 2], 1) == [2] by {
        assert [1, 2][1..] == [2];
        assert Seqs.Without([2], 1) == [2] + Seqs.Without([], 1);
      }
    }
    var c4 := Emplace(c3, 3, 33).cache;
    assert c4.values == map[1 := 11, 3 := 33];
  }

  /** Capacity 3: emplacing a present key reports "not inserted", keeps the size and overwrites the value. */
  lemma LruEmplaceReturnValue()
    ensures var r1 := Emplace(New<int, int>(3), 1, 11);
      var r2 := Emplace(r1.cache, 2, 22);
      var r3 := Emplace(r2.cache, 1, 111);
      && r1.inserted && r1.it == Item(1, 11)
      && r2.inserted && r2.it == Item(2, 22) && Size(r2.cache) == 2
      && !r3.inserted && r3.it == Item(1, 111) && Size(r3.cache) == 2
      && Find(r3.cache, 1).it == Item(1, 111) && Find(r3.cache, 2).it == Item(2, 22)
  {
    var r1 := Emplace(New<int, int>(3), 1, 11);
    assert r1.cache == Cache([1], map[1 := 11], 3);
    var r2 := Emplace(r1.cache, 2, 22);
    assert r2.cache == Cache([1, 2], map[1 := 11, 2 := 22], 3);
    var r3 := Emplace(r2.cache, 1, 111);
    assert r3.cache.values == map[1 := 111, 2 := 22];
  }

  /** The container class on the same sequence: emplacing 1, 2 and 3 with capacity 2 evicts 1. */
  method LruClassEvictOldest() returns (n: nat, f1: Iter<int, int>, f2: Iter<int, int>, f3: Iter<int, int>)
    ensures n == 2 && f1 == End && f2 == Item(2, 22) && f3 == Item(3, 33)
  {
    var lru := new Lru.LRU<int, int>(2);
    var it, inserted := lru.Emplace(1, 11);
    it, inserted := lru.Emplace(2, 22);
    it, inserted := lru.Emplace(3, 33);
    LruEvictOldest();
    assert lru.Abstract() == Emplace(Emplace(Emplace(New<int, int>(2), 1, 11).cache, 2, 22).cache, 3, 33).cache;
    n := lru.Size();
    f1 := lru.Find(1);
    f2 := lru.Find(2);
    f3 := lru.Find(3);
  }

  /** The container class on the same sequence: after `find(1)`, emplacing 3 evicts 2. */
  method LruClassEvictAfterFind() returns (n: nat, f2: Iter<int, int>, f1: Iter<int, int>, f3: Iter<int, int>)
    ensures n == 2 && f2 == End && f1 == Item(1, 11) && f3 == Item(3, 33)
  {
    var lru := new Lru.LRU<int, int>(2);
    var it, inserted := lru.Emplace(1, 11);
    it, inserted := lru.Emplace(2, 22);
    it := lru.Find(1);
    it, inserted := lru.Emplace(3, 33);
    LruEvictAfterFind();
    assert lru.Abstract() == Emplace(Find(Emplace(Emplace(New<int, int>(2), 1, 11).cache, 2, 22).cache, 1).cache, 3, 33).cache;
    n := lru.Size();
    f2 := lru.Find(2);
    f1 := lru.Find(1);
    f3 := lru.Find(3);
  }

  // ---------------------------------------------------------------------
  // cached_func of cached.hpp

  /** `func3` of the tests: `s` followed by `n` copies of `c`. */
  function Func3(n: nat, c: char, s: string): (r: string)
    ensures |r| == |s| + n
  {
    s + seq(n, _ => c)
  }

  /**
   * One parameter: each call gives what `100 + n` gives; repeated arguments
   * are hits and do not grow the cache.
   */
  method OneParam() returns (r1: int, r2: int, r3: int, r4: int, r5: int,
                             s0: nat, s1: nat, s2: nat, s3: nat, s4: nat, s5: nat)
    ensures r1 == r2 == r4 == 101 && r3 == r5 == 102
    ensures s0 == 0 && s1 == 1 && s2 == 1 && s3 == 2 && s4 == 2 && s5 == 2
  {
    var cached := new Cached.CachedFunc<(), int, int>((e: (), n: int) => 100 + n);
    s0 := cached.CacheSize();
    r1 := cached.Call((), 1);
    s1 := cached.CacheSize();
    r2 := cached.Call((), 1);
    s2 := cached.CacheSize();
    r3 := cached.Call((), 2);
    s3 := cached.CacheSize();
    assert cached.cache == map[1 := 101, 2 := 102];
    r4 := cached.Call((), 1);
    s4 := cached.CacheSize();
    r5 := cached.Call((), 2);
    s5 := cached.CacheSize();
  }

  /**
   * Three parameters: each call gives what `func3` gives; tuples that
   * differ in a single component are separate entries.
   */
  method ThreeParams() returns (r1: string, r2: string, r3: string, r4: string, r5: string, r6: string,
                                s0: nat, s1: nat, s2: nat, s3: nat, s4: nat, s5: nat, s6: nat)
    ensures r1 == Func3(1, 'X', "str") && r2 == Func3(1, 'X', "str") && r3 == Func3(2, 'Y', "str")
    ensures r4 == Func3(1, 'X', "str") && r5 == Func3(2, 'Y', "str") && r6 == Func3(2, 'Z', "str")
    ensures s0 == 0 && s1 == 1 && s2 == 1 && s3 == 2 && s4 == 2 && s5 == 2 && s6 == 3
  {
    var cached := new Cached.CachedFunc<(), (nat, char, string), string>(
      (e: (), t: (nat, char, string)) => Func3(t.0, t.1, t.2));
    s0 := cached.CacheSize();
    r1 := cached.Call((), (1, 'X', "str"));
    s1 := cached.CacheSize();
    r2 := cached.Call((), (1, 'X', "str"));
    s2 := cached.CacheSize();
    r3 := cached.Call((), (2, 'Y', "str"));
    s3 := cached.CacheSize();
    assert cached.cache.Keys == {(1, 'X', "str"), (2, 'Y', "str")};
    r4 := cached.Call((), (1, 'X', "str"));
    s4 := cached.CacheSize();
    r5 := cached.Call((), (2, 'Y', "str"));
    s5 := cached.CacheSize();
    r6 := cached.Call((), (2, 'Z', "str"));
    s6 := cached.CacheSize();
  }

  /**
   * A callable capturing `a` by reference: after `a` changes, arguments
   * already cached still give the old results; only a new argument sees
   * the new `a`.
   */
  method RefCapturing() returns (r1: int, r2: int, r3: int, r4: int, r5: int, r6: int, size: nat)
    ensures r1 == r2 == 13 && r3 == 14
    ensures r4 == 13 && r5 == 14 && r6 == 25 && size == 3
  {
    var cached := new Cached.CachedFunc<int, int, int>((a: int, p: int) => a + p);
    var a := 10;
    r1 := cached.Call(a, 3);
    r2 := cached.Call(a, 3);
    r3 := cached.Call(a, 4);
    a := 20;
    r4 := cached.Call(a, 3);
    r5 := cached.Call(a, 4);
    r6 := cached.Call(a, 5);
    size := cached.CacheSize();
  }

  /** Mapping the memoized `100 + n` over an input gives what `100 + n` itself gives. */
  lemma TransformAgrees()
    ensures Memo.Run(map[], (n: int) => 100 + n, [1, 1, 2, 1, 2, 3, 4]).results == [101, 101, 102, 101, 102, 103, 104]
  {
    var f := (n: int) => 100 + n;
    var keys := [1, 1, 2, 1, 2, 3, 4];
    Memo.RunAgrees(map[], f, keys);
    var rs := Memo.Run(map[], f, keys).results;
    assert rs == [rs[0], rs[1], rs[2], rs[3], rs[4], rs[5], rs[6]];
  }

  // ---------------------------------------------------------------------
  // cached_func of cached.h

  /** The earlier memoizer returns a stale result for a reference-capturing callable in the same way. */
  method LegacyRefCapturing() returns (r1: int, r2: int, r3: int, r4: int, r5: int, r6: int)
    ensures r1 == r2 == 13 && r3 == 14
    ensures r4 == 13 && r5 == 14 && r6 == 25
  {
    var cached := new CachedLegacy.CachedFunc<int, int, int>((a: int, p: int) => a + p, (p: int) => p);
    r1 := cached.Call(10, 3);
    assert cached.cache == map[3 := 13];
    r2 := cached.Call(10, 3);
    r3 := cached.Call(10, 4);
    assert cached.cache == map[3 := 13, 4 := 14];
    r4 := cached.Call(20, 3);
    r5 := cached.Call(20, 4);
    assert cached.cache == map[3 := 13, 4 := 14];
    r6 := cached.Call(20, 5);
  }

  /**
   * The earlier memoizer with one `int` parameter, which forwarding leaves
   * as it is: each call gives what `100 + n` gives, a hit does not grow the
   * cache, a new argument does.
   */
  method LegacyOneParam() returns (r1: int, r2: int, r3: int, r4: int, r5: int,
                                   s0: nat, s1: nat, s2: nat, s3: nat, s4: nat, s5: nat)
    ensures r1 == r2 == r4 == 101 && r3 == r5 == 102
    ensures s0 == 0 && s1 == 1 && s2 == 1 && s3 == 2 && s4 == 2 && s5 == 2
  {
    var cached := new CachedLegacy.CachedFunc<(), int, int>((e: (), n: int) => 100 + n, (n: int) => n);
    s0 := cached.CacheSize();
    r1 := cached.Call((), 1);
    s1 := cached.CacheSize();
    r2 := cached.Call((), 1);
    s2 := cached.CacheSize();
    r3 := cached.Call((), 2);
    s3 := cached.CacheSize();
    assert cached.cache == map[1 := 101, 2 := 102];
    r4 := cached.Call((), 1);
    s4 := cached.CacheSize();
    r5 := cached.Call((), 2);
    s5 := cached.CacheSize();
  }

  /** What forwarding leaves of `(int, char, std::string)` taken by value: the string is moved out. */
  function MovedFrom(t: (nat, char, string)): (u: (nat, char, string))
    ensures u == t <==> t.2 == ""
  {
    (t.0, t.1, "")
  }

  /** A tuple already moved from is left as it is, so once stored it is hit by a call with that tuple. */
  lemma MovedFromIdempotent(t: (nat, char, string))
    ensures MovedFrom(MovedFrom(t)) == MovedFrom(t)
  {
  }

  /**
   * The earlier memoizer with `(int, char, std::string)` parameters, the
   * first calls of the three-parameter test: every result is what `func3`
   * gives and the sizes are those the test expects, yet the repeated call
   * is not a hit: each result is stored under the tuple with the moved-from
   * string, and no argument tuple is ever stored.
   */
  method LegacyThreeParams() returns (r1: string, r2: string, r3: string, s0: nat, s1: nat, s2: nat, s3: nat,
                                      keys: set<(nat, char, string)>)
    ensures r1 == Func3(1, 'X', "str") && r2 == Func3(1, 'X', "str") && r3 == Func3(2, 'Y', "str")
    ensures s0 == 0 && s1 == 1 && s2 == 1 && s3 == 2
    ensures keys == {(1, 'X', ""), (2, 'Y', "")}
  {
    var cached := new CachedLegacy.CachedFunc<(), (nat, char, string), string>(
      (e: (), t: (nat, char, string)) => Func3(t.0, t.1, t.2), MovedFrom);
    s0 := cached.CacheSize();
    r1 := cached.Call((), (1, 'X', "str"));
    s1 := cached.CacheSize();
    r2 := cached.Call((), (1, 'X', "str"));
    s2 := cached.CacheSize();
    r3 := cached.Call((), (2, 'Y', "str"));
    s3 := cached.CacheSize();
    keys := cached.cache.Keys;
  }

  /**
   * The earlier memoizer with `(int, char, std::string)` parameters: after
   * `(1, 'X', "str")`, the call with `(1, 'X', "")` is a hit on the entry
   * filed under the moved-from tuple and returns "strX", not what `func3`
   * gives for it ("X").
   */
  method LegacyMovedStale() returns (r1: string, r2: string)
    ensures r1 == Func3(1, 'X', "str") && r2 == r1
    ensures r2 != Func3(1, 'X', "")
  {
    var cached := new CachedLegacy.CachedFunc<(), (nat, char, string), string>(
      (e: (), t: (nat, char, string)) => Func3(t.0, t.1, t.2), MovedFrom);
    r1 := cached.Call((), (1, 'X', "str"));
    r2 := cached.Call((), (1, 'X', ""));
  }
}
