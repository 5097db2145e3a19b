/**
 * The abstract behaviour of `functools::LRU<Key, Value>`: a recency order
 * (front = least recently used, back = most recently used), the stored
 * values, and the fixed capacity. The class in module Lru is proved to
 * follow these functions step by step.
 */
module LruSpec {
  import opened Seqs

  /** What an iterator returned by `find` or `emplace` designates: `end()` or one entry. */
  datatype Iter<K, V> = End | Item(key: K, value: V)

  datatype Cache<K, V> = Cache(order: seq<K>, values: map<K, V>, capacity: nat)

  /** Result of `emplace`: the new state, the iterator and the `inserted` flag. */
  datatype Emplaced<K, V> = Emplaced(cache: Cache<K, V>, it: Iter<K, V>, inserted: bool)

  /** Result of `find`: the new state (recency updated) and the iterator. */
  datatype Found<K, V> = Found(cache: Cache<K, V>, it: Iter<K, V>)

  /**
   * The container invariant: the order and the index hold the same keys,
   * no key twice, and never more than `capacity` of them.
   */
  predicate Inv<K, V>(c: Cache<K, V>) {
    && NoDup(c.order)
    && (forall i :: 0 <= i < |c.order| ==> c.order[i] in c.values)
    && (forall k :: k in c.values ==> k in c.order)
    && |c.values| == |c.order|
    && |c.order| <= c.capacity
  }

  /**
   * `size()`: the number of entries of the index; in a valid container also
   * the length of the order, and never above the capacity.
   */
  function Size<K, V>(c: Cache<K, V>): (n: nat)
    ensures Inv(c) ==> n == |c.order| && n <= c.capacity
  {
    |c.values|
  }

  /** A freshly constructed container, `LRU(capacity)`. */
  function New<K, V>(capacity: nat): (c: Cache<K, V>)
    ensures Inv(c) && Size(c) == 0 && c.capacity == capacity
  {
    Cache([], map[], capacity)
  }

  /**
   * `find(key)`: `end()` exactly when the key is absent, and then nothing
   * changes; a hit designates the stored entry and moves the key to the
   * back. Values and capacity are never changed.
   */
  function Find<K, V>(c: Cache<K, V>, key: K): (r: Found<K, V>)
    ensures r.it == End <==> key !in c.values
    ensures key in c.values ==> r.it == Item(key, c.values[key])
    ensures key !in c.values ==> r.cache == c
    ensures r.cache.values == c.values && r.cache.capacity == c.capacity
  {
    if key in c.values then Found(c.(order := Touch(c.order, key)), Item(key, c.values[key]))
    else Found(c, End)
  }

  /**
   * `emplace(key, value)`, with its four branches: capacity 0, key present,
   * container full, room left. With capacity 0 nothing changes and `end()`
   * is returned; otherwise the iterator designates the key with the new
   * value, which is stored. `inserted` holds exactly when a new key went
   * in. The capacity never changes.
   */
  function Emplace<K, V>(c: Cache<K, V>, key: K, value: V): (r: Emplaced<K, V>)
    ensures r.cache.capacity == c.capacity
    ensures r.inserted <==> c.capacity > 0 && key !in c.values
    ensures r.it == End <==> c.capacity == 0
    ensures c.capacity == 0 ==> r.cache == c
    ensures c.capacity > 0 ==> r.it == Item(key, value) && key in r.cache.values && r.cache.values[key] == value
  {
    if c.capacity == 0 then
      Emplaced(c, End, false)
    else if key in c.values then
      var found := Find(c, key).cache;
      Emplaced(found.(values := found.values[key := value]), Item(key, value), false)
    else if |c.order| == c.capacity then
      Emplaced(Cache(c.order[1..] + [key], (c.values - {c.order[0]})[key := value], c.capacity), Item(key, value), true)
    else
      Emplaced(Cache(c.order + [key], c.values[key := value], c.capacity), Item(key, value), true)
  }

  /** `clear()`: both structures emptied, capacity kept. */
  function Clear<K, V>(c: Cache<K, V>): (r: Cache<K, V>)
    ensures Inv(r) && Size(r) == 0 && r.capacity == c.capacity
  {
    New(c.capacity)
  }

  // ---------------------------------------------------------------------
  // find

  /** A miss returns `end()` and changes nothing. */
  lemma FindAbsent<K, V>(c: Cache<K, V>, key: K)
    requires key !in c.values
    ensures Find(c, key) == Found(c, End)
  {
  }

  /**
   * A hit returns the stored value, makes the key the most recently used,
   * keeps every other key in its relative order and leaves values, size and
   * capacity unchanged.
   */
  lemma FindPresent<K, V>(c: Cache<K, V>, key: K)
    requires Inv(c) && key in c.values
    ensures var r := Find(c, key);
      && r.it == Item(key, c.values[key])
      && Inv(r.cache)
      && r.cache.values == c.values && r.cache.capacity == c.capacity
      && |r.cache.order| == |c.order| && r.cache.order[|c.order| - 1] == key
      && Without(r.cache.order, key) == Without(c.order, key)
  {
    TouchNoDup(c.order, key);
    TouchKeepsOthers(c.order, key);
    TouchCovers(c, key);
  }

  /** Repeated finds of one key return the same entry and the second changes nothing. */
  lemma FindIdempotent<K, V>(c: Cache<K, V>, key: K)
    ensures var r := Find(c, key);
      Find(r.cache, key) == r
  {
    if key in c.values {
      TouchIdempotent(c.order, key);
    }
  }

  /** Touching a key that is present keeps the order and the index covering the same keys. */
  lemma TouchCovers<K, V>(c: Cache<K, V>, key: K)
    requires Inv(c) && key in c.values
    ensures var t := Touch(c.order, key);
      (forall i :: 0 <= i < |t| ==> t[i] in c.values) && (forall k :: k in c.values ==> k in t)
  {
    var t := Touch(c.order, key);
    TouchMembers(c.order, key);
    forall k | k in c.values
      ensures k in t
    {
      var i :| 0 <= i < |c.order| && c.order[i] == k;
    }
  }

  // ---------------------------------------------------------------------
  // emplace

  /** With capacity 0 every `emplace` is a no-op that reports "not inserted". */
  lemma EmplaceZeroCapacity<K, V>(c: Cache<K, V>, key: K, value: V)
    requires Inv(c) && c.capacity == 0
    ensures Emplace(c, key, value) == Emplaced(c, End, false)
    ensures Size(c) == 0 && Find(c, key).it == End
  {
  }

  /**
   * Emplacing a present key overwrites its value, promotes it to most
   * recently used, reports "not inserted" and keeps the size.
   */
  lemma EmplaceUpdate<K, V>(c: Cache<K, V>, key: K, value: V)
    requires Inv(c) && key in c.values
    ensures var r := Emplace(c, key, value);
      && Inv(r.cache)
      && !r.inserted && r.it == Item(key, value)
      && r.cache.values == c.values[key := value]
      && Size(r.cache) == Size(c)
      && r.cache.order[|r.cache.order| - 1] == key
      && Without(r.cache.order, key) == Without(c.order, key)
  {
    FindPresent(c, key);
  }

  /** Emplacing an absent key with room to spare appends it at the back. */
  lemma EmplaceAppend<K, V>(c: Cache<K, V>, key: K, value: V)
    requires Inv(c) && key !in c.values && |c.order| < c.capacity
    ensures var r := Emplace(c, key, value);
      && Inv(r.cache)
      && r.inserted && r.it == Item(key, value)
      && r.cache.order == c.order + [key]
      && r.cache.values == c.values[key := value]
      && Size(r.cache) == Size(c) + 1
  {
    var r := Emplace(c, key, value).cache;
    assert key !in c.order;
    forall i, j | 0 <= i < j < |r.order|
      ensures r.order[i] != r.order[j]
    {
    }
  }

  /**
   * Emplacing an absent key into a full container evicts exactly the front
   * (least recently used) key, appends the new key at the back, keeps all
   * other keys in their relative order and keeps the size.
   */
  lemma EmplaceEvict<K, V>(c: Cache<K, V>, key: K, value: V)
    requires Inv(c) && key !in c.values && c.capacity > 0 && |c.order| == c.capacity
    ensures var r := Emplace(c, key, value);
      && Inv(r.cache)
      && r.inserted && r.it == Item(key, value)
      && c.order[0] !in r.cache.values
      && r.cache.values == (c.values - {c.order[0]})[key := value]
      && (forall k :: k in c.values && k != c.order[0] ==> k in r.cache.values && r.cache.values[k] == c.values[k])
      && Without(r.cache.order, key) == c.order[1..]
      && r.cache.order[|r.cache.order| - 1] == key
      && Size(r.cache) == Size(c)
  {
    assert key !in c.order;
    DropFrontAppend(c.order, key);
    EvictInv(c, key, value);
  }

  /** The state after an eviction satisfies the invariant. */
  lemma EvictInv<K, V>(c: Cache<K, V>, key: K, value: V)
    requires Inv(c) && key !in c.values && 0 < |c.order| == c.capacity
    ensures Inv(Cache(c.order[1..] + [key], (c.values - {c.order[0]})[key := value], c.capacity))
  {
    var order, values := c.order[1..] + [key], (c.values - {c.order[0]})[key := value];
    assert NoDup(order) by {
      assert key !in c.order;
      DropFrontAppend(c.order, key);
    }
    assert (forall i :: 0 <= i < |order| ==> order[i] in values) && (forall k :: k in values ==> k in order) by {
      EvictCovers(c, key, value);
    }
    assert |values| == |order| by {
      var rest := c.values - {c.order[0]};
      assert rest.Keys == c.values.Keys - {c.order[0]};
      assert |rest| == |c.values| - 1;
    }
  }

  /** After an eviction the order and the index still hold the same keys. */
  lemma EvictCovers<K, V>(c: Cache<K, V>, key: K, value: V)
    requires Inv(c) && key !in c.values && 0 < |c.order|
    ensures var order, values := c.order[1..] + [key], (c.values - {c.order[0]})[key := value];
      && (forall i :: 0 <= i < |order| ==> order[i] in values)
      && (forall k :: k in values ==> k in order)
  {
    var order, values := c.order[1..] + [key], (c.values - {c.order[0]})[key := value];
    forall i | 0 <= i < |order|
      ensures order[i] in values
    {
      if i < |order| - 1 {
        assert order[i] == c.order[i + 1] != c.order[0];
      }
    }
    forall k | k in values
      ensures k in order
    {
      if k != key {
        var i :| 0 <= i < |c.order| && c.order[i] == k;
        assert order[i - 1] == k;
      }
    }
  }

  /** Every `emplace` and `find` keeps the invariant and the capacity. */
  lemma EmplaceInv<K, V>(c: Cache<K, V>, key: K, value: V)
    requires Inv(c)
    ensures Inv(Emplace(c, key, value).cache) && Emplace(c, key, value).cache.capacity == c.capacity
  {
    if c.capacity == 0 {
    } else if key in c.values {
      EmplaceUpdate(c, key, value);
    } else if |c.order| == c.capacity {
      EmplaceEvict(c, key, value);
    } else {
      EmplaceAppend(c, key, value);
    }
  }

  lemma FindInv<K, V>(c: Cache<K, V>, key: K)
    requires Inv(c)
    ensures Inv(Find(c, key).cache) && Find(c, key).cache.capacity == c.capacity
  {
    if key in c.values {
      FindPresent(c, key);
    }
  }

  // ---------------------------------------------------------------------
  // recency

  /**
   * Eviction removes the least recently used key: after a `find` of `key` in
   * a container holding at least two keys, `key` is no longer at the front,
   * so an `emplace` that evicts keeps it.
   */
  lemma FoundKeySurvivesEviction<K, V>(c: Cache<K, V>, key: K, other: K, value: V)
    requires Inv(c) && key in c.values && |c.order| >= 2
    requires other !in c.values && |c.order| == c.capacity
    ensures var found := Find(c, key).cache;
      var r := Emplace(found, other, value).cache;
      key in r.values && r.values[key] == c.values[key]
  {
    FindPresent(c, key);
    var found := Find(c, key).cache;
    EmplaceEvict(found, other, value);
    assert found.order[0] != key;
  }

  /** The operations of the container, for reasoning about whole call sequences. */
  datatype Op<K, V> = EmplaceOp(key: K, value: V) | FindOp(key: K) | ClearOp

  function Step<K, V>(c: Cache<K, V>, op: Op<K, V>): Cache<K, V> {
    match op
    case EmplaceOp(k, v) => Emplace(c, k, v).cache
    case FindOp(k) => Find(c, k).cache
    case ClearOp => Clear(c)
  }

  function Run<K, V>(c: Cache<K, V>, ops: seq<Op<K, V>>): Cache<K, V>
    decreases |ops|
  {
    if ops == [] then c else Run(Step(c, ops[0]), ops[1..])
  }

  /**
   * After any sequence of operations the invariant holds: `size() <= capacity()`,
   * the capacity is the one given at construction, and with capacity 0 the
   * container stays empty.
   */
  lemma {:induction false} RunInv<K, V>(c: Cache<K, V>, ops: seq<Op<K, V>>)
    requires Inv(c)
    ensures var r := Run(c, ops);
      Inv(r) && r.capacity == c.capacity && Size(r) <= c.capacity
      && (c.capacity == 0 ==> Size(r) == 0)
    decreases |ops|
  {
    if ops != [] {
      match ops[0] {
        case EmplaceOp(k, v) => EmplaceInv(c, k, v);
        case FindOp(k) => FindInv(c, k);
        case ClearOp =>
      }
      RunInv(Step(c, ops[0]), ops[1..]);
    }
  }
}
