/**
 * `functools::LRU<Key, Value>`: a recency list (`mOrder`) and an index
 * (`mItems`) from each key to its value and to the list node holding the
 * key (`CachedItem::pos`), kept in lock-step.
 */
module Lru {
  import opened Seqs
  import opened OrderList
  import opened LruSpec

  /** An index entry: the value and the position of the key's list node. */
  datatype CachedItem<V> = CachedItem(value: V, pos: nat)

  /**
   * The representation invariant of the container:
   * the list visits `slots`; the index and the list hold the same keys, each
   * key once; every `pos` names the node holding its own key; at most
   * `capacity` entries.
   */
  ghost predicate Consistent<K, V>(capacity: nat, order: List<K>, items: map<K, CachedItem<V>>, slots: seq<nat>) {
    && Links(order, slots)
    && |slots| <= capacity
    && |items| == |slots|
    && NodesIndexed(order, items, slots)
    && ItemsIndexed(order, items, slots)
  }

  /** Every node of the list is indexed under its key, and the entry points back at the node. */
  ghost predicate NodesIndexed<K, V>(order: List<K>, items: map<K, CachedItem<V>>, slots: seq<nat>)
    requires forall i :: 0 <= i < |slots| ==> slots[i] < |order.nodes|
  {
    forall i {:trigger order.nodes[slots[i]]} :: 0 <= i < |slots| ==>
      order.nodes[slots[i]].key in items && items[order.nodes[slots[i]].key].pos == slots[i]
  }

  /** Every index entry points at a node of the list that holds its key. */
  ghost predicate ItemsIndexed<K, V>(order: List<K>, items: map<K, CachedItem<V>>, slots: seq<nat>) {
    forall k {:trigger items[k]} :: k in items ==>
      items[k].pos in slots && items[k].pos < |order.nodes| && order.nodes[items[k].pos].key == k
  }

  /** The values of the index. */
  function ValuesOf<K, V>(items: map<K, CachedItem<V>>): (m: map<K, V>)
    ensures m.Keys == items.Keys
    ensures forall k :: k in items ==> m[k] == items[k].value
  {
    map k | k in items :: items[k].value
  }

  lemma ValuesOfUpdate<K, V>(items: map<K, CachedItem<V>>, key: K, item: CachedItem<V>)
    ensures ValuesOf(items[key := item]) == ValuesOf(items)[key := item.value]
  {
  }

  lemma ValuesOfRemove<K, V>(items: map<K, CachedItem<V>>, key: K)
    ensures ValuesOf(items - {key}) == ValuesOf(items) - {key}
  {
  }

  /** The abstract container a representation stands for. */
  ghost function AbstractOf<K, V>(capacity: nat, order: List<K>, items: map<K, CachedItem<V>>, slots: seq<nat>): Cache<K, V>
    requires Consistent(capacity, order, items, slots)
  {
    Cache(Keys(order, slots), ValuesOf(items), capacity)
  }

  /** A consistent representation stands for a container satisfying the abstract invariant. */
  lemma ConsistentInv<K, V>(capacity: nat, order: List<K>, items: map<K, CachedItem<V>>, slots: seq<nat>)
    requires Consistent(capacity, order, items, slots)
    ensures Inv(AbstractOf(capacity, order, items, slots))
  {
    var ks := Keys(order, slots);
    forall i, j | 0 <= i < j < |ks|
      ensures ks[i] != ks[j]
    {
      assert items[ks[i]].pos == slots[i] && items[ks[j]].pos == slots[j];
    }
    forall k | k in items
      ensures k in ks
    {
      var i :| 0 <= i < |slots| && slots[i] == items[k].pos;
      assert ks[i] == k;
    }
  }

  /** Splicing the `i`-th node of the list to the back keeps the representation consistent. */
  lemma SpliceConsistent<K, V>(capacity: nat, order: List<K>, items: map<K, CachedItem<V>>, slots: seq<nat>, i: nat)
    requires Consistent(capacity, order, items, slots) && i < |slots|
    ensures Consistent(capacity, MoveToBack(order, slots[i]), items, Rotated(slots, i))
  {
    var order', slots' := MoveToBack(order, slots[i]), Rotated(slots, i);
    MoveToBackLinks(order, slots, i);
    RotatedNoDup(slots, i);
    forall j | 0 <= j < |slots'|
      ensures order'.nodes[slots'[j]].key in items && items[order'.nodes[slots'[j]].key].pos == slots'[j]
    {
      var j' := if j < i then j else if j < |slots| - 1 then j + 1 else i;
      assert slots'[j] == slots[j'];
    }
  }

  /**
   * `find` on a present key: after the splice of its node (the `i`-th of the
   * list) the abstract order is the touched order.
   */
  lemma SpliceFind<K, V>(capacity: nat, order: List<K>, items: map<K, CachedItem<V>>, slots: seq<nat>, i: nat)
    requires Consistent(capacity, order, items, slots) && i < |slots|
    ensures var order', slots' := MoveToBack(order, slots[i]), Rotated(slots, i);
      && Consistent(capacity, order', items, slots')
      && AbstractOf(capacity, order', items, slots')
         == Find(AbstractOf(capacity, order, items, slots), order.nodes[slots[i]].key).cache
  {
    SpliceConsistent(capacity, order, items, slots, i);
    KeysMoveToBack(order, slots, i);
    ConsistentInv(capacity, order, items, slots);
    RotatedIsTouch(Keys(order, slots), i);
    assert order.nodes[slots[i]].key in ValuesOf(items);
  }

  /** A miss of `find` leaves the container as it is. */
  lemma FindMiss<K, V>(capacity: nat, order: List<K>, items: map<K, CachedItem<V>>, slots: seq<nat>, key: K)
    requires Consistent(capacity, order, items, slots) && key !in items
    ensures var c := AbstractOf(capacity, order, items, slots); Find(c, key) == Found(c, End)
  {
  }

  /**
   * A hit of `find`: `order'` and `slots'` are the list and the traversal
   * after the splice of the key's node, the `i`-th of the list.
   */
  lemma FindHit<K, V>(capacity: nat, order: List<K>, items: map<K, CachedItem<V>>, slots: seq<nat>, key: K, i: nat,
                      order': List<K>, slots': seq<nat>)
    requires Consistent(capacity, order, items, slots) && key in items && i < |slots| && slots[i] == items[key].pos
    requires order' == MoveToBack(order, items[key].pos) && slots' == Rotated(slots, i)
    ensures Consistent(capacity, order', items, slots')
    ensures Found(AbstractOf(capacity, order', items, slots'), Item(key, items[key].value))
         == Find(AbstractOf(capacity, order, items, slots), key)
  {
    SpliceFind(capacity, order, items, slots, i);
    assert order.nodes[slots[i]].key == key;
  }

  /** `found->second = value`: overwriting the value of a present key. */
  lemma OverwriteConsistent<K, V>(capacity: nat, order: List<K>, items: map<K, CachedItem<V>>, slots: seq<nat>, key: K, value: V)
    requires Consistent(capacity, order, items, slots) && key in items
    ensures var items' := items[key := items[key].(value := value)];
      && Consistent(capacity, order, items', slots)
      && AbstractOf(capacity, order, items', slots)
         == AbstractOf(capacity, order, items, slots).(values := ValuesOf(items)[key := value])
  {
    ValuesOfUpdate(items, key, items[key].(value := value));
  }

  /**
   * The update path of `emplace`: `c` is the container before the `find`
   * that hit, `items'` the index after the value is overwritten.
   */
  lemma OverwriteStep<K, V>(capacity: nat, order: List<K>, items: map<K, CachedItem<V>>, slots: seq<nat>, key: K, value: V,
                            items': map<K, CachedItem<V>>, c: Cache<K, V>)
    requires Consistent(capacity, order, items, slots) && key in items && capacity > 0
    requires AbstractOf(capacity, order, items, slots) == Find(c, key).cache
    requires items' == items[key := items[key].(value := value)]
    ensures Consistent(capacity, order, items', slots)
    ensures Emplaced(AbstractOf(capacity, order, items', slots), Item(key, value), false) == Emplace(c, key, value)
  {
    OverwriteConsistent(capacity, order, items, slots, key, value);
  }

  /** `mOrder.push_back(key)` and a new index entry pointing at the new node. */
  lemma AppendConsistent<K, V>(capacity: nat, order: List<K>, items: map<K, CachedItem<V>>, slots: seq<nat>, key: K, value: V)
    requires Consistent(capacity, order, items, slots) && key !in items && |slots| < capacity
    ensures Consistent(capacity, PushBack(order, key), items[key := CachedItem(value, |order.nodes|)], slots + [|order.nodes|])
  {
    var p := |order.nodes|;
    var order', items', slots' := PushBack(order, key), items[key := CachedItem(value, p)], slots + [p];
    PushBackLinks(order, slots, key);
    forall j | 0 <= j < |slots'|
      ensures order'.nodes[slots'[j]].key in items' && items'[order'.nodes[slots'[j]].key].pos == slots'[j]
    {
      if j < |slots| {
        assert slots'[j] == slots[j];
        assert order.nodes[slots[j]].key in items;
      }
    }
    forall k | k in items'
      ensures items'[k].pos in slots' && order'.nodes[items'[k].pos].key == k
    {
      if k != key {
        assert items[k].pos in slots;
      }
    }
  }

  /** The append path of `emplace`: the new key becomes the most recently used. */
  lemma AppendStep<K, V>(capacity: nat, order: List<K>, items: map<K, CachedItem<V>>, slots: seq<nat>, key: K, value: V,
                         order': List<K>, items': map<K, CachedItem<V>>, slots': seq<nat>)
    requires Consistent(capacity, order, items, slots) && key !in items && |slots| < capacity
    requires order' == PushBack(order, key) && items' == items[key := CachedItem(value, |order.nodes|)]
    requires slots' == slots + [|order.nodes|]
    ensures Consistent(capacity, order', items', slots')
    ensures Emplaced(AbstractOf(capacity, order', items', slots'), Item(key, value), true)
         == Emplace(AbstractOf(capacity, order, items, slots), key, value)
  {
    AppendConsistent(capacity, order, items, slots, key, value);
    KeysPushBack(order, slots, key);
    ValuesOfUpdate(items, key, CachedItem(value, |order.nodes|));
    ConsistentInv(capacity, order, items, slots);
    EmplaceAppend(AbstractOf(capacity, order, items, slots), key, value);
  }

  /**
   * The eviction path of `emplace`: the front node gets the new key and is
   * spliced to the back, and the evicted key's index entry is reused for the
   * new key, still pointing at that same node.
   */
  lemma EvictConsistent<K, V>(capacity: nat, order: List<K>, items: map<K, CachedItem<V>>, slots: seq<nat>, key: K, value: V)
    requires Consistent(capacity, order, items, slots) && key !in items && 0 < |slots| == capacity
    ensures var front := slots[0];
      var evicted := order.nodes[front].key;
      var order' := MoveToBack(SetKey(order, front, key), front);
      var items' := (items - {evicted})[key := items[evicted].(value := value)];
      Consistent(capacity, order', items', Rotated(slots, 0))
  {
    var front := slots[0];
    var evicted := order.nodes[front].key;
    var items' := (items - {evicted})[key := items[evicted].(value := value)];
    SetKeyLinks(order, slots, front, key);
    MoveToBackLinks(SetKey(order, front, key), slots, 0);
    assert |items'| == |slots| by {
      assert (items - {evicted}).Keys == items.Keys - {evicted};
    }
    EvictNodesIndexed(capacity, order, items, slots, key, value);
    EvictItemsIndexed(capacity, order, items, slots, key, value);
  }

  /** After the eviction every node of the list is indexed under its key, at its own position. */
  lemma EvictNodesIndexed<K, V>(capacity: nat, order: List<K>, items: map<K, CachedItem<V>>, slots: seq<nat>, key: K, value: V)
    requires Consistent(capacity, order, items, slots) && key !in items && 0 < |slots| == capacity
    ensures var front := slots[0];
      var evicted := order.nodes[front].key;
      var order' := MoveToBack(SetKey(order, front, key), front);
      var items' := (items - {evicted})[key := items[evicted].(value := value)];
      var slots' := Rotated(slots, 0);
      forall j :: 0 <= j < |slots'| ==>
        order'.nodes[slots'[j]].key in items' && items'[order'.nodes[slots'[j]].key].pos == slots'[j]
  {
    var front := slots[0];
    var evicted := order.nodes[front].key;
    var order' := MoveToBack(SetKey(order, front, key), front);
    var items' := (items - {evicted})[key := items[evicted].(value := value)];
    var slots' := Rotated(slots, 0);
    forall j | 0 <= j < |slots'|
      ensures order'.nodes[slots'[j]].key in items' && items'[order'.nodes[slots'[j]].key].pos == slots'[j]
    {
      if j < |slots| - 1 {
        assert slots'[j] == slots[j + 1] != front;
        assert order'.nodes[slots'[j]].key == order.nodes[slots[j + 1]].key;
      }
    }
  }

  /** After the eviction every index entry names a node of the list that holds its key. */
  lemma EvictItemsIndexed<K, V>(capacity: nat, order: List<K>, items: map<K, CachedItem<V>>, slots: seq<nat>, key: K, value: V)
    requires Consistent(capacity, order, items, slots) && key !in items && 0 < |slots| == capacity
    ensures var front := slots[0];
      var evicted := order.nodes[front].key;
      var order' := MoveToBack(SetKey(order, front, key), front);
      var items' := (items - {evicted})[key := items[evicted].(value := value)];
      var slots' := Rotated(slots, 0);
      forall k :: k in items' ==> items'[k].pos in slots' && order'.nodes[items'[k].pos].key == k
  {
    var front := slots[0];
    var evicted := order.nodes[front].key;
    var order' := MoveToBack(SetKey(order, front, key), front);
    var items' := (items - {evicted})[key := items[evicted].(value := value)];
    var slots' := Rotated(slots, 0);
    RotatedNoDup(slots, 0);
    forall k | k in items'
      ensures items'[k].pos in slots' && order'.nodes[items'[k].pos].key == k
    {
      if k != key {
        assert items[k].pos in slots && items[k].pos != front;
      }
    }
  }

  /** The front node of a non-empty list is indexed under its key. */
  lemma FrontIndexed<K, V>(capacity: nat, order: List<K>, items: map<K, CachedItem<V>>, slots: seq<nat>)
    requires Consistent(capacity, order, items, slots) && 0 < |order.nodes|
    ensures order.head == slots[0] && order.nodes[order.head].key in items
  {
  }

  /**
   * The eviction path of `emplace` stands for the abstract eviction:
   * `order'`, `items'` and `slots'` are the state after the front node is
   * re-keyed and spliced and its index entry is moved to the new key.
   */
  lemma EvictStep<K, V>(capacity: nat, order: List<K>, items: map<K, CachedItem<V>>, slots: seq<nat>, key: K, value: V,
                        order': List<K>, items': map<K, CachedItem<V>>, slots': seq<nat>)
    requires Consistent(capacity, order, items, slots) && key !in items && 0 < |slots| == capacity
    requires var front := slots[0];
      var evicted := order.nodes[front].key;
      && order' == MoveToBack(SetKey(order, front, key), front)
      && items' == (items - {evicted})[key := items[evicted].(value := value)]
      && slots' == Rotated(slots, 0)
    ensures Consistent(capacity, order', items', slots')
    ensures Emplaced(AbstractOf(capacity, order', items', slots'), Item(key, value), true)
         == Emplace(AbstractOf(capacity, order, items, slots), key, value)
  {
    var front := slots[0];
    var evicted := order.nodes[front].key;
    EvictConsistent(capacity, order, items, slots, key, value);
    KeysRecycleFront(order, slots, key);
    ValuesOfRemove(items, evicted);
    ValuesOfUpdate(items - {evicted}, key, items[evicted].(value := value));
    var c := AbstractOf(capacity, order, items, slots);
    assert key !in c.values && |c.order| == c.capacity && c.order[0] == evicted;
  }

  class LRU<K(==), V> {
    /** `mCapacity`, fixed at construction. */
    const capacity: nat
    /** `mOrder`: the recency list, front = least recently used. */
    var order: List<K>
    /** `mItems`: key -> (value, position of the key's node). */
    var items: map<K, CachedItem<V>>
    /** The node indices of `order`, front to back. */
    ghost var slots: seq<nat>

    ghost predicate Valid()
      reads this
    {
      Consistent(capacity, order, items, slots)
    }

    ghost function Abstract(): Cache<K, V>
      reads this
      requires Valid()
    {
      AbstractOf(capacity, order, items, slots)
    }

    /** `LRU(capacity)`; `FixedCapacity<N>::LRU` is this with `capacity == N`. */
    constructor (capacity: nat)
      ensures Valid() && Abstract() == New(capacity)
    {
      this.capacity := capacity;
      order := Empty();
      items := map[];
      slots := [];
    }

    /** A valid container satisfies the abstract invariant. */
    lemma ValidInv()
      requires Valid()
      ensures Inv(Abstract())
    {
      ConsistentInv(capacity, order, items, slots);
    }

    /** `find(key)`: on a hit the key's node is spliced to the back of the list. */
    method Find(key: K) returns (it: Iter<K, V>)
      requires Valid()
      modifies this
      ensures Valid()
      ensures Found(Abstract(), it) == LruSpec.Find(old(Abstract()), key)
      ensures it == End ==> order == old(order) && items == old(items) && slots == old(slots)
    {
      if key !in items {
        FindMiss(capacity, order, items, slots, key);
        return End;
      }
      var item := items[key];
      ghost var i :| 0 <= i < |slots| && slots[i] == item.pos;
      ghost var order0, slots0 := order, slots;
      order, slots := MoveToBack(order, item.pos), Rotated(slots, i);
      FindHit(capacity, order0, items, slots0, key, i, order, slots);
      it := Item(key, item.value);
    }

    /** `emplace(key, value)`. */
    method Emplace(key: K, value: V) returns (it: Iter<K, V>, inserted: bool)
      requires Valid()
      modifies this
      ensures Valid()
      ensures Emplaced(Abstract(), it, inserted) == LruSpec.Emplace(old(Abstract()), key, value)
    {
      if capacity == 0 {
        return End, false;
      }
      ghost var c := Abstract();
      var found := Find(key);
      if found != End {
        it, inserted := EmplaceFound(key, value, c);
        return;
      }
      assert key !in items && Abstract() == c by {
        assert key !in c.values;
      }
      if |order.nodes| == capacity {
        it, inserted := EmplaceEvicting(key, value);
      } else {
        it, inserted := EmplaceAppending(key, value);
      }
    }

    /** The branch of `emplace` after `find` hit: overwrite the value in place. */
    method EmplaceFound(key: K, value: V, ghost c: Cache<K, V>) returns (it: Iter<K, V>, inserted: bool)
      requires Valid() && capacity > 0 && key in c.values && Abstract() == LruSpec.Find(c, key).cache
      modifies this
      ensures Valid()
      ensures Emplaced(Abstract(), it, inserted) == LruSpec.Emplace(c, key, value)
    {
      ghost var items0 := items;
      items := items[key := items[key].(value := value)];
      OverwriteStep(capacity, order, items0, slots, key, value, items, c);
      return Item(key, value), false;
    }

    /** The branch of `emplace` for an absent key when the container is full: recycle the front node. */
    method EmplaceEvicting(key: K, value: V) returns (it: Iter<K, V>, inserted: bool)
      requires Valid() && key !in items && 0 < |order.nodes| == capacity
      modifies this
      ensures Valid()
      ensures Emplaced(Abstract(), it, inserted) == LruSpec.Emplace(old(Abstract()), key, value)
    {
      FrontIndexed(capacity, order, items, slots);
      ghost var order0, items0, slots0 := order, items, slots;
      var front := order.head;
      var evicted := order.nodes[front].key;
      var node := items[evicted];
      items := items - {evicted};
      order := SetKey(order, front, key);
      order := MoveToBack(order, front);
      slots := Rotated(slots, 0);
      items := items[key := node.(value := value)];
      EvictStep(capacity, order0, items0, slots0, key, value, order, items, slots);
      return Item(key, value), true;
    }

    /** The branch of `emplace` for an absent key when there is room: a new node at the back. */
    method EmplaceAppending(key: K, value: V) returns (it: Iter<K, V>, inserted: bool)
      requires Valid() && key !in items && |order.nodes| < capacity
      modifies this
      ensures Valid()
      ensures Emplaced(Abstract(), it, inserted) == LruSpec.Emplace(old(Abstract()), key, value)
    {
      ghost var order0, items0, slots0 := order, items, slots;
      var pos := |order.nodes|;
      order := PushBack(order, key);
      slots := slots + [pos];
      items := items[key := CachedItem(value, pos)];
      AppendStep(capacity, order0, items0, slots0, key, value, order, items, slots);
      return Item(key, value), true;
    }

    /** `size()`: the number of index entries, equal to the number of list nodes. */
    method Size() returns (n: nat)
      requires Valid()
      ensures n == LruSpec.Size(Abstract()) && n == |Abstract().order| && n <= capacity
    {
      n := |items|;
    }

    /** `capacity()`. */
    method Capacity() returns (n: nat)
      requires Valid()
      ensures n == Abstract().capacity
    {
      n := capacity;
    }

    /** `clear()`: empties both structures; the capacity is kept. */
    method Clear()
      requires Valid()
      modifies this
      ensures Valid() && Abstract() == LruSpec.Clear(old(Abstract()))
    {
      items := map[];
      order := Empty();
      slots := [];
    }
  }
}
