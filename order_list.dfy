/**
 * The recency list of the LRU container (`std::list<Key>` in the source),
 * modelled as a doubly linked list over a node arena. A node index is the
 * list iterator (`Position`): moving a node never changes its index, so a
 * stored position keeps naming the same node.
 *
 * `slots` (a ghost view supplied by the caller) lists the node indices from
 * front (least recently used) to back (most recently used).
 */
module OrderList {
  import opened Seqs

  /** The "no node" link. */
  const NIL: int := -1

  datatype Node<K> = Node(key: K, prev: int, next: int)

  datatype List<K> = List(nodes: seq<Node<K>>, head: int, tail: int)

  /** A link is NIL or the index of a node. */
  predicate IsLink(n: int, size: nat) {
    n == NIL || 0 <= n < size
  }

  /** Every link stored in the list names NIL or a node. */
  predicate WellFormed<K>(l: List<K>) {
    && IsLink(l.head, |l.nodes|)
    && IsLink(l.tail, |l.nodes|)
    && forall q :: 0 <= q < |l.nodes| ==> IsLink(l.nodes[q].prev, |l.nodes|) && IsLink(l.nodes[q].next, |l.nodes|)
  }

  function Pred(s: seq<nat>, i: nat): int
    requires i < |s|
  {
    if i > 0 then s[i - 1] else NIL
  }

  function Succ(s: seq<nat>, i: nat): int
    requires i < |s|
  {
    if i + 1 < |s| then s[i + 1] else NIL
  }

  /** `l` is the doubly linked list that visits exactly the nodes `slots`, in that order. */
  ghost predicate Links<K>(l: List<K>, slots: seq<nat>) {
    && WellFormed(l)
    && |slots| == |l.nodes|
    && (forall i :: 0 <= i < |slots| ==> slots[i] < |l.nodes|)
    && NoDup(slots)
    && l.head == (if slots == [] then NIL else slots[0])
    && l.tail == (if slots == [] then NIL else slots[|slots| - 1])
    && (forall i {:trigger l.nodes[slots[i]]} :: 0 <= i < |slots| ==>
          l.nodes[slots[i]].prev == Pred(slots, i) && l.nodes[slots[i]].next == Succ(slots, i))
  }

  /** The keys of the list, front to back. */
  function Keys<K>(l: List<K>, slots: seq<nat>): (ks: seq<K>)
    requires forall i :: 0 <= i < |slots| ==> slots[i] < |l.nodes|
    ensures |ks| == |slots|
    ensures forall i {:trigger ks[i]} :: 0 <= i < |slots| ==> ks[i] == l.nodes[slots[i]].key
  {
    seq(|slots|, i requires 0 <= i < |slots| => l.nodes[slots[i]].key)
  }

  /** Moving the `i`-th node to the back moves the `i`-th key to the back. */
  lemma KeysMoveToBack<K>(l: List<K>, slots: seq<nat>, i: nat)
    requires Links(l, slots) && i < |slots|
    ensures Keys(MoveToBack(l, slots[i]), Rotated(slots, i)) == Rotated(Keys(l, slots), i)
  {
    var r, t, ks := MoveToBack(l, slots[i]), Rotated(slots, i), Keys(l, slots);
    var rs := Rotated(ks, i);
    forall j | 0 <= j < |t|
      ensures Keys(r, t)[j] == rs[j]
    {
      if j < i {
        assert t[j] == slots[j] && rs[j] == ks[j];
      } else if j < |slots| - 1 {
        assert t[j] == slots[j + 1] && rs[j] == ks[j + 1];
      } else {
        assert t[j] == slots[i] && rs[j] == ks[i];
      }
    }
  }

  /** Pushing at the back appends the key. */
  lemma KeysPushBack<K>(l: List<K>, slots: seq<nat>, key: K)
    requires Links(l, slots)
    ensures Keys(PushBack(l, key), slots + [|l.nodes|]) == Keys(l, slots) + [key]
  {
    var r, t := PushBack(l, key), slots + [|l.nodes|];
    forall j | 0 <= j < |t|
      ensures Keys(r, t)[j] == (Keys(l, slots) + [key])[j]
    {
      if j < |slots| {
        assert t[j] == slots[j];
      }
    }
  }

  /** Re-keying the `i`-th node re-keys the `i`-th key. */
  lemma KeysSetKey<K>(l: List<K>, slots: seq<nat>, i: nat, key: K)
    requires Links(l, slots) && i < |slots|
    ensures Keys(SetKey(l, slots[i], key), slots) == Keys(l, slots)[i := key]
  {
    var r := SetKey(l, slots[i], key);
    forall j | 0 <= j < |slots|
      ensures Keys(r, slots)[j] == Keys(l, slots)[i := key][j]
    {
      if j != i {
        assert slots[j] != slots[i];
      }
    }
  }

  lemma SetKeyLinks<K>(l: List<K>, slots: seq<nat>, p: nat, key: K)
    requires Links(l, slots) && p < |l.nodes|
    ensures Links(SetKey(l, p, key), slots)
  {
  }

  /** Re-keying the front node and moving it to the back drops the front key and appends the new one. */
  lemma KeysRecycleFront<K>(l: List<K>, slots: seq<nat>, key: K)
    requires Links(l, slots) && 0 < |slots|
    ensures Keys(MoveToBack(SetKey(l, slots[0], key), slots[0]), Rotated(slots, 0)) == Keys(l, slots)[1..] + [key]
  {
    var ks := Keys(l, slots);
    SetKeyLinks(l, slots, slots[0], key);
    KeysSetKey(l, slots, 0, key);
    KeysMoveToBack(SetKey(l, slots[0], key), slots, 0);
    assert ks[0 := key][1..] == ks[1..];
  }

  /** The empty list (a fresh or cleared `std::list`). */
  function Empty<K>(): (l: List<K>)
    ensures WellFormed(l) && Links(l, [])
  {
    List([], NIL, NIL)
  }

  /** `push_back(key)`: a new node at the back; its index is `|l.nodes|`. */
  function PushBack<K>(l: List<K>, key: K): (r: List<K>)
    requires WellFormed(l)
    ensures WellFormed(r)
    ensures |r.nodes| == |l.nodes| + 1 && r.nodes[|l.nodes|].key == key
    ensures forall q {:trigger r.nodes[q]} :: 0 <= q < |l.nodes| ==> r.nodes[q].key == l.nodes[q].key
  {
    var p := |l.nodes|;
    var nodes := if l.tail == NIL then l.nodes else l.nodes[l.tail := l.nodes[l.tail].(next := p)];
    List(nodes + [Node(key, l.tail, NIL)], if l.head == NIL then p else l.head, p)
  }

  /** `front() = key`: overwrite the key stored in node `p`. */
  function SetKey<K>(l: List<K>, p: nat, key: K): (r: List<K>)
    requires WellFormed(l) && p < |l.nodes|
    ensures WellFormed(r)
    ensures |r.nodes| == |l.nodes| && r.nodes[p].key == key
    ensures forall q {:trigger r.nodes[q]} :: 0 <= q < |l.nodes| && q != p ==> r.nodes[q].key == l.nodes[q].key
  {
    l.(nodes := l.nodes[p := l.nodes[p].(key := key)])
  }

  /**
   * `splice(end(), list, p)`: unlink node `p` and relink it at the back.
   * No node is created, destroyed or re-keyed, so every position stays valid.
   */
  function MoveToBack<K>(l: List<K>, p: nat): (r: List<K>)
    requires WellFormed(l) && p < |l.nodes|
    ensures WellFormed(r)
    ensures |r.nodes| == |l.nodes|
    ensures forall q {:trigger r.nodes[q]} :: 0 <= q < |l.nodes| ==> r.nodes[q].key == l.nodes[q].key
  {
    if p == l.tail then l
    else
      var n := l.nodes[p];
      var nodes1 := if n.prev == NIL then l.nodes else l.nodes[n.prev := l.nodes[n.prev].(next := n.next)];
      var head := if n.prev == NIL then n.next else l.head;
      var nodes2 := if n.next == NIL then nodes1 else nodes1[n.next := nodes1[n.next].(prev := n.prev)];
      var nodes3 := if l.tail == NIL then nodes2 else nodes2[l.tail := nodes2[l.tail].(next := p)];
      List(nodes3[p := Node(n.key, l.tail, NIL)], head, p)
  }

  lemma PushBackLinkAt<K>(l: List<K>, slots: seq<nat>, key: K, i: nat)
    requires Links(l, slots) && i <= |slots|
    ensures var r, t := PushBack(l, key), slots + [|l.nodes|];
      r.nodes[t[i]].prev == Pred(t, i) && r.nodes[t[i]].next == Succ(t, i)
  {
    var r, t := PushBack(l, key), slots + [|l.nodes|];
    var n := |slots|;
    if i == n {
      assert r.nodes[n] == Node(key, l.tail, NIL);
    } else if i == n - 1 {
      assert r.nodes[t[i]] == l.nodes[slots[i]].(next := n);
    } else {
      assert t[i] == slots[i] && slots[i] != slots[n - 1];
      assert r.nodes[t[i]] == l.nodes[slots[i]];
    }
  }

  /** Pushing at the back appends the new node's index to the traversal. */
  lemma PushBackLinks<K>(l: List<K>, slots: seq<nat>, key: K)
    requires Links(l, slots)
    ensures Links(PushBack(l, key), slots + [|l.nodes|])
  {
    var r, t := PushBack(l, key), slots + [|l.nodes|];
    forall i | 0 <= i < |t|
      ensures r.nodes[t[i]].prev == Pred(t, i) && r.nodes[t[i]].next == Succ(t, i)
    {
      PushBackLinkAt(l, slots, key, i);
    }
    assert NoDup(t);
  }

  /** How `MoveToBack` rewires the links of every node other than `p`. */
  lemma MoveToBackOthers<K>(l: List<K>, p: nat, q: nat)
    requires WellFormed(l) && p < |l.nodes| && p != l.tail && l.tail != NIL
    requires q < |l.nodes| && q != p
    ensures var r, n := MoveToBack(l, p), l.nodes[p];
      && r.nodes[q].next == (if q == l.tail then p else if q == n.prev then n.next else l.nodes[q].next)
      && r.nodes[q].prev == (if q == n.next then n.prev else l.nodes[q].prev)
  {
  }

  /** The links of the `j`-th node of the rotated traversal are right after `MoveToBack`. */
  lemma MoveToBackLinkAt<K>(l: List<K>, slots: seq<nat>, i: nat, j: nat)
    requires Links(l, slots) && i < |slots| - 1 && j < |slots|
    ensures var r, t := MoveToBack(l, slots[i]), Rotated(slots, i);
      r.nodes[t[j]].prev == Pred(t, j) && r.nodes[t[j]].next == Succ(t, j)
  {
    var r, t := MoveToBack(l, slots[i]), Rotated(slots, i);
    if j == |slots| - 1 {
      assert r.nodes[slots[i]] == Node(l.nodes[slots[i]].key, l.tail, NIL);
    } else if j < i {
      MoveToBackLinkBefore(l, slots, i, j);
    } else {
      MoveToBackLinkAfter(l, slots, i, j);
    }
  }

  /** A node in front of the moved one keeps its links, except that its successor may change. */
  lemma MoveToBackLinkBefore<K>(l: List<K>, slots: seq<nat>, i: nat, j: nat)
    requires Links(l, slots) && i < |slots| - 1 && j < i
    ensures var r, t := MoveToBack(l, slots[i]), Rotated(slots, i);
      r.nodes[t[j]].prev == Pred(t, j) && r.nodes[t[j]].next == Succ(t, j)
  {
    var p, t := slots[i], Rotated(slots, i);
    var r, n, q := MoveToBack(l, p), l.nodes[p], slots[j];
    var last := |slots| - 1;
    assert n.prev == slots[i - 1] && n.next == slots[i + 1] && l.tail == slots[last];
    assert t[j] == q && q != p && q != l.tail && q != n.next;
    MoveToBackOthers(l, p, q);
    assert r.nodes[q].prev == l.nodes[q].prev == Pred(slots, j) == Pred(t, j);
    if j == i - 1 {
      assert r.nodes[q].next == slots[i + 1] == t[i];
    } else {
      assert q != n.prev;
      assert r.nodes[q].next == slots[j + 1] == t[j + 1];
    }
  }

  /** A node behind the moved one keeps its links, except for the neighbours of the gap and the old back. */
  lemma MoveToBackLinkAfter<K>(l: List<K>, slots: seq<nat>, i: nat, j: nat)
    requires Links(l, slots) && i <= j < |slots| - 1
    ensures var r, t := MoveToBack(l, slots[i]), Rotated(slots, i);
      r.nodes[t[j]].prev == Pred(t, j) && r.nodes[t[j]].next == Succ(t, j)
  {
    MoveToBackPrevAfter(l, slots, i, j);
    MoveToBackNextAfter(l, slots, i, j);
  }

  lemma MoveToBackPrevAfter<K>(l: List<K>, slots: seq<nat>, i: nat, j: nat)
    requires Links(l, slots) && i <= j < |slots| - 1
    ensures MoveToBack(l, slots[i]).nodes[slots[j + 1]].prev == Pred(Rotated(slots, i), j)
  {
    var p, t := slots[i], Rotated(slots, i);
    var n, q := l.nodes[p], slots[j + 1];
    assert n.prev == Pred(slots, i) && n.next == slots[i + 1];
    assert q != p && q != n.prev;
    MoveToBackOthers(l, p, q);
    if j != i {
      assert q != n.next;
      assert t[j - 1] == slots[j];
    }
  }

  lemma MoveToBackNextAfter<K>(l: List<K>, slots: seq<nat>, i: nat, j: nat)
    requires Links(l, slots) && i <= j < |slots| - 1
    ensures MoveToBack(l, slots[i]).nodes[slots[j + 1]].next == Succ(Rotated(slots, i), j)
  {
    var p, t := slots[i], Rotated(slots, i);
    var n, q := l.nodes[p], slots[j + 1];
    var last := |slots| - 1;
    assert n.prev == Pred(slots, i) && l.tail == slots[last] && p != l.tail;
    assert q != p && q != n.prev;
    MoveToBackOthers(l, p, q);
    if j + 1 != last {
      assert q != l.tail;
      assert t[j + 1] == slots[j + 2];
    }
  }

  /** Moving the `i`-th node to the back of a list moves its index to the back of the traversal. */
  lemma MoveToBackLinks<K>(l: List<K>, slots: seq<nat>, i: nat)
    requires Links(l, slots) && i < |slots|
    ensures Links(MoveToBack(l, slots[i]), Rotated(slots, i))
  {
    var t := Rotated(slots, i);
    if i == |slots| - 1 {
      assert t == slots;
    } else {
      RotatedNoDup(slots, i);
      assert forall j :: 0 <= j < |t| ==> t[j] < |l.nodes| by {
        forall j | 0 <= j < |t|
          ensures t[j] < |l.nodes|
        {
          if j < i {
            assert t[j] == slots[j];
          } else if j < |slots| - 1 {
            assert t[j] == slots[j + 1];
          }
        }
      }
      forall j | 0 <= j < |t|
        ensures MoveToBack(l, slots[i]).nodes[t[j]].prev == Pred(t, j)
        ensures MoveToBack(l, slots[i]).nodes[t[j]].next == Succ(t, j)
      {
        MoveToBackLinkAt(l, slots, i, j);
      }
    }
  }
}
