/**
 The priority queue of shared/queue.h: a circular doubly linked list through a head, kept in
 increasing order of priority, first come first served among equals.

 A link and the element it is a field of are one object here, so that `queue_entry` is the identity.
 */
module Queue {

  datatype State = Elu | Activable | Endormi | Mort | Zombie | Semaphore

  /** The fields of `struct Process` that the queue and the scheduler use. */
  class Node {
    const pid: int
    var prio: nat
    var prev: Node?
    var next: Node?
    var suiv: Node?
    var state: State
    var timeToWake: real

    constructor (pid: int, prio: nat)
      ensures this.pid == pid && this.prio == prio && prev == null && next == null && suiv == null && state == Elu
    {
      this.pid, this.prio, prev, next, suiv, state, timeToWake := pid, prio, null, null, null, Elu, 0.0;
    }
  }

  ghost predicate Distinct(l: seq<Node>) {
    forall i, j :: 0 <= i < j < |l| ==> l[i] != l[j]
  }

  /** The node at position i of the ring; the head is before the first and after the last. */
  ghost function RingAt(head: Node, l: seq<Node>, i: int): Node {
    if 0 <= i < |l| then l[i] else head
  }

  ghost predicate Joined(a: Node, b: Node)
    reads a`next, b`prev
  {
    a.next == b && b.prev == a
  }

  /** The nodes of l in a circle through head, linked both ways. */
  ghost predicate Ring(head: Node, l: seq<Node>)
    reads head`next, head`prev, l`next, l`prev
  {
    && head !in l && Distinct(l)
    && forall i {:trigger RingAt(head, l, i)} :: 0 <= i <= |l| ==> Joined(RingAt(head, l, i - 1), RingAt(head, l, i))
  }

  /** All joints of the ring but the one before position k. */
  ghost predicate RingBut(head: Node, l: seq<Node>, k: nat)
    reads head`next, head`prev, l`next, l`prev
  {
    && head !in l && Distinct(l)
    && forall i {:trigger RingAt(head, l, i)} :: 0 <= i <= |l| && i != k ==> Joined(RingAt(head, l, i - 1), RingAt(head, l, i))
  }

  lemma RingAtInsert(head: Node, l: seq<Node>, k: nat, e: Node, i: int)
    requires k <= |l| && -1 <= i <= |l| + 1
    ensures RingAt(head, Insert(l, k, e), i) == if i < k then RingAt(head, l, i) else if i == k then e else RingAt(head, l, i - 1)
  {
  }

  lemma DistinctInsert(l: seq<Node>, k: nat, e: Node)
    requires Distinct(l) && k <= |l| && e !in l
    ensures Distinct(Insert(l, k, e))
    ensures forall n :: n in Insert(l, k, e) <==> n in l || n == e
  {
    assert Insert(l, k, e)[k] == e;
    assert l == l[..k] + l[k..];
  }

  lemma RingWith(head: Node, l: seq<Node>, k: nat, e: Node)
    requires RingBut(head, l, k) && k <= |l| && e !in l && e != head
    requires Joined(RingAt(head, l, k - 1), e) && Joined(e, RingAt(head, l, k))
    ensures Ring(head, Insert(l, k, e))
  {
    var l' := Insert(l, k, e);
    assert |l'| == |l| + 1;
    DistinctInsert(l, k, e);
    hide Insert, RingAt, Joined, Distinct;
    forall i | 0 <= i <= |l'|
      ensures Joined(RingAt(head, l', i - 1), RingAt(head, l', i))
    {
      RingAtInsert(head, l, k, e, i);
      RingAtInsert(head, l, k, e, i - 1);
      if i < k {
        assert Joined(RingAt(head, l, i - 1), RingAt(head, l, i));
      } else if i > k + 1 {
        assert Joined(RingAt(head, l, i - 2), RingAt(head, l, i - 1));
      }
    }
  }

  lemma RingAtOnce(head: Node, l: seq<Node>, i: int, k: int)
    requires head !in l && Distinct(l) && 0 <= i <= |l| && 0 <= k <= |l| && i != k
    ensures RingAt(head, l, i) != RingAt(head, l, k)
    ensures RingAt(head, l, i - 1) != RingAt(head, l, k - 1)
  {
  }

  /** What decides when a node leaves: its priority, then its time of arrival. */
  datatype Key = Key(prio: nat, stamp: nat)

  /** a leaves the queue after b: it has a lower priority, or the same and came later. */
  predicate After(a: Key, b: Key) {
    a.prio < b.prio || (a.prio == b.prio && a.stamp > b.stamp)
  }

  ghost predicate Ordered(keys: seq<Key>, clock: nat) {
    && (forall i :: 0 <= i < |keys| ==> keys[i].stamp < clock)
    && (forall i, j :: 0 <= i < j < |keys| ==> After(keys[i], keys[j]))
  }

  /** A newcomer before all of at least its priority. */
  lemma OrderedWith(keys: seq<Key>, k: nat, p: nat, clock: nat)
    requires Ordered(keys, clock) && k <= |keys|
    requires forall j :: 0 <= j < k ==> keys[j].prio < p
    requires k < |keys| ==> keys[k].prio >= p
    ensures Ordered(Insert(keys, k, Key(p, clock)), clock + 1)
    ensures forall j :: k <= j < |keys| ==> keys[j].prio >= p
  {
    forall j | k <= j < |keys|
      ensures keys[j].prio >= p
    {
      assert j > k ==> After(keys[k], keys[j]);
    }
  }

  function Insert<T>(l: seq<T>, k: nat, x: T): (r: seq<T>)
    requires k <= |l|
    ensures |r| == |l| + 1
  {
    l[..k] + [x] + l[k..]
  }

  function Remove<T>(l: seq<T>, k: nat): (r: seq<T>)
    requires k < |l|
    ensures |r| == |l| - 1
  {
    l[..k] + l[k + 1..]
  }

  ghost predicate Keyed(l: seq<Node>, keys: seq<Key>)
    reads l`prio
  {
    |keys| == |l| && forall i :: 0 <= i < |l| ==> l[i].prio == keys[i].prio
  }

  /** Before position k lower priorities than p, from k on none lower. */
  ghost predicate SplitBy(l: seq<Node>, k: nat, p: nat)
    reads l`prio
  {
    && k <= |l| && (forall j :: 0 <= j < k ==> l[j].prio < p)
    && (forall j :: k <= j < |l| ==> l[j].prio >= p)
  }

  lemma KeyedFacts(l: seq<Node>, keys: seq<Key>)
    requires Keyed(l, keys)
    ensures |keys| == |l| && forall i :: 0 <= i < |l| ==> l[i].prio == keys[i].prio
  {
  }

  lemma KeyedWithout(l: seq<Node>, keys: seq<Key>, k: nat)
    requires Keyed(l, keys) && k < |l|
    ensures Keyed(Remove(l, k), Remove(keys, k))
  {
  }

  lemma OrderedWithout(keys: seq<Key>, k: nat, clock: nat)
    requires Ordered(keys, clock) && k < |keys|
    ensures Ordered(Remove(keys, k), clock)
  {
  }

  lemma RingAtRemove(head: Node, l: seq<Node>, k: nat, i: int)
    requires k < |l| && -1 <= i <= |l| - 1
    ensures RingAt(head, Remove(l, k), i) == if i < k then RingAt(head, l, i) else RingAt(head, l, i + 1)
  {
  }

  lemma DistinctRemove(l: seq<Node>, k: nat)
    requires Distinct(l) && k < |l|
    ensures Distinct(Remove(l, k))
    ensures forall n :: n in Remove(l, k) <==> n in l && n != l[k]
  {
    var l' := Remove(l, k);
    assert l == l[..k] + [l[k]] + l[k + 1..];
    forall i | 0 <= i < |l'|
      ensures l'[i] != l[k]
    {
      assert l'[i] == l[if i < k then i else i + 1];
    }
  }

  /** Taking out the node at position k closes the ring over it. */
  lemma RingWithout(head: Node, l: seq<Node>, k: nat)
    requires head !in l && Distinct(l) && k < |l| && Joined(RingAt(head, l, k - 1), RingAt(head, l, k + 1))
    requires forall i {:trigger RingAt(head, l, i)} :: 0 <= i <= |l| && i != k && i != k + 1 ==> Joined(RingAt(head, l, i - 1), RingAt(head, l, i))
    ensures Ring(head, Remove(l, k))
  {
    var l' := Remove(l, k);
    assert |l'| == |l| - 1;
    DistinctRemove(l, k);
    hide Remove, RingAt, Joined, Distinct;
    forall i | 0 <= i <= |l'|
      ensures Joined(RingAt(head, l', i - 1), RingAt(head, l', i))
    {
      RingAtRemove(head, l, k, i);
      RingAtRemove(head, l, k, i - 1);
      if i < k {
        assert Joined(RingAt(head, l, i - 1), RingAt(head, l, i));
      } else if i > k {
        assert Joined(RingAt(head, l, i), RingAt(head, l, i + 1));
      }
    }
  }

  lemma SplitAll(l: seq<Node>, keys: seq<Key>, k: nat, p: nat)
    requires Keyed(l, keys) && k <= |l| && (forall j :: 0 <= j < k ==> l[j].prio < p) && (forall j :: k <= j < |keys| ==> keys[j].prio >= p)
    ensures SplitBy(l, k, p)
  {
  }

  lemma KeyedWith(l: seq<Node>, keys: seq<Key>, k: nat, e: Node, stamp: nat)
    requires Keyed(l, keys) && k <= |l|
    ensures |keys| == |l| && (forall i :: 0 <= i < |l| ==> l[i].prio == keys[i].prio)
    ensures Keyed(Insert(l, k, e), Insert(keys, k, Key(e.prio, stamp)))
  {
  }

  class PriorityQueue {
    const head: Node
    ghost var nodes: seq<Node>
    ghost var keys: seq<Key>      // of the nodes
    ghost var clock: nat

    ghost function At(i: int): Node
      reads this
    {
      RingAt(head, nodes, i)
    }

    ghost predicate Linked()
      reads this`nodes, head`next, head`prev, nodes`next, nodes`prev
    {
      Ring(head, nodes)
    }

    ghost predicate Valid()
      reads this, head`next, head`prev, nodes`next, nodes`prev, nodes`prio
    {
      Linked() && Ordered(keys, clock) && Keyed(nodes, keys)
    }

    /** `INIT_LIST_HEAD` */
    constructor ()
      ensures Valid() && nodes == [] && fresh(head)
    {
      head := new Node(-1, 0);
      nodes, keys, clock := [], [], 0;
      new;
      head.next, head.prev := head, head;
    }

    /** Between the node at position k and the one before it. */
    method LinkIn(e: Node, cur: Node, ghost k: nat)
      requires Linked() && k <= |nodes| && cur == At(k) && e != head && e !in nodes && Keyed(Insert(nodes, k, e), keys)
      modifies this`nodes, head`next, head`prev, nodes`next, nodes`prev, e`next, e`prev
      ensures Linked() && nodes == Insert(old(nodes), k, e) && Keyed(nodes, keys)
    {
      assert Joined(At(k - 1), At(k));
      e.next := cur;
      e.prev := cur.prev;
      cur.prev.next := e;
      cur.prev := e;
      forall i | 0 <= i <= |nodes| && i != k
        ensures Joined(At(i - 1), At(i))
      {
        RingAtOnce(head, nodes, i, k);
        assert old(Joined(At(i - 1), At(i)));
      }
      RingWith(head, nodes, k, e);
      nodes := Insert(nodes, k, e);
    }

    /** `queue_add`: before the first element of at least the same priority. */
    method Add(e: Node) returns (ghost k: nat)
      requires Valid() && e != head && e !in nodes && e.prev == null && e.next == null
      modifies this, head`next, head`prev, nodes`next, nodes`prev, e`next, e`prev
      ensures Valid() && k <= |old(nodes)| == |old(keys)| && nodes == Insert(old(nodes), k, e)
      ensures keys == Insert(old(keys), k, Key(e.prio, old(clock))) && clock == old(clock) + 1
      ensures SplitBy(old(nodes), k, e.prio)
    {
      hide Ring, RingAt, Ordered, Keyed, SplitBy, Insert;
      var cur;
      cur, k := PlaceFor(e);
      KeyedWith(nodes, keys, k, e, clock);
      OrderedWith(keys, k, e.prio, clock);
      SplitAll(nodes, keys, k, e.prio);
      keys := Insert(keys, k, Key(e.prio, clock));
      clock := clock + 1;
      LinkIn(e, cur, k);
    }

    /** The first element of at least the priority of e, or the head. */
    method PlaceFor(e: Node) returns (cur: Node, ghost k: nat)
      requires Linked()
      ensures k <= |nodes| && cur == At(k)
      ensures forall j :: 0 <= j < k ==> nodes[j].prio < e.prio
      ensures k < |nodes| ==> nodes[k].prio >= e.prio
    {
      assert Joined(At(-1), At(0));
      cur := head.next;
      k := 0;
      while cur != head && cur.prio < e.prio
        invariant k <= |nodes| && cur == At(k)
        invariant forall j :: 0 <= j < k ==> nodes[j].prio < e.prio
        decreases |nodes| - k
      {
        assert Joined(At(k), At(k + 1));
        cur := cur.next;
        k := k + 1;
      }
    }

    /** The links of the two neighbours of the node at position k, set past it. */
    method LinkOut(e: Node, ghost k: nat)
      requires Linked() && k < |nodes| && e == nodes[k] && Keyed(nodes, keys)
      modifies this`nodes, this`keys, head`next, head`prev, nodes`next, nodes`prev
      ensures Linked() && nodes == Remove(old(nodes), k) && |old(keys)| == |old(nodes)| && keys == Remove(old(keys), k) && Keyed(nodes, keys)
      ensures e.prev == null && e.next == null
    {
      assert Joined(At(k - 1), At(k)) && Joined(At(k), At(k + 1));
      e.prev.next := e.next;
      e.next.prev := e.prev;
      forall i | 0 <= i <= |nodes| && i != k && i != k + 1
        ensures Joined(At(i - 1), At(i))
      {
        RingAtOnce(head, nodes, i, k);
        RingAtOnce(head, nodes, i, k + 1);
        assert old(Joined(At(i - 1), At(i)));
      }
      RingWithout(head, nodes, k);
      KeyedWithout(nodes, keys, k);
      nodes, keys := Remove(nodes, k), Remove(keys, k);
      e.next := null;
      e.prev := null;
    }

    /** `queue_del` */
    method Del(e: Node, ghost k: nat)
      requires Valid() && k < |nodes| && e == nodes[k]
      modifies this, head`next, head`prev, nodes`next, nodes`prev
      ensures Valid() && nodes == Remove(old(nodes), k) && |old(keys)| == |old(nodes)| && keys == Remove(old(keys), k) && clock == old(clock)
      ensures e.prev == null && e.next == null
    {
      hide Ring, Ordered, Keyed;
      KeyedFacts(nodes, keys);
      OrderedWithout(keys, k, clock);
      LinkOut(e, k);
    }

    method Empty() returns (b: bool)
      requires Valid()
      ensures b <==> nodes == []
    {
      assert Joined(At(-1), At(0));
      b := head.next == head;
    }

    /** `queue_top` */
    method Top() returns (r: Node?)
      requires Valid()
      ensures if nodes == [] then r == null else r == nodes[|nodes| - 1]
    {
      assert Joined(At(-1), At(0)) && Joined(At(|nodes| - 1), At(|nodes|));
      if head.next == head {
        return null;
      }
      r := head.prev;
    }

    /** `queue_out`: of the highest priority, the one that came first. */
    method Out() returns (r: Node?)
      requires Valid()
      modifies this, head`next, head`prev, nodes`next, nodes`prev
      ensures Valid() && clock == old(clock)
      ensures old(nodes) == [] ==> r == null && nodes == []
      ensures old(nodes) != [] ==>
                var n := |old(nodes)| - 1;
                && r == old(nodes)[n] && nodes == old(nodes)[..n] && |old(keys)| == n + 1 && keys == old(keys)[..n]
                && r !in nodes && r != head && r.prev == null && r.next == null
                && forall i :: 0 <= i < n ==> After(keys[i], old(keys)[n])
    {
      var last := head.prev;
      assert Joined(At(-1), At(0)) && Joined(At(|nodes| - 1), At(|nodes|));
      if head.next == head {
        return null;
      }
      ghost var n := |nodes| - 1;
      assert forall i :: 0 <= i < n ==> After(keys[i], keys[n]);
      assert Remove(nodes, n) == nodes[..n] && Remove(keys, n) == keys[..n];
      KeyedWithout(nodes, keys, n);
      OrderedWithout(keys, n, clock);
      keys := Remove(keys, n);
      LinkOutLast(n);
      r := last;
    }

    method LinkOutLast(ghost n: nat)
      requires Linked() && n == |nodes| - 1
      modifies this`nodes, head`next, head`prev, nodes`next, nodes`prev
      ensures Linked() && nodes == Remove(old(nodes), n)
      ensures var r := old(nodes)[n]; r !in nodes && r != head && r.prev == null && r.next == null
    {
      var last := head.prev;
      assert Joined(At(n - 1), At(n)) && Joined(At(n), At(n + 1));
      head.prev := head.prev.prev;
      head.prev.next := head;
      forall i | 0 <= i <= |nodes| && i != n && i != n + 1
        ensures Joined(At(i - 1), At(i))
      {
        RingAtOnce(head, nodes, i, n);
        RingAtOnce(head, nodes, i, n + 1);
        assert old(Joined(At(i - 1), At(i)));
      }
      RingWithout(head, nodes, n);
      nodes := Remove(nodes, n);
      last.prev := null;
      last.next := null;
    }

    /** The start and the step of `queue_for_each`. */
    method First() returns (n: Node)
      requires Valid()
      ensures n == At(0)
    {
      assert Joined(At(-1), At(0));
      n := head.next;
    }

    method Next(n: Node, ghost i: nat) returns (m: Node)
      requires Valid() && i < |nodes| && n == nodes[i]
      ensures m == At(i + 1)
    {
      assert Joined(At(i), At(i + 1));
      m := n.next;
    }
  }
}
