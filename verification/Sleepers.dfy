/** The sleepers of kernel/proc.c: a list through `suiv`, by deadline, first come first woken among equals. */
module Sleepers {
  import opened Queue

  function NodeAt(l: seq<Node>, i: nat): Node? {
    if i < |l| then l[i] else null
  }

  /** The sleepers, linked by `suiv`, the first to wake first. */
  ghost predicate Chained(l: seq<Node>, first: Node?, last: Node?)
    reads l`suiv
  {
    && Distinct(l)
    && first == (if l == [] then null else l[0])
    && last == (if l == [] then null else l[|l| - 1])
    && forall i {:trigger l[i]} :: 0 <= i < |l| ==> l[i].suiv == NodeAt(l, i + 1)
  }

  ghost predicate ByDeadline(l: seq<Node>)
    reads l`timeToWake
  {
    forall i, j :: 0 <= i < j < |l| ==> l[i].timeToWake <= l[j].timeToWake
  }

  /** Up to k the sleepers wake at `time` or before, from k on later. */
  ghost predicate SplitAt(l: seq<Node>, k: nat, time: real)
    reads l`timeToWake
  {
    && k <= |l| && (forall j :: 0 <= j < k ==> l[j].timeToWake <= time)
    && (forall j :: k <= j < |l| ==> l[j].timeToWake > time)
  }

  lemma ChainedInsert(l: seq<Node>, k: nat, e: Node, first: Node?, last: Node?)
    requires Distinct(l) && e !in l && k <= |l|
    requires first == (if k == 0 then e else l[0]) && last == (if k == |l| then e else l[|l| - 1])
    requires forall i {:trigger l[i]} :: 0 <= i < |l| ==> l[i].suiv == if i + 1 == k then e else NodeAt(l, i + 1)
    requires e.suiv == NodeAt(l, k)
    ensures Chained(Insert(l, k, e), first, last)
  {
    var l' := Insert(l, k, e);
    forall i | 0 <= i < |l'|
      ensures l'[i].suiv == NodeAt(l', i + 1)
    {
      if i < k {
        assert l'[i] == l[i];
      } else if i > k {
        assert l'[i] == l[i - 1] && NodeAt(l', i + 1) == NodeAt(l, i);
      }
    }
  }

  lemma DeadlineInsert(l: seq<Node>, k: nat, e: Node)
    requires ByDeadline(l) && SplitAt(l, k, e.timeToWake)
    ensures ByDeadline(Insert(l, k, e))
  {
  }

  class SleepList {
    var first: Node?             // endormi_list
    var last: Node?              // endormi_tail
    ghost var nodes: seq<Node>

    ghost predicate Valid()
      reads this, nodes`suiv, nodes`timeToWake
    {
      Chained(nodes, first, last) && ByDeadline(nodes)
    }

    constructor ()
      ensures Valid() && nodes == []
    {
      first, last, nodes := null, null, [];
    }

    /** `extract_endormi`: the one that wakes first. */
    method Extract() returns (r: Node)
      requires Valid() && nodes != []
      modifies this, nodes`suiv
      ensures Valid() && r == old(nodes)[0] && nodes == old(nodes)[1..] && r !in nodes && r.suiv == null
    {
      ghost var l := nodes;
      r := first;
      assert l[0] == r && r.suiv == NodeAt(l, 1) && r in l;
      if first == last {
        first := null;
        last := null;
      } else {
        first := first.suiv;
      }
      r.suiv := null;
      nodes := l[1..];
      forall i | 0 <= i < |nodes|
        ensures nodes[i] == l[i + 1] && nodes[i] != r && nodes[i].suiv == NodeAt(nodes, i + 1)
      {
        assert NodeAt(nodes, i + 1) == NodeAt(l, i + 2);
      }
    }

    /** The first sleeper with a later deadline, and the one before it. */
    method FirstLater(time: real) returns (prec: Node, tmp: Node?, isHead: bool, ghost k: nat)
      requires Valid() && nodes != []
      ensures SplitAt(nodes, k, time) && k <= |nodes| && tmp == NodeAt(nodes, k)
      ensures if k == 0 then isHead else !isHead && prec == nodes[k - 1]
    {
      tmp, isHead, k := first, true, 0;
      prec := tmp;
      while tmp != null && tmp.timeToWake <= time
        invariant k <= |nodes| && tmp == NodeAt(nodes, k)
        invariant if isHead then k == 0 && prec == nodes[0] else k > 0 && prec == nodes[k - 1]
        invariant forall j :: 0 <= j < k ==> nodes[j].timeToWake <= time
        decreases |nodes| - k
      {
        if isHead {
          tmp := tmp.suiv;
          isHead := false;
        } else {
          prec := prec.suiv;
          tmp := tmp.suiv;
        }
        k := k + 1;
      }
    }

    /** `insert_endormi`: after all that wake no later. */
    method InsertUntil(e: Node, time: real) returns (ghost k: nat)
      requires Valid() && e !in nodes
      modifies this, nodes`suiv, e`suiv, e`timeToWake, e`state
      ensures Valid() && k <= |old(nodes)| && nodes == Insert(old(nodes), k, e) && SplitAt(old(nodes), k, time)
      ensures e.timeToWake == time && e.state == Endormi
    {
      e.timeToWake := time;
      e.state := Endormi;
      assert Valid();
      hide SplitAt, ByDeadline, Chained;
      k := Link(e);
    }

    method Link(e: Node) returns (ghost k: nat)
      requires Valid() && e !in nodes
      modifies this, nodes`suiv, e`suiv
      ensures Valid() && k <= |old(nodes)| && nodes == Insert(old(nodes), k, e) && SplitAt(old(nodes), k, e.timeToWake)
    {
      ghost var l := nodes;
      hide SplitAt, ByDeadline, Chained;
      ListIs();
      if last == null {
        k := 0;
        LinkFirst(e);
      } else {
        var prec, tmp, isHead;
        prec, tmp, isHead, k := FirstLater(e.timeToWake);
        DeadlineInsert(l, k, e);
        if tmp != null {
          LinkBefore(e, prec, tmp, isHead, k);
        } else {
          LinkLast(e);
        }
      }
    }

    lemma ListIs()
      requires Valid()
      ensures last == null <==> nodes == []
    {
    }

    method LinkFirst(e: Node)
      requires nodes == []
      modifies this, e`suiv
      ensures Valid() && nodes == Insert(old(nodes), 0, e) && SplitAt(old(nodes), 0, e.timeToWake)
    {
      e.suiv := null;
      first := e;
      last := e;
      nodes := Insert(nodes, 0, e);
    }

    method LinkBefore(e: Node, prec: Node, tmp: Node, isHead: bool, ghost k: nat)
      requires Chained(nodes, first, last) && e !in nodes && k < |nodes| && tmp == nodes[k]
      requires if k == 0 then isHead else !isHead && prec == nodes[k - 1]
      modifies this`first, this`nodes, nodes`suiv, e`suiv
      ensures nodes == Insert(old(nodes), k, e) && Chained(nodes, first, last)
    {
      if isHead {
        LinkAtHead(e, tmp);
      } else {
        LinkBetween(e, prec, tmp, k);
      }
    }

    method LinkAtHead(e: Node, tmp: Node)
      requires Chained(nodes, first, last) && e !in nodes && nodes != [] && tmp == nodes[0]
      modifies this`first, this`nodes, nodes`suiv, e`suiv
      ensures nodes == Insert(old(nodes), 0, e) && Chained(nodes, first, last)
    {
      ghost var l := nodes;
      first := e;
      e.suiv := tmp;
      assert last == l[|l| - 1] && last.suiv == null;
      last.suiv := null;
      ChainedInsert(l, 0, e, first, last);
      nodes := Insert(l, 0, e);
    }

    method LinkBetween(e: Node, prec: Node, tmp: Node, ghost k: nat)
      requires Chained(nodes, first, last) && e !in nodes && 0 < k < |nodes| && tmp == nodes[k] && prec == nodes[k - 1]
      modifies this`nodes, nodes`suiv, e`suiv
      ensures nodes == Insert(old(nodes), k, e) && Chained(nodes, first, last)
    {
      ghost var l := nodes;
      assert last == l[|l| - 1] && last.suiv == null && prec != last;
      prec.suiv := e;
      e.suiv := tmp;
      last.suiv := null;
      ChainedInsert(l, k, e, first, last);
      nodes := Insert(l, k, e);
    }

    method LinkLast(e: Node)
      requires Chained(nodes, first, last) && e !in nodes && nodes != []
      modifies this`last, this`nodes, nodes`suiv, e`suiv
      ensures nodes == Insert(old(nodes), |old(nodes)|, e) && Chained(nodes, first, last)
    {
      ghost var l := nodes;
      last.suiv := e;
      last := last.suiv;
      last.suiv := null;
      ChainedInsert(l, |l|, e, first, last);
      nodes := Insert(l, |l|, e);
    }
  }
}
