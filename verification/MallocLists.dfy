/** Removing from and inserting into the circular bin lists of shared/malloc.c, in memory. */
module MallocLists {
  import opened MallocHeap

  ghost predicate Nodes(h: int, l: seq<int>) {
    && h % 8 == 0 && h !in l && NoDup(l)
    && forall k :: 0 <= k < |l| ==> l[k] % 8 == 0
  }

  function Without(l: seq<int>, k: nat): seq<int>
    requires k < |l|
  {
    l[..k] + l[k + 1..]
  }

  function With(l: seq<int>, k: nat, p: int): seq<int>
    requires k <= |l|
  {
    l[..k] + [p] + l[k..]
  }

  /** The links of the two neighbours of a node, set past it: the macro `unlink`. */
  function Unlinked(mem: Memory, p: int): Memory {
    var fd, bk := Rd(mem, p + 8), Rd(mem, p + 12);
    mem[fd + 12 := bk][bk + 8 := fd]
  }

  /** p linked between bck and fwd. */
  function LinkedIn(mem: Memory, p: int, bck: int, fwd: int): Memory {
    mem[p + 12 := bck][p + 8 := fwd][fwd + 12 := p][bck + 8 := p]
  }

  /** The node before position k of a list, and the node at it. */
  function Before(h: int, l: seq<int>, k: nat): int
    requires k <= |l|
  {
    if k == 0 then h else l[k - 1]
  }

  function AtOrEnd(h: int, l: seq<int>, k: nat): int
    requires k <= |l|
  {
    if k == |l| then h else l[k]
  }

  lemma UnlinkNode(mem: Memory, h: int, l: seq<int>, k: nat, j: nat)
    requires Linked(mem, h, l) && Nodes(h, l) && k < |l| && j < |l| && j != k
    requires Rd(mem, l[k] + 8) == NextIn(h, l, k) && Rd(mem, l[k] + 12) == PrevIn(h, l, k)
    ensures LinkAt(Unlinked(mem, l[k]), h, Without(l, k), if j < k then j else j - 1)
  {
    assert LinkAt(mem, h, l, j);
  }

  lemma UnlinkLinked(mem: Memory, h: int, l: seq<int>, k: nat)
    requires Linked(mem, h, l) && Nodes(h, l) && k < |l|
    ensures Rd(mem, l[k] + 8) == NextIn(h, l, k) && Rd(mem, l[k] + 12) == PrevIn(h, l, k)
    ensures Linked(Unlinked(mem, l[k]), h, Without(l, k))
  {
    assert LinkAt(mem, h, l, k);
    var mem', l' := Unlinked(mem, l[k]), Without(l, k);
    forall j | 0 <= j < |l'|
      ensures LinkAt(mem', h, l', j)
    {
      UnlinkNode(mem, h, l, k, if j < k then j else j + 1);
    }
  }

  lemma InsertNode(mem: Memory, h: int, l: seq<int>, k: nat, p: int, j: nat)
    requires Linked(mem, h, l) && Nodes(h, l) && k <= |l| && j < |l|
    requires p % 8 == 0 && p != h && p !in l
    ensures LinkAt(LinkedIn(mem, p, Before(h, l, k), AtOrEnd(h, l, k)), h, With(l, k, p), if j < k then j else j + 1)
  {
    assert LinkAt(mem, h, l, j);
    WithNeighbours(h, l, k, p, j);
    assert l[j] % 8 == 0 && Before(h, l, k) % 8 == 0 && AtOrEnd(h, l, k) % 8 == 0;
    hide With, NextIn, PrevIn, Before, AtOrEnd, Nodes, Linked;
  }

  /** The neighbours of l[j], with p put in at k. */
  lemma WithNeighbours(h: int, l: seq<int>, k: nat, p: int, j: nat)
    requires Nodes(h, l) && k <= |l| && j < |l| && p != h && p !in l
    ensures var l', j' := With(l, k, p), if j < k then j else j + 1;
            && |l'| == |l| + 1 && l'[j'] == l[j] && l[j] != p && l[j] != h
            && NextIn(h, l', j') == (if l[j] == Before(h, l, k) then p else NextIn(h, l, j))
            && PrevIn(h, l', j') == (if l[j] == AtOrEnd(h, l, k) then p else PrevIn(h, l, j))
  {
    assert j + 1 == k <==> l[j] == Before(h, l, k);
    assert j == k <==> l[j] == AtOrEnd(h, l, k);
  }

  lemma InsertLinked(mem: Memory, h: int, l: seq<int>, k: nat, p: int)
    requires Linked(mem, h, l) && Nodes(h, l) && k <= |l|
    requires p % 8 == 0 && p != h && p !in l
    ensures Linked(LinkedIn(mem, p, Before(h, l, k), AtOrEnd(h, l, k)), h, With(l, k, p))
  {
    var mem', l' := LinkedIn(mem, p, Before(h, l, k), AtOrEnd(h, l, k)), With(l, k, p);
    forall j | 0 <= j < |l'|
      ensures LinkAt(mem', h, l', j)
    {
      if j != k {
        InsertNode(mem, h, l, k, p, if j < k then j else j - 1);
      }
    }
  }

  /** Words outside the links of a list may change. */
  lemma LinkedFrame(mem: Memory, mem': Memory, h: int, l: seq<int>)
    requires Linked(mem, h, l)
    requires Rd(mem', h + 8) == Rd(mem, h + 8) && Rd(mem', h + 12) == Rd(mem, h + 12)
    requires forall k :: 0 <= k < |l| ==> Rd(mem', l[k] + 8) == Rd(mem, l[k] + 8) && Rd(mem', l[k] + 12) == Rd(mem, l[k] + 12)
    ensures Linked(mem', h, l)
  {
    forall k | 0 <= k < |l|
      ensures LinkAt(mem', h, l, k)
    {
      assert LinkAt(mem, h, l, k);
    }
  }

  lemma WithoutFacts(l: seq<int>, k: nat)
    requires NoDup(l) && k < |l|
    ensures NoDup(Without(l, k))
    ensures forall a :: a in Without(l, k) <==> a in l && a != l[k]
  {
    var l' := Without(l, k);
    forall a | a in l && a != l[k]
      ensures a in l'
    {
      var j :| 0 <= j < |l| && l[j] == a;
      assert l'[if j < k then j else j - 1] == a;
    }
  }

  lemma WithFacts(l: seq<int>, k: nat, p: int)
    requires NoDup(l) && k <= |l| && p !in l
    ensures NoDup(With(l, k, p))
    ensures forall a :: a in With(l, k, p) <==> a in l || a == p
  {
    var l' := With(l, k, p);
    assert l'[k] == p;
    forall a | a in l
      ensures a in l'
    {
      var j :| 0 <= j < |l| && l[j] == a;
      assert l'[if j < k then j else j + 1] == a;
    }
  }
}
