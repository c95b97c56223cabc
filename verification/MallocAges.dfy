/**
 Which of several free chunks of one size is taken first in shared/malloc.c.  For small sizes it is the one that has
 waited longest; `TieJumps` shows that for large ones it may be the newest.
 */
module MallocAges {
  import B = MallocBins
  import opened Arith
  import opened MallocHeap
  import opened MallocLists
  import opened MallocSteps
  import opened MallocOrder

  /** The chunks of a list that have s bytes, in order. */
  function OfSize(cs: Chunks, l: seq<int>, s: int): seq<int> {
    if l == [] then []
    else
      var a := l[|l| - 1];
      OfSize(cs, l[..|l| - 1], s) + (if a in cs && cs[a].size == s then [a] else [])
  }

  /** All free chunks of s bytes in the order in which they came, the first one last: the unsorted ones, then those of their bin. */
  function Line(h: Heap, s: int): seq<int> {
    if |h.bins| == NBINS && 16 <= s < ADDRESSES && 2 <= B.BinIndex(s) < NBINS then OfSize(h.cs, h.bins[1] + h.bins[B.BinIndex(s)], s)
    else []
  }

  /** p is the last in line of the free chunks of its size. */
  ghost predicate NextOut(h: Heap, p: int) {
    p in h.cs && var l := Line(h, h.cs[p].size); l != [] && l[|l| - 1] == p
  }

  /** The small chunks are in line as before. */
  ghost predicate SameLines(h: Heap, h': Heap) {
    forall s: int :: B.InSmallBinRange(s) ==> Line(h', s) == Line(h, s)
  }

  lemma {:induction false} OfSizeAppend(cs: Chunks, l: seq<int>, m: seq<int>, s: int)
    ensures OfSize(cs, l + m, s) == OfSize(cs, l, s) + OfSize(cs, m, s)
  {
    if m == [] {
      assert l + m == l;
    } else {
      assert (l + m)[..|l + m| - 1] == l + m[..|m| - 1];
      OfSizeAppend(cs, l, m[..|m| - 1], s);
    }
  }

  lemma {:induction false} OfSizeSame(cs: Chunks, cs': Chunks, l: seq<int>, s: int)
    requires forall k :: 0 <= k < |l| ==> l[k] in cs && l[k] in cs' && cs'[l[k]].size == cs[l[k]].size
    ensures OfSize(cs', l, s) == OfSize(cs, l, s)
  {
    if l != [] {
      OfSizeSame(cs, cs', l[..|l| - 1], s);
    }
  }

  lemma {:induction false} OfSizeNone(cs: Chunks, l: seq<int>, s: int)
    requires forall k :: 0 <= k < |l| && l[k] in cs ==> cs[l[k]].size != s
    ensures OfSize(cs, l, s) == []
  {
    if l != [] {
      OfSizeNone(cs, l[..|l| - 1], s);
    }
  }

  /** The last chunk of s bytes. */
  lemma LastOfSize(cs: Chunks, l: seq<int>, k: nat, s: int)
    requires k < |l| && l[k] in cs && cs[l[k]].size == s && forall j :: k < j < |l| && l[j] in cs ==> cs[l[j]].size != s
    ensures var t := OfSize(cs, l, s); t != [] && t[|t| - 1] == l[k]
  {
    var front, rest := l[..k + 1], l[k + 1..];
    assert l == front + rest;
    OfSizeAppend(cs, front, rest, s);
    OfSizeNone(cs, rest, s);
    assert front[..k] == l[..k] && front[k] == l[k];
  }

  /** The chunk at position k of its list, with no other of its size behind it, nor on the unsorted list if that is another. */
  lemma NextOutAt(h: Heap, p: int, k: nat)
    requires |h.bins| == NBINS && p in h.cs && 16 <= h.cs[p].size < ADDRESSES && 2 <= B.BinIndex(h.cs[p].size) < NBINS
    requires var m := h.bins[B.BinIndex(h.cs[p].size)];
             k < |m| && m[k] == p && forall j :: k < j < |m| && m[j] in h.cs ==> h.cs[m[j]].size != h.cs[p].size
    ensures NextOut(h, p)
  {
    hide B.BinIndex;
    var s := h.cs[p].size;
    var l := h.bins[1] + h.bins[B.BinIndex(s)];
    LastOfSize(h.cs, l, |h.bins[1]| + k, s);
  }

  lemma NextOutUnsorted(h: Heap, p: int)
    requires |h.bins| == NBINS && p in h.cs && 16 <= h.cs[p].size < ADDRESSES && 2 <= B.BinIndex(h.cs[p].size) < NBINS
    requires h.bins[1] != [] && h.bins[1][|h.bins[1]| - 1] == p && h.bins[B.BinIndex(h.cs[p].size)] == []
    ensures NextOut(h, p)
  {
    hide B.BinIndex;
    var s := h.cs[p].size;
    LastOfSize(h.cs, h.bins[1] + h.bins[B.BinIndex(s)], |h.bins[1]| - 1, s);
  }

  /** Every chunk on a list is there. */
  ghost predicate AllThere(h: Heap) {
    |h.bins| == NBINS && forall i :: 1 <= i < NBINS ==> There(h.cs, h.bins[i])
  }

  ghost predicate There(cs: Chunks, l: seq<int>) {
    forall k :: 0 <= k < |l| ==> l[k] in cs
  }

  /** Every chunk on a list is free. */
  ghost predicate AllFree(cs: Chunks, l: seq<int>) {
    forall k :: 0 <= k < |l| ==> l[k] in cs && IsFree(cs[l[k]])
  }

  /** The same lists, and the free chunks have the sizes they had. */
  lemma LinesFrame(h: Heap, h': Heap)
    requires |h.bins| == NBINS && h'.bins == h.bins && forall i :: 1 <= i < NBINS ==> AllFree(h.cs, h.bins[i])
    requires forall a :: a in h.cs && IsFree(h.cs[a]) ==> a in h'.cs && h'.cs[a].size == h.cs[a].size
    ensures SameLines(h, h')
  {
    hide B.BinIndex;
    forall s: int
      ensures Line(h', s) == Line(h, s)
    {
      if 16 <= s < ADDRESSES && 2 <= B.BinIndex(s) < NBINS {
        LineFrame(h.cs, h'.cs, h.bins[1], h.bins[B.BinIndex(s)], s);
      }
    }
  }

  lemma LineFrame(cs: Chunks, cs': Chunks, l: seq<int>, m: seq<int>, s: int)
    requires AllFree(cs, l) && AllFree(cs, m) && forall a :: a in cs && IsFree(cs[a]) ==> a in cs' && cs'[a].size == cs[a].size
    ensures OfSize(cs', l + m, s) == OfSize(cs, l + m, s)
  {
    forall k | 0 <= k < |l + m|
      ensures (l + m)[k] in cs && (l + m)[k] in cs' && cs'[(l + m)[k]].size == cs[(l + m)[k]].size
    {
      var a := if k < |l| then l[k] else m[k - |l|];
      assert a == (l + m)[k] && a in cs && IsFree(cs[a]) && a in cs' && cs'[a].size == cs[a].size;
    }
    OfSizeSame(cs, cs', l + m, s);
  }

  /** The last unsorted chunk v put into its bin i: small chunks stay where they were in line. */
  lemma LinesSorted(h: Heap, h': Heap, v: int, i: int, j: nat)
    requires AllThere(h) && v in h.cs && 16 <= h.cs[v].size < ADDRESSES && i == B.BinIndex(h.cs[v].size) && 2 <= i < NBINS
    requires h.bins[1] != [] && h.bins[1][|h.bins[1]| - 1] == v && j <= |h.bins[i]|
    requires h'.bins == h.bins[1 := h.bins[1][..|h.bins[1]| - 1]][i := With(h.bins[i], j, v)]
    requires SameSizes(h.cs, h'.cs) && Placed(h.cs, h.bins[i], h.cs[v].size, j)
    ensures SameLines(h, h')
  {
    forall s: int | B.InSmallBinRange(s)
      ensures Line(h', s) == Line(h, s)
    {
      if 16 <= s && 2 <= B.BinIndex(s) < NBINS {
        B.BinIndexMonotone(h.cs[v].size, h.cs[v].size);
        LineSorted(h, h', v, i, j, s);
      }
    }
  }

  lemma LineSorted(h: Heap, h': Heap, v: int, i: int, j: nat, s: int)
    requires AllThere(h) && v in h.cs && 0 <= h.cs[v].size < WORD && i == B.BinIndex(h.cs[v].size) && 2 <= i < NBINS
    requires h.bins[1] != [] && h.bins[1][|h.bins[1]| - 1] == v && j <= |h.bins[i]|
    requires h'.bins == h.bins[1 := h.bins[1][..|h.bins[1]| - 1]][i := With(h.bins[i], j, v)]
    requires SameSizes(h.cs, h'.cs) && (B.InSmallBinRange(h.cs[v].size) ==> j == 0)
    requires 16 <= s < ADDRESSES && 2 <= B.BinIndex(s) < NBINS && (B.BinIndex(s) == i ==> B.InSmallBinRange(h.cs[v].size))
    ensures Line(h', s) == Line(h, s)
  {
    hide B.BinIndex, OfSize, SameSizes;
    var n, l := B.BinIndex(s), h.bins[1][..|h.bins[1]| - 1];
    assert There(h.cs, h.bins[1]) && There(h.cs, h.bins[n]);
    assert h.bins[1] == l + [v] && There(h.cs, l);
    if n == i {
      assert With(h.bins[i], 0, v) == [v] + h.bins[i];
      MovedOver(h.cs, h'.cs, l, v, h.bins[i], s);
    } else {
      LeftOut(h.cs, h'.cs, l, v, h.bins[n], s);
    }
  }

  ghost predicate SameSizes(cs: Chunks, cs': Chunks) {
    forall a :: a in cs ==> a in cs' && cs'[a].size == cs[a].size
  }

  lemma OfSizeKept(cs: Chunks, cs': Chunks, l: seq<int>, s: int)
    requires There(cs, l) && SameSizes(cs, cs')
    ensures OfSize(cs', l, s) == OfSize(cs, l, s)
  {
    forall k | 0 <= k < |l|
      ensures l[k] in cs && l[k] in cs' && cs'[l[k]].size == cs[l[k]].size
    {
      var a := l[k];
      assert a in cs && a in cs' && cs'[a].size == cs[a].size;
    }
    OfSizeSame(cs, cs', l, s);
  }

  /** v from behind l to before m. */
  lemma MovedOver(cs: Chunks, cs': Chunks, l: seq<int>, v: int, m: seq<int>, s: int)
    requires v in cs && There(cs, l) && There(cs, m) && SameSizes(cs, cs')
    ensures OfSize(cs', l + ([v] + m), s) == OfSize(cs, l + [v] + m, s)
  {
    assert l + ([v] + m) == l + [v] + m;
    OfSizeKept(cs, cs', l + [v] + m, s);
  }

  lemma LeftOut(cs: Chunks, cs': Chunks, l: seq<int>, v: int, m: seq<int>, s: int)
    requires v in cs && cs[v].size != s && There(cs, l) && There(cs, m) && SameSizes(cs, cs')
    ensures OfSize(cs', l + m, s) == OfSize(cs, l + [v] + m, s)
  {
    OfSizeAppend(cs', l, m, s);
    OfSizeAppend(cs, l + [v], m, s);
    OfSizeAppend(cs, l, [v], s);
    OfSizeKept(cs, cs', l, s);
    OfSizeKept(cs, cs', m, s);
    OfSizeOne(cs, v, s);
    hide OfSize;
  }

  lemma OfSizeOne(cs: Chunks, v: int, s: int)
    requires v in cs
    ensures OfSize(cs, [v], s) == if cs[v].size == s then [v] else []
  {
    assert [v][..0] == [];
  }

  /** A large chunk of the size of the smallest in its bin goes to the end, and is the next of that size to be taken. */
  lemma TieJumps(h: Heap, h': Heap, v: int, i: int, j: nat)
    requires |h.bins| == NBINS && v in h.cs && 16 <= h.cs[v].size < ADDRESSES && i == B.BinIndex(h.cs[v].size) && 2 <= i < NBINS
    requires var l, size := h.bins[i], h.cs[v].size;
             l != [] && l[|l| - 1] in h.cs && h.cs[l[|l| - 1]].size == size && !B.InSmallBinRange(size) && Placed(h.cs, l, size, j)
    requires |h'.bins| == NBINS && h'.bins[i] == With(h.bins[i], j, v) && v in h'.cs && h'.cs[v].size == h.cs[v].size
    ensures j == |h.bins[i]| && NextOut(h', v)
  {
    hide NextOut, B.BinIndex;
    assert With(h.bins[i], j, v)[j] == v;
    NextOutAt(h', v, j);
  }

  /** So it goes with a second chunk of 512 bytes. */
  lemma TieAt(j: nat)
    ensures Placed(map[0x2000 := Chunk(512, NOWHERE, Binned(36))], [0x2000], 512, j) <==> j == 1
  {
    assert [0x2000][0] == 0x2000;
  }
}
