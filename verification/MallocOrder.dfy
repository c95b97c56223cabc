/** Bins by size: every binned chunk in the bin of its size, bins in decreasing order, the bitmap. */
module MallocOrder {
  import opened Arith
  import B = MallocBins
  import opened MallocHeap
  import opened MallocLists
  import opened MallocSteps
  import opened MallocMoves

  const ADDRESSES: int := 0x8000_0000

  /** From the fd end to the bk end, sizes do not grow. */
  ghost predicate Descending(cs: Chunks, l: seq<int>) {
    forall j, k :: 0 <= j < k < |l| && l[j] in cs && l[k] in cs ==> cs[l[j]].size >= cs[l[k]].size
  }

  ghost predicate SortedBin(cs: Chunks, bins: seq<seq<int>>, i: int)
    requires 0 <= i < |bins|
  {
    Descending(cs, bins[i])
  }

  /** Beyond the unsorted bin 1, a chunk is in the bin of its size. */
  ghost predicate RightBin(cs: Chunks, a: int)
    requires a in cs
  {
    cs[a].st.Binned? && cs[a].st.i >= 2 ==> 16 <= cs[a].size < ADDRESSES && B.BinIndex(cs[a].size) == cs[a].st.i
  }

  ghost predicate Sized(cs: Chunks, bins: seq<seq<int>>) {
    && |bins| == NBINS
    && (forall a {:trigger RightBin(cs, a)} :: a in cs ==> RightBin(cs, a))
    && (forall i {:trigger SortedBin(cs, bins, i)} :: 2 <= i < NBINS ==> SortedBin(cs, bins, i))
  }

  /** The binmap: four words; a bin that holds a chunk has its bit set. */
  ghost predicate Marked(binmap: seq<nat>, i: int)
    requires |binmap| == 4 && 0 <= i < NBINS
  {
    B.TestBit(binmap[i / 32], i % 32)
  }

  ghost predicate Mapped(bins: seq<seq<int>>, binmap: seq<nat>) {
    && |bins| == NBINS && |binmap| == 4 && binmap[3] == 0
    && (forall w :: 0 <= w < 4 ==> binmap[w] < WORD)
    && (forall i {:trigger Marked(binmap, i)} :: 2 <= i < NBINS && bins[i] != [] ==> Marked(binmap, i))
  }

  ghost predicate Ordered(h: Heap, binmap: seq<nat>) {
    Sized(h.cs, h.bins) && Mapped(h.bins, binmap)
  }

  /** Moves that leave the lists alone leave their order alone. */
  lemma OrderFrame(h: Heap, h': Heap, binmap: seq<nat>)
    requires Inv(h) && Ordered(h, binmap) && h'.bins == h.bins
    requires forall a :: a in h.cs && h.cs[a].st.Binned? ==> a in h'.cs && h'.cs[a].st == h.cs[a].st && h'.cs[a].size == h.cs[a].size
    requires forall a :: a in h'.cs && h'.cs[a].st.Binned? ==> a in h.cs && h.cs[a].st == h'.cs[a].st
    ensures Ordered(h', binmap)
  {
    forall a | a in h'.cs
      ensures RightBin(h'.cs, a)
    {
      if a in h.cs {
        assert RightBin(h.cs, a);
      }
    }
    forall i | 2 <= i < NBINS
      ensures SortedBin(h'.cs, h'.bins, i)
    {
      assert SortedBin(h.cs, h.bins, i) && BinOk(h.mem, h.cs, h.bins, i);
    }
  }

  lemma OrderDetach(h: Heap, p: int, i: int, k: nat, binmap: seq<nat>)
    requires Inv(h) && Ordered(h, binmap) && Stands(h, p, i, k)
    ensures p in h.cs && Ordered(Detached(h, p, i, k), binmap)
  {
    Neighbours(h, p, i, k);
    var h' := Detached(h, p, i, k);
    assert BinOk(h.mem, h.cs, h.bins, i);
    forall a | a in h'.cs
      ensures RightBin(h'.cs, a)
    {
      assert RightBin(h.cs, a);
    }
    forall j | 2 <= j < NBINS
      ensures SortedBin(h'.cs, h'.bins, j)
    {
      DetachSorted(h, p, i, k, j);
    }
    forall j | 2 <= j < NBINS && h'.bins[j] != []
      ensures Marked(binmap, j)
    {
      assert h.bins[j] != [];
    }
    hide SortedBin, RightBin, Marked;
  }

  lemma DetachSorted(h: Heap, p: int, i: int, k: nat, j: int)
    requires Inv(h) && Stands(h, p, i, k) && p in h.cs && 2 <= j < NBINS && SortedBin(h.cs, h.bins, j)
    ensures SortedBin(Detached(h, p, i, k).cs, Detached(h, p, i, k).bins, j)
  {
    assert BinOk(h.mem, h.cs, h.bins, j);
  }

  /** Where a chunk may be put into a bin and keep it sorted. */
  ghost predicate Fits(h: Heap, p: int, i: int, k: nat) {
    && p in h.cs && Place(h, i, k)
    && (i >= 2 ==>
      && 16 <= h.cs[p].size < ADDRESSES && B.BinIndex(h.cs[p].size) == i
      && (forall j :: 0 <= j < k && h.bins[i][j] in h.cs ==> h.cs[h.bins[i][j]].size >= h.cs[p].size)
      && (forall j :: k <= j < |h.bins[i]| && h.bins[i][j] in h.cs ==> h.cs[h.bins[i][j]].size <= h.cs[p].size))
  }

  /**
   The place the code finds.  In a small bin that is the front.  In a large one it is before all chunks of the same
   size or smaller, but for one as small as the smallest: that goes to the end, behind those of its own size.
   */
  ghost predicate Placed(cs: Chunks, l: seq<int>, size: int, j: nat) {
    && j <= |l| && (forall k :: 0 <= k < |l| ==> l[k] in cs)
    && if B.InSmallBinRange(size) then j == 0
       else if l != [] && size <= cs[l[|l| - 1]].size then j == |l|
       else (j > 0 ==> cs[l[j - 1]].size > size) && (j < |l| ==> cs[l[j]].size <= size)
  }

  lemma PlacedEnd(cs: Chunks, l: seq<int>, size: int)
    requires !B.InSmallBinRange(size) && (forall k :: 0 <= k < |l| ==> l[k] in cs) && (l == [] || size <= cs[l[|l| - 1]].size)
    ensures Placed(cs, l, size, |l|)
  {
  }

  lemma PlacedWalk(cs: Chunks, l: seq<int>, size: int, j: nat)
    requires !B.InSmallBinRange(size) && (forall k :: 0 <= k < |l| ==> l[k] in cs) && j < |l| && cs[l[|l| - 1]].size < size
    requires (j > 0 ==> cs[l[j - 1]].size > size) && cs[l[j]].size <= size
    ensures Placed(cs, l, size, j)
  {
  }

  lemma OrderAttach(h: Heap, p: int, i: int, k: nat, binmap: seq<nat>)
    requires Inv(h) && Ordered(h, binmap) && Ready(h, p) && Fits(h, p, i, k)
    requires i >= 2 ==> Marked(binmap, i)
    ensures Ordered(Attached(h, p, i, k), binmap)
  {
    var h' := Attached(h, p, i, k);
    forall a | a in h'.cs
      ensures RightBin(h'.cs, a)
    {
      assert RightBin(h.cs, a);
    }
    forall j | 2 <= j < NBINS
      ensures SortedBin(h'.cs, h'.bins, j)
    {
      AttachSorted(h, p, i, k, j);
    }
    forall j | 2 <= j < NBINS && h'.bins[j] != []
      ensures Marked(binmap, j)
    {
      assert j != i ==> h.bins[j] != [];
    }
    hide SortedBin, RightBin, Marked;
  }

  lemma DescendingWith(cs: Chunks, l: seq<int>, k: nat, p: int)
    requires Descending(cs, l) && k <= |l| && p in cs
    requires forall j :: 0 <= j < k && l[j] in cs ==> cs[l[j]].size >= cs[p].size
    requires forall j :: k <= j < |l| && l[j] in cs ==> cs[l[j]].size <= cs[p].size
    ensures Descending(cs, With(l, k, p))
  {
    var l' := With(l, k, p);
    assert forall x :: 0 <= x < k ==> l'[x] == l[x];
    assert l'[k] == p;
    assert forall x :: k < x < |l'| ==> l'[x] == l[x - 1];
    hide With;
  }

  lemma DescendingFrame(cs: Chunks, cs': Chunks, l: seq<int>)
    requires Descending(cs, l)
    requires forall k :: 0 <= k < |l| ==> l[k] in cs && l[k] in cs' && cs'[l[k]].size == cs[l[k]].size
    ensures Descending(cs', l)
  {
  }

  lemma AttachSorted(h: Heap, p: int, i: int, k: nat, j: int)
    requires Inv(h) && Fits(h, p, i, k) && h.cs[p].st.Limbo? && 2 <= j < NBINS && SortedBin(h.cs, h.bins, j)
    ensures SortedBin(Attached(h, p, i, k).cs, Attached(h, p, i, k).bins, j)
  {
    var h' := Attached(h, p, i, k);
    assert BinOk(h.mem, h.cs, h.bins, j);
    if j == i {
      DescendingWith(h.cs, h.bins[i], k, p);
      WithFacts(h.bins[i], k, p);
      hide With, LinkedIn, Before, AtOrEnd;
      assert forall x :: 0 <= x < |h'.bins[j]| ==> h'.bins[j][x] in h.bins[i] || h'.bins[j][x] == p;
      DescendingFrame(h.cs, h'.cs, h'.bins[j]);
    } else {
      hide With, LinkedIn, Before, AtOrEnd;
      DescendingFrame(h.cs, h'.cs, h.bins[j]);
    }
  }

  /** `mark_bin` */
  lemma MarkBin(bins: seq<seq<int>>, binmap: seq<nat>, i: int)
    requires Mapped(bins, binmap) && 2 <= i < NBINS
    ensures var b' := binmap[i / 32 := B.SetBit(binmap[i / 32], i % 32)];
            Mapped(bins, b') && Marked(b', i)
  {
    var b' := binmap[i / 32 := B.SetBit(binmap[i / 32], i % 32)];
    Pow2Of32();
    B.SetBitFits(binmap[i / 32], i % 32, 32);
    forall j | 2 <= j < NBINS
      ensures Marked(b', j) <==> i == j || Marked(binmap, j)
    {
      if i / 32 == j / 32 {
        B.SetBitTest(binmap[i / 32], i % 32, j % 32);
      }
    }
  }

  /** `unmark_bin`, of an empty bin */
  lemma UnmarkBin(bins: seq<seq<int>>, binmap: seq<nat>, i: int)
    requires Mapped(bins, binmap) && 2 <= i < NBINS && bins[i] == []
    ensures Mapped(bins, binmap[i / 32 := B.ClearBit(binmap[i / 32], i % 32)])
  {
    var b' := binmap[i / 32 := B.ClearBit(binmap[i / 32], i % 32)];
    forall j | 2 <= j < NBINS && bins[j] != []
      ensures Marked(b', j)
    {
      assert Marked(binmap, j);
      if i / 32 == j / 32 {
        B.ClearBitTest(binmap[i / 32], i % 32, j % 32);
      }
    }
  }
}
