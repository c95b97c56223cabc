/** The moves of malloc: taking a chunk off a list whole or cutting it, and sorting the unsorted ones. */
module MallocTakes {
  import opened Arith
  import B = MallocBins
  import opened MallocHeap
  import opened MallocLists
  import opened MallocSteps
  import opened MallocMoves
  import opened MallocOrder
  import opened MallocSound
  import opened MallocJoins
  import opened MallocAges

  /**
   What a request padded to nb bytes is promised.  Address 0: nothing has changed.  Otherwise a
   new live chunk of nb bytes, or up to 15 more, while all that was live stays as it was.
   */
  ghost predicate Gives(h: Heap, h': Heap, r: int, nb: int) {
    if r == 0 then Same(h, h')
    else
      && r - 8 !in Live(h) && Live(h') == Live(h) + {r - 8} && SameLive(h, h')
      && r % 8 == 0 && r - 8 in h'.cs && nb <= h'.cs[r - 8].size < nb + MINSIZE
  }

  /** p is the smallest free chunk of h that can serve nb bytes. */
  ghost predicate Best(h: Heap, p: int, nb: int) {
    && p in h.cs && IsFree(h.cs[p]) && h.cs[p].size >= nb
    && forall a :: a in h.cs && IsFree(h.cs[a]) && h.cs[a].size >= nb ==> h.cs[p].size <= h.cs[a].size
  }

  /** No free chunk can serve nb bytes. */
  ghost predicate NoFit(cs: Chunks, nb: int) {
    forall a :: a in cs && IsFree(cs[a]) ==> cs[a].size < nb
  }

  /** The fastbin of nb bytes holds a chunk. */
  ghost predicate FastFit(h: Heap, nb: int) {
    0 <= nb / 8 - 2 < |h.fast| && h.fast[nb / 8 - 2] != []
  }

  /**
   The last remainder is to be cut: the request is small, no free chunk fits exactly, and the last remainder is on
   the unsorted list, where it comes up after all others and is more than big enough.
   */
  ghost predicate RestServes(h: Heap, nb: int, lastRemainder: int) {
    && B.InSmallBinRange(nb) && |h.bins| == NBINS && h.bins[1] != [] && h.bins[1][0] == lastRemainder
    && lastRemainder in h.cs && h.cs[lastRemainder].st == Binned(1) && h.cs[lastRemainder].size > nb + MINSIZE
    && forall a :: a in h.cs && IsFree(h.cs[a]) ==> h.cs[a].size != nb
  }

  /**
   The chunk a request is served from: the first of its fastbin if there is one; else the last remainder if that is
   to be cut; else the smallest adequate free chunk, of several small ones the one that has waited longest; and top
   when no free chunk is adequate.
   */
  ghost predicate Picked(h: Heap, p: int, nb: int, lastRemainder: int) {
    && p in h.cs
    && if FastFit(h, nb) then p == h.fast[nb / 8 - 2][0] && h.cs[p].st.Fast? && h.cs[p].size == nb
       else if RestServes(h, nb, lastRemainder) then p == lastRemainder
       else (Best(h, p, nb) && (B.InSmallBinRange(h.cs[p].size) ==> NextOut(h, p))) || (h.cs[p].st == Top && NoFit(h.cs, nb))
  }

  /**
   Of a free chunk that was cut, nb bytes are in use and the rest stands alone on the unsorted list; if the request
   was small that is the last remainder from now on.  In every other case the last remainder is what it was.
   */
  ghost predicate LeavesRest(h: Heap, h': Heap, p: int, nb: int, lastRemainder: int, lastRemainder': int) {
    && p in h.cs && p in h'.cs
    && var cut := IsFree(h.cs[p]) && h'.cs[p].size < h.cs[p].size;
       && (cut ==> h'.cs[p].size == nb && |h'.bins| == NBINS && h'.bins[1] == [p + nb])
       && lastRemainder' == if cut && B.InSmallBinRange(nb) then p + nb else lastRemainder
  }

  /** What a chunk p of h' left over of the chunk it was cut from. */
  ghost predicate RestOf(h: Heap, h': Heap, p: int)
    requires p in h.cs && p in h'.cs
  {
    var q := p + h'.cs[p].size;
    && q in h'.cs && q !in h.cs && h'.cs[p].size + h'.cs[q].size == h.cs[p].size
    && (if h.cs[p].st == Top then h'.cs[q].st == Top else IsFree(h'.cs[q]))
  }

  /** The chunks of h' are those of h, but that p was taken, whole or its low end; a chunk before it is in use, or p was on a fastbin. */
  ghost predicate CutFrom(h: Heap, h': Heap, p: int) {
    && p in h.cs && p in h'.cs && h'.cs[p].st == InUse
    && (forall a :: a in h.cs && a != p ==> a in h'.cs && h'.cs[a].size == h.cs[a].size && h'.cs[a].st == h.cs[a].st)
    && (forall a :: a in h'.cs && a !in h.cs ==> a == p + h'.cs[p].size && RestOf(h, h', p))
    && (h'.cs[p].size == h.cs[p].size || RestOf(h, h', p))
    && (!h.cs[p].st.Fast? ==> PrevShown(h'.cs, p))
  }

  /** Chunk a is still there: if it was free it still is, perhaps on another list than the unsorted one; only top may have grown. */
  ghost predicate StillThere(h: Heap, h': Heap, a: int)
    requires a in h.cs
  {
    && a in h'.cs && (h.cs[a].st != Top ==> h'.cs[a].size == h.cs[a].size)
    && (if IsFree(h.cs[a]) then IsFree(h'.cs[a]) && (h'.cs[a].st == Binned(1) ==> h.cs[a].st == Binned(1))
        else h'.cs[a].st == h.cs[a].st)
  }

  /** The same chunks, some of them sorted into their bins; the first memory adds top. */
  ghost predicate Resorted(h: Heap, h': Heap) {
    if h.cs == map[] then NothingFreed(h'.cs)
    else h'.cs.Keys == h.cs.Keys && forall a :: a in h.cs ==> StillThere(h, h', a)
  }

  lemma ResortedSame(h: Heap, h': Heap)
    requires h'.cs == h.cs
    ensures Resorted(h, h')
  {
  }

  lemma ResortedThen(a: Heap, b: Heap, c: Heap)
    requires Resorted(a, b) && Resorted(b, c)
    ensures Resorted(a, c)
  {
    forall x | x in a.cs
      ensures StillThere(a, c, x)
    {
      assert StillThere(a, b, x) && StillThere(b, c, x);
    }
    if a.cs == map[] {
      forall x | x in c.cs
        ensures c.cs[x].st == InUse || c.cs[x].st == Top
      {
        if b.cs != map[] {
          assert StillThere(b, c, x);
        }
      }
    }
  }

  /** Sorted or not, and the quick ways to serve nb bytes are as they were. */
  ghost predicate Kept(h: Heap, h': Heap, nb: int, lastRemainder: int) {
    Resorted(h, h') && h'.fast == h.fast && SameLines(h, h') && (RestServes(h, nb, lastRemainder) <==> RestServes(h', nb, lastRemainder))
  }

  lemma KeptSame(h: Heap, nb: int, lastRemainder: int)
    ensures Kept(h, h, nb, lastRemainder)
  {
    ResortedSame(h, h);
  }

  lemma KeptThen(a: Heap, b: Heap, c: Heap, nb: int, lastRemainder: int)
    requires Kept(a, b, nb, lastRemainder) && Kept(b, c, nb, lastRemainder)
    ensures Kept(a, c, nb, lastRemainder)
  {
    ResortedThen(a, b, c);
  }

  /** Where nothing fits, the last remainder does not either. */
  lemma KeptNoFit(h: Heap, h': Heap, nb: int, lastRemainder: int)
    requires Resorted(h, h') && h'.fast == h.fast && SameLines(h, h') && NoFit(h.cs, nb) && NoFit(h'.cs, nb)
    ensures Kept(h, h', nb, lastRemainder)
  {
  }

  /** The last unsorted chunk went to its bin: the last remainder still comes up, unless it was that chunk. */
  lemma KeptOne(h: Heap, o: Outside, h': Heap, o': Outside, nb: int, lastRemainder: int)
    requires Sound(h, o, {}) && Sound(h', o', {}) && Resorted(h, h') && SameLines(h, h') && h.cs != map[] && h'.fast == h.fast
    requires |h.bins| == |h'.bins| == NBINS && h.bins[1] != [] && h'.bins[1] == h.bins[1][..|h.bins[1]| - 1]
    requires |h.bins[1]| == 1 ==> !RestServes(h, nb, lastRemainder)
    ensures Kept(h, h', nb, lastRemainder)
  {
    assert BinOk(h.mem, h.cs, h.bins, 1) && BinOk(h'.mem, h'.cs, h'.bins, 1);
    hide Sound, Inv;
    forall a | a in h.cs
      ensures a in h'.cs && (IsFree(h.cs[a]) <==> IsFree(h'.cs[a])) && (IsFree(h.cs[a]) ==> h'.cs[a].size == h.cs[a].size)
    {
      assert StillThere(h, h', a);
    }
    if |h.bins[1]| > 1 {
      assert h'.bins[1][0] == h.bins[1][0];
    }
  }

  /** The unsorted chunk that was neither an exact fit nor the last remainder to be cut. */
  lemma NotTheRest(h: Heap, p: int, nb: int, lastRemainder: int, bck: int)
    requires |h.bins| == NBINS && h.bins[1] != [] && p == h.bins[1][|h.bins[1]| - 1] && p in h.cs && h.cs[p].size != nb
    requires |h.bins[1]| == 1 ==> bck == UNSORTED
    requires !(B.InSmallBinRange(nb) && bck == UNSORTED && p == lastRemainder && h.cs[p].size > nb + MINSIZE)
    ensures |h.bins[1]| == 1 ==> !RestServes(h, nb, lastRemainder)
  {
  }

  /** A free chunk cut: for a small request the rest is the last remainder. */
  lemma RestLeft(h: Heap, h': Heap, p: int, nb: int, lastRemainder: int)
    requires p in h.cs && p in h'.cs && IsFree(h.cs[p]) && h'.cs[p].size == nb < h.cs[p].size
    requires |h'.bins| == NBINS && h'.bins[1] == [p + nb]
    ensures LeavesRest(h, h', p, nb, lastRemainder, if B.InSmallBinRange(nb) then p + nb else lastRemainder)
  {
  }

  lemma SameFast(h: Heap, h': Heap, nb: int)
    requires !FastFit(h, nb) && h'.fast == h.fast
    ensures !FastFit(h', nb)
  {
  }

  /** The first chunk of a fastbin. */
  lemma FastFirst(h: Heap, o: Outside, nb: int) returns (a: int)
    requires Sound(h, o, {}) && FastFit(h, nb) && nb % 8 == 0
    ensures a in h.cs && h.cs[a].st.Fast? && h.cs[a].size == nb
  {
    var i := nb / 8 - 2;
    assert FastOk(h.mem, h.cs, h.fast, i);
    a := h.fast[i][0];
  }

  /** No block was given back, so none is on a fastbin. */
  lemma NoFast(h: Heap, o: Outside, nb: int)
    requires Sound(h, o, {}) && NothingFreed(h.cs) && nb % 8 == 0
    ensures !FastFit(h, nb)
  {
    if FastFit(h, nb) {
      var a := FastFirst(h, o, nb);
    }
  }

  /** The fastbins past the largest size are empty. */
  lemma NoFastAbove(h: Heap, o: Outside, nb: int)
    requires Sound(h, o, {}) && nb > 72 && nb % 8 == 0
    ensures !FastFit(h, nb)
  {
  }

  /** Nothing freed yet: there is no last remainder to cut. */
  lemma KeptStart(h: Heap, h': Heap, nb: int, lastRemainder: int)
    requires NothingFreed(h.cs) && h'.cs == h.cs && h'.fast == h.fast && SameLines(h, h')
    ensures Kept(h, h', nb, lastRemainder)
  {
    ResortedSame(h, h');
  }

  lemma KeptTells(h: Heap, h': Heap, nb: int, lastRemainder: int)
    requires Kept(h, h', nb, lastRemainder)
    ensures Resorted(h, h') && (NoFit(h'.cs, nb) ==> NoFit(h.cs, nb))
  {
    if NoFit(h'.cs, nb) {
      NoFitBefore(h, h', nb);
    }
  }

  /** The chunk a scan of its bin from the end comes to. */
  lemma NextOutIn(h: Heap, o: Outside, p: int, i: int, k: nat, nb: int)
    requires Sound(h, o, {}) && Stands(h, p, i, k) && i >= 2 && p in h.cs && h.cs[p].st == Binned(i) && h.cs[p].size >= nb
    requires forall j :: k < j < |h.bins[i]| && h.bins[i][j] in h.cs ==> h.cs[h.bins[i][j]].size < nb
    ensures NextOut(h, p)
  {
    assert RightBin(h.cs, p);
    hide B.BinIndex, NextOut;
    NextOutAt(h, p, k);
  }

  /** The last unsorted chunk, when the bin of its size is empty. */
  lemma NextOutOf(h: Heap, o: Outside, p: int, nb: int)
    requires Sound(h, o, {}) && |h.bins| == NBINS && h.bins[1] != [] && p == h.bins[1][|h.bins[1]| - 1] && p in h.cs && h.cs[p].size == nb
    requires B.InSmallBinRange(nb) && MINSIZE <= nb && h.bins[nb / 8] == []
    ensures NextOut(h, p)
  {
    hide NextOut;
    NextOutUnsorted(h, p);
  }

  /** The chunks on the lists, as the invariant has them. */
  lemma ListsFree(h: Heap, o: Outside, s: set<int>)
    requires Sound(h, o, s)
    ensures |h.bins| == NBINS && AllThere(h) && forall i :: 1 <= i < NBINS ==> AllFree(h.cs, h.bins[i])
  {
    forall i | 1 <= i < NBINS
      ensures AllFree(h.cs, h.bins[i]) && There(h.cs, h.bins[i])
    {
      assert BinOk(h.mem, h.cs, h.bins, i);
    }
  }

  lemma LinesGrown(h: Heap, o: Outside, h': Heap)
    requires Sound(h, o, {}) && Resorted(h, h') && h'.bins == h.bins
    ensures SameLines(h, h')
  {
    ListsFree(h, o, {});
    hide SameLines;
    forall a | a in h.cs && IsFree(h.cs[a])
      ensures a in h'.cs && h'.cs[a].size == h.cs[a].size
    {
      assert StillThere(h, h', a);
    }
    LinesFrame(h, h');
  }

  lemma NoLines(h: Heap, h': Heap)
    requires |h.bins| == |h'.bins| == NBINS && forall i :: 1 <= i < NBINS ==> h.bins[i] == h'.bins[i] == []
    ensures SameLines(h, h')
  {
    forall s: int
      ensures Line(h', s) == Line(h, s)
    {
      assert h.bins[1] == h'.bins[1] == [];
      if 16 <= s < ADDRESSES && 2 <= B.BinIndex(s) < NBINS {
        assert h.bins[B.BinIndex(s)] == h'.bins[B.BinIndex(s)] == [];
      }
    }
  }

  /** With no block given back the lists are empty. */
  lemma EmptyLists(h: Heap, o: Outside)
    requires Sound(h, o, {}) && NothingFreed(h.cs)
    ensures |h.bins| == NBINS && forall i :: 1 <= i < NBINS ==> h.bins[i] == []
  {
    ListsFree(h, o, {});
    forall i | 1 <= i < NBINS
      ensures h.bins[i] == []
    {
      if h.bins[i] != [] {
        var a := FirstFree(h, i);
      }
    }
  }

  lemma FirstFree(h: Heap, i: int) returns (a: int)
    requires |h.bins| == NBINS && 1 <= i < NBINS && AllFree(h.cs, h.bins[i]) && h.bins[i] != []
    ensures a in h.cs && IsFree(h.cs[a])
  {
    a := h.bins[i][0];
  }

  lemma NoFitBefore(h: Heap, h': Heap, nb: int)
    requires Resorted(h, h') && NoFit(h'.cs, nb)
    ensures NoFit(h.cs, nb)
  {
    forall a | a in h.cs && IsFree(h.cs[a])
      ensures h.cs[a].size < nb
    {
      assert StillThere(h, h', a);
    }
  }

  /** Sorting changes nothing about which chunk is the right one. */
  lemma PickedBefore(h: Heap, h': Heap, p: int, nb: int, lastRemainder: int)
    requires Kept(h, h', nb, lastRemainder) && Picked(h', p, nb, lastRemainder) && h.cs != map[]
    ensures Picked(h, p, nb, lastRemainder)
  {
    hide RestServes, Line;
    assert p in h.cs && StillThere(h, h', p);
    assert IsFree(h'.cs[p]) && B.InSmallBinRange(h.cs[p].size) ==> Line(h', h.cs[p].size) == Line(h, h.cs[p].size);
    forall a | a in h.cs && IsFree(h.cs[a])
      ensures a in h'.cs && IsFree(h'.cs[a]) && h'.cs[a].size == h.cs[a].size
    {
      assert StillThere(h, h', a);
    }
  }

  /** What is left over is as well told from the heap before the sorting. */
  lemma RestBefore(h: Heap, seen: Heap, h': Heap, p: int, nb: int, lastRemainder: int, lastRemainder': int)
    requires Resorted(h, seen) && LeavesRest(seen, h', p, nb, lastRemainder, lastRemainder') && h.cs != map[]
    ensures LeavesRest(h, h', p, nb, lastRemainder, lastRemainder')
  {
    assert p in h.cs && StillThere(h, seen, p);
  }

  /** A request served from chunk p of seen, with lastRemainder before and after. */
  ghost predicate Served(h: Heap, seen: Heap, h': Heap, p: int, nb: int, lastRemainder: int, lastRemainder': int) {
    Same(h, seen) && Picked(seen, p, nb, lastRemainder) && CutFrom(seen, h', p) && LeavesRest(seen, h', p, nb, lastRemainder, lastRemainder')
  }

  /** The last remainder serves: no chunk on the fastbin of that size, and it is the one to be cut. */
  ghost predicate ServedByRest(h: Heap, nb: int, lastRemainder: int) {
    !FastFit(h, nb) && RestServes(h, nb, lastRemainder)
  }

  lemma RestIsFit(h: Heap, nb: int, lastRemainder: int)
    requires ServedByRest(h, nb, lastRemainder)
    ensures !NoFit(h.cs, nb) && B.InSmallBinRange(nb) && h.cs != map[]
  {
  }

  /** A chunk on some list, fast or not. */
  predicate Listed(c: Chunk) { IsFree(c) || c.st.Fast? }

  /** nb bytes of the free chunk p were handed out, and the lists hold what they held, with the rest for p. */
  ghost predicate Shrunk(h: Heap, h': Heap, p: int, nb: int) {
    && p in h.cs && p + nb in h'.cs && h'.cs[p + nb].size == h.cs[p].size - nb
    && forall a :: a in h'.cs && Listed(h'.cs[a]) && a != p + nb ==> a in h.cs && a != p && Listed(h.cs[a]) && h.cs[a].size == h'.cs[a].size
  }

  /** Served by the last remainder, the block is its low end and the rest the next last remainder. */
  lemma RestLaw(h: Heap, seen: Heap, h': Heap, r: int, nb: int, lastRemainder: int, lastRemainder': int)
    requires ServedByRest(h, nb, lastRemainder) && Picked(h, r - 8, nb, lastRemainder) && Gives(h, h', r, nb) && r != 0
    requires LeavesRest(h, h', r - 8, nb, lastRemainder, lastRemainder') && Resorted(h, seen) && CutFrom(seen, h', r - 8)
    ensures r == lastRemainder + 8 && lastRemainder' == lastRemainder + nb && |h'.bins| == NBINS && h'.bins[1] == [lastRemainder']
    ensures Shrunk(h, h', lastRemainder, nb)
  {
    var p := lastRemainder;
    hide Resorted, CutFrom;
    assert h'.cs[p].size == nb < h.cs[p].size;
    ShrunkIs(h, seen, h', p, nb);
  }

  lemma ShrunkIs(h: Heap, seen: Heap, h': Heap, p: int, nb: int)
    requires Resorted(h, seen) && CutFrom(seen, h', p) && h.cs != map[]
    requires p in h.cs && IsFree(h.cs[p]) && p in h'.cs && h'.cs[p].size == nb < h.cs[p].size
    ensures Shrunk(h, h', p, nb)
  {
    assert StillThere(h, seen, p);
    forall a | a in h'.cs && Listed(h'.cs[a]) && a != p + nb
      ensures a in h.cs && a != p && Listed(h.cs[a]) && h.cs[a].size == h'.cs[a].size
    {
      assert a in seen.cs;
      assert StillThere(h, seen, a);
    }
  }

  /** Taken whole, or not off a list: the last remainder stays. */
  lemma NoRest(h: Heap, h': Heap, p: int, nb: int, lastRemainder: int)
    requires p in h.cs && p in h'.cs && (IsFree(h.cs[p]) ==> h'.cs[p].size == h.cs[p].size)
    ensures LeavesRest(h, h', p, nb, lastRemainder, lastRemainder)
  {
  }

  /** Chunk p was the low end of top. */
  ghost predicate OffTop(seen: Heap, p: int) {
    p in seen.cs && seen.cs[p].st == Top
  }

  lemma PickedOf(h: Heap, seen: Heap, h': Heap, p: int, nb: int, lastRemainder: int, lastRemainder': int)
    requires Served(h, seen, h', p, nb, lastRemainder, lastRemainder')
    ensures Picked(seen, p, nb, lastRemainder) && CutFrom(seen, h', p) && LeavesRest(seen, h', p, nb, lastRemainder, lastRemainder')
  {
  }

  lemma ServedAfter(a: Heap, b: Heap, seen: Heap, h': Heap, p: int, nb: int, lastRemainder: int, lastRemainder': int)
    requires Same(a, b) && Served(b, seen, h', p, nb, lastRemainder, lastRemainder')
    ensures Served(a, seen, h', p, nb, lastRemainder, lastRemainder')
  {
    SameAfter(a, b, seen);
  }

  lemma ServedHere(h: Heap, h': Heap, p: int, nb: int, lastRemainder: int, lastRemainder': int)
    requires Picked(h, p, nb, lastRemainder) && CutFrom(h, h', p) && LeavesRest(h, h', p, nb, lastRemainder, lastRemainder')
    ensures Served(h, h, h', p, nb, lastRemainder, lastRemainder') && Kept(h, h, nb, lastRemainder)
  {
    SameRefl(h);
    KeptSame(h, nb, lastRemainder);
  }

  lemma GivesAfter(a: Heap, b: Heap, c: Heap, r: int, nb: int)
    requires Same(a, b) && Gives(b, c, r, nb)
    ensures Gives(a, c, r, nb)
  {
    SameTrans(a, b, c);
  }

  lemma GivesNothing(a: Heap, b: Heap, c: Heap, nb: int)
    requires Same(a, b) && Same(b, c)
    ensures Gives(a, c, 0, nb)
  {
    SameTrans(a, b, c);
  }

  lemma NothingGiven(a: Heap, b: Heap, nb: int)
    requires Gives(a, b, 0, nb)
    ensures Same(a, b)
  {
  }

  /** A binned chunk: header and footer say its size, and its neighbours are not free. */
  lemma BinnedAlone(h: Heap, o: Outside, p: int)
    requires Sound(h, o, {}) && p in h.cs && IsFree(h.cs[p])
    ensures p > 0 && p % 8 == 0 && p != h.top && h.cs[p].size % 8 == 0 && h.cs[p].size > 0
    ensures Rd(h.mem, p + 4) == h.cs[p].size + (if PrevShown(h.cs, p) then 1 else 0) && Rd(h.mem, p + h.cs[p].size) == h.cs[p].size
    ensures p + h.cs[p].size != h.top && (p + h.cs[p].size in h.cs ==> !IsFree(h.cs[p + h.cs[p].size]))
    ensures h.cs[p].prev in h.cs ==> h.cs[p].prev != p && !IsFree(h.cs[h.cs[p].prev]) && Shown(h.cs[h.cs[p].prev])
  {
    HeadFacts(h, p);
    PrevOf(h, p);
    assert FootOk(h.mem, h.cs, h.top, p);
    if h.cs[p].prev in h.cs {
      assert FootOk(h.mem, h.cs, h.top, h.cs[p].prev);
    }
  }

  /** A binned chunk off its list stands alone, with header and footer in order. */
  lemma DetachedLoner(h: Heap, o: Outside, p: int, i: int, k: nat) returns (h': Heap)
    requires Sound(h, o, {}) && Stands(h, p, i, k)
    ensures p in h.cs && h.cs[p].st == Binned(i) && h' == Detached(h, p, i, k)
    ensures Sound(h', o, {p}) && Same(h, h') && Ready(h', p) && Loner(h', p) && h'.cs[p].size == h.cs[p].size
    ensures p > 0 && p % 8 == 0 && p != h.top && h.cs[p].size % 8 == 0
    ensures h'.fast == h.fast && h'.base == h.base && h'.top == h.top && h'.mem == Unlinked(h.mem, p)
  {
    DetachedWords(h, p, i, k);
    hide Inv, Ordered, Same, Unlinked;
    SoundDetach(h, o, {}, p, i, k);
    assert {} + {p} == {p};
    h' := Detached(h, p, i, k);
    hide Sound;
    BinnedAlone(h, o, p);
    DetachedFacts(h, p, i, k);
    hide Detached, Stands;
  }

  /** Unlinking touches no header and no footer. */
  lemma DetachedWords(h: Heap, p: int, i: int, k: nat)
    requires Inv(h) && Stands(h, p, i, k)
    ensures forall a :: a in h.cs ==> Rd(Unlinked(h.mem, p), a + 4) == Rd(h.mem, a + 4)
    ensures p in h.cs && Rd(Unlinked(h.mem, p), p + h.cs[p].size) == Rd(h.mem, p + h.cs[p].size)
  {
    Neighbours(h, p, i, k);
    forall a | a in h.cs
      ensures Rd(Unlinked(h.mem, p), a + 4) == Rd(h.mem, a + 4)
    {
      LinkWordsApart(h, i, Rd(h.mem, p + 8), a);
      LinkWordsApart(h, i, Rd(h.mem, p + 12), a);
    }
    LinkWordsApart(h, i, Rd(h.mem, p + 8), p);
    LinkWordsApart(h, i, Rd(h.mem, p + 12), p);
  }

  // ----- the whole of a binned chunk

  /** p off its list and in use. */
  function Taken(h: Heap, p: int, i: int, k: nat): Heap
    requires p in h.cs && p + h.cs[p].size in h.cs && 0 <= i < |h.bins| && k < |h.bins[i]|
  {
    Restated(ShownAs(Detached(h, p, i, k), p, true), p, InUse)
  }

  lemma SoundTaken(h: Heap, o: Outside, p: int, i: int, k: nat, nb: int) returns (h': Heap)
    requires Sound(h, o, {}) && Stands(h, p, i, k)
    requires p in h.cs ==> nb <= h.cs[p].size < nb + MINSIZE
    ensures p in h.cs && p + h.cs[p].size in h.cs && h' == Taken(h, p, i, k)
    ensures p > 0 && Sound(h', o, {}) && Gives(h, h', p + 8, nb) && CutFrom(h, h', p) && p in h'.cs && h'.cs[p].size == h.cs[p].size
    ensures h'.fast == h.fast && h'.base == h.base && h'.top == h.top
    ensures var n := p + h.cs[p].size; h'.mem == Unlinked(h.mem, p)[n + 4 := h.cs[n].size + 1]
  {
    hide Detached, Same, Loner, Sound, Unlinked, ShownAs, Gives, CutFrom;
    TakenCut(h, o, p, i, k);
    InuseBit(h, o, p, i, k);
    var h1 := DetachedLoner(h, o, p, i, k);
    DetachedFacts(h, p, i, k);
    var h2 := Showing(h1, o, p);
    h' := Settling(h2, o, p, nb);
    GivesAfter(h1, h2, h', p + 8, nb);
    GivesAfter(h, h1, h', p + 8, nb);
  }

  lemma TakenCut(h: Heap, o: Outside, p: int, i: int, k: nat)
    requires Sound(h, o, {}) && Stands(h, p, i, k)
    ensures p in h.cs && p + h.cs[p].size in h.cs && CutFrom(h, Taken(h, p, i, k), p)
    ensures p in Taken(h, p, i, k).cs && Taken(h, p, i, k).cs[p].size == h.cs[p].size
  {
    Neighbours(h, p, i, k);
    BinnedAlone(h, o, p);
    HeadFacts(h, p);
    hide Sound, Inv;
  }

  lemma Showing(h: Heap, o: Outside, p: int) returns (h': Heap)
    requires Sound(h, o, {p}) && Ready(h, p)
    ensures p > 0 && p + h.cs[p].size in h.cs && h' == ShownAs(h, p, true) && Sound(h', o, {p}) && Same(h, h')
    ensures p in h'.cs && h'.cs[p] == Chunk(h.cs[p].size, h.cs[p].prev, Limbo(true)) && p != h'.top
    ensures Rd(h'.mem, p + 4) == h'.cs[p].size + (if PrevShown(h'.cs, p) then 1 else 0)
    ensures h'.fast == h.fast && h'.base == h.base && h'.top == h.top
    ensures var n := p + h.cs[p].size; h'.mem == h.mem[n + 4 := h.cs[n].size + 1]
  {
    LimboFacts(h, p);
    PrevOf(h, p);
    SoundShown(h, o, {p}, p, true);
    ShownFacts(h, p, true);
    h' := ShownAs(h, p, true);
  }

  lemma Settling(h: Heap, o: Outside, p: int, nb: int) returns (h': Heap)
    requires Sound(h, o, {p}) && p in h.cs && p != h.top && h.cs[p].st == Limbo(true) && nb <= h.cs[p].size < nb + MINSIZE
    requires Rd(h.mem, p + 4) == h.cs[p].size + (if PrevShown(h.cs, p) then 1 else 0)
    ensures p > 0 && h' == Restated(h, p, InUse) && Sound(h', o, {}) && Gives(h, h', p + 8, nb)
  {
    LimboFacts(h, p);
    SoundSettle(h, o, {p}, p);
    assert {p} - {p} == {};
    h' := Restated(h, p, InUse);
    NotLive(h, p);
  }

  lemma NotLive(h: Heap, p: int)
    requires p in h.cs && h.cs[p].st != InUse
    ensures p !in Live(h)
  {
  }

  lemma ShownFacts(h: Heap, p: int, b: bool)
    requires p in h.cs && p + h.cs[p].size in h.cs && h.cs[p].size > 0
    ensures var h' := ShownAs(h, p, b);
            && h'.bins == h.bins && h'.fast == h.fast && h'.base == h.base && h'.top == h.top
            && p in h'.cs && h'.cs[p] == h.cs[p].(st := Limbo(b)) && Rd(h'.mem, p + 4) == Rd(h.mem, p + 4)
            && (h.cs[p].prev != p ==> (PrevShown(h'.cs, p) <==> PrevShown(h.cs, p)))
  {
  }

  /** `set_inuse_bit_at_offset(p, size)`, before or after the chunk has left its list. */
  lemma InuseBit(h: Heap, o: Outside, p: int, i: int, k: nat)
    requires Sound(h, o, {}) && Stands(h, p, i, k)
    ensures p in h.cs && p + h.cs[p].size in h.cs
    ensures var n := p + h.cs[p].size;
            && Rd(h.mem, n + 4) == Rd(Unlinked(h.mem, p), n + 4) == h.cs[n].size && h.cs[n].size % 2 == 0
            && Rd(h.mem, p + 8) + 12 != n + 4 && Rd(h.mem, p + 12) + 8 != n + 4
  {
    Neighbours(h, p, i, k);
    DetachedWords(h, p, i, k);
    var n := p + h.cs[p].size;
    HeadFacts(h, p);
    HeadFacts(h, n);
    LinkWordsApart(h, i, Rd(h.mem, p + 8), n);
    LinkWordsApart(h, i, Rd(h.mem, p + 12), n);
    EvenHead(h, n);
  }

  lemma EvenHead(h: Heap, a: int)
    requires Inv(h) && a in h.cs
    ensures h.cs[a].size % 2 == 0
  {
    assert ChunkOk(h.cs, h.base, h.top, a);
    HeadWord(h.cs[a].size, h.cs[a].size);
  }

  /** The last chunk of a bin: its fd is the bin. */
  lemma LastLinks(h: Heap, o: Outside, i: int)
    requires Sound(h, o, {}) && 1 <= i < NBINS
    ensures |h.bins| == NBINS
    ensures h.bins[i] == [] <==> Rd(h.mem, BinAt(i) + 12) == BinAt(i)
    ensures h.bins[i] != [] ==>
              var k := |h.bins[i]| - 1;
              var p := h.bins[i][k];
              && Rd(h.mem, BinAt(i) + 12) == p && Stands(h, p, i, k)
              && Rd(h.mem, p + 8) == BinAt(i) && p in h.cs && h.cs[p].st == Binned(i) && p > BinAt(i)
  {
    assert BinOk(h.mem, h.cs, h.bins, i);
    if h.bins[i] != [] {
      var k := |h.bins[i]| - 1;
      assert LinkAt(h.mem, BinAt(i), h.bins[i], k);
      assert ChunkOk(h.cs, h.base, h.top, h.bins[i][k]);
    }
  }

  /** A small bin holds one size. */
  lemma SmallSize(h: Heap, o: Outside, p: int)
    requires Sound(h, o, {}) && p in h.cs && IsFree(h.cs[p]) && 2 <= h.cs[p].st.i < B.NSMALLBINS
    ensures h.cs[p].size == 8 * h.cs[p].st.i
  {
    assert RightBin(h.cs, p) && ChunkOk(h.cs, h.base, h.top, p);
    B.BinIndexMonotone(h.cs[p].size, h.cs[p].size);
  }

  /** The last chunk of the small bin of size nb, by the writes of the C code: first the bit, then the links. */
  lemma SmallTaken(h: Heap, o: Outside, nb: int, p: int) returns (h': Heap)
    requires Sound(h, o, {}) && nb % 8 == 0 && MINSIZE <= nb && B.InSmallBinRange(nb)
    requires |h.bins| == NBINS && h.bins[nb / 8] != [] && p == h.bins[nb / 8][|h.bins[nb / 8]| - 1]
    ensures p > 0 && Sound(h', o, {}) && Gives(h, h', p + 8, nb) && Best(h, p, nb) && CutFrom(h, h', p)
    ensures p in h.cs && h.cs[p].size == nb && p in h'.cs && h'.cs[p].size == nb && NextOut(h, p)
    ensures h'.fast == h.fast && h'.base == h.base && h'.top == h.top
    ensures var bin, bck := BinAt(nb / 8), Rd(h.mem, p + 12);
            h'.mem == h.mem[p + nb + 4 := OrInuse(Rd(h.mem, p + nb + 4))][bin + 12 := bck][bck + 8 := bin]
  {
    hide Best, Sound, Stands, Gives, Taken, Unlinked, CutFrom, NextOut;
    var i, k := nb / 8, |h.bins[nb / 8]| - 1;
    LastLinks(h, o, i);
    SmallBest(h, o, nb, p);
    InuseBit(h, o, p, i, k);
    h' := SoundTaken(h, o, p, i, k, nb);
    NextOutIn(h, o, p, i, k, nb);
    BitFirst(h.mem, p, p + nb + 4, OrInuse(Rd(h.mem, p + nb + 4)));
  }

  lemma SmallBest(h: Heap, o: Outside, nb: int, p: int)
    requires Sound(h, o, {}) && nb % 8 == 0 && MINSIZE <= nb && B.InSmallBinRange(nb)
    requires p in h.cs && h.cs[p].st == Binned(nb / 8)
    ensures h.cs[p].size == nb && Best(h, p, nb)
    ensures |h.bins| == NBINS && nb / 8 < NBINS
  {
    SmallSize(h, o, p);
    HeadFacts(h, p);
  }

  lemma BitFirst(mem: Memory, p: int, w: int, v: int)
    requires w != Rd(mem, p + 8) + 12 && w != Rd(mem, p + 12) + 8
    ensures var bin, bck := Rd(mem, p + 8), Rd(mem, p + 12);
            mem[w := v][bin + 12 := bck][bck + 8 := bin] == Unlinked(mem, p)[w := v]
  {
  }

  // ----- a part of a binned chunk

  /** The chunk off its list; the C code may leave the links of the unsorted list for later. */
  lemma PartStart(h: Heap, o: Outside, p: int, i: int, k: nat, mem: Memory) returns (h': Heap)
    requires Sound(h, o, {}) && Stands(h, p, i, k)
    requires h.bins[1] == (if i == 1 then [p] else [])
    requires mem == (if i == 1 then h.mem else Unlinked(h.mem, p))
    ensures p in h.cs && p >= HEAP_FLOOR && p % 8 == 0 && p !in Live(h) && p != h.top && h.cs[p].size % 8 == 0
    ensures Sound(h', o, {p}) && Same(h, h') && p in h'.cs && h'.cs[p].st == Limbo(false) && Loner(h', p) && h'.cs[p].size == h.cs[p].size
    ensures h.cs[p].st == Binned(i) && h' == Detached(h, p, i, k)
    ensures h'.fast == h.fast && h'.base == h.base && h'.top == h.top && |h'.bins| == NBINS && h'.bins[1] == []
    ensures mem[UNSORTED + 12 := 0][UNSORTED + 8 := 0] == h'.mem[UNSORTED + 12 := 0][UNSORTED + 8 := 0]
  {
    h' := DetachedLoner(h, o, p, i, k);
    assert p >= HEAP_FLOOR by {
      assert ChunkOk(h.cs, h.base, h.top, p);
    }
    if i == 1 {
      Neighbours(h, p, i, k);
    }
  }

  /** nb bytes of p, and the rest alone on the unsorted list. */
  lemma SoundPart(h: Heap, o: Outside, p: int, i: int, k: nat, nb: int, mem: Memory) returns (h': Heap)
    requires Sound(h, o, {}) && Stands(h, p, i, k)
    requires p in h.cs ==> nb % 8 == 0 && MINSIZE <= nb && nb + MINSIZE <= h.cs[p].size
    requires h.bins[1] == (if i == 1 then [p] else [])
    requires mem == (if i == 1 then h.mem else Unlinked(h.mem, p))
    ensures p in h.cs && p > 0 && Sound(h', o, {}) && Gives(h, h', p + 8, nb) && CutFrom(h, h', p)
    ensures p in h'.cs && h'.cs[p].size == nb && |h'.bins| == NBINS && h'.bins[1] == [p + nb]
    ensures h'.fast == h.fast && h'.base == h.base && h'.top == h.top
    ensures var q, rest := p + nb, h.cs[p].size - nb;
            h'.mem == mem[UNSORTED + 8 := q][UNSORTED + 12 := q][q + 8 := UNSORTED][q + 12 := UNSORTED]
                         [p + 4 := nb + 1][q + 4 := rest + 1][q + rest := rest]
  {
    hide Same, SameLive, Live, Stands, Loner, Sound, Unlinked, CutOff, Gives, CutFrom, Detached;
    var h1 := PartStart(h, o, p, i, k, mem);
    h' := CutGives(h1, o, p, nb);
    PartCut(h, o, p, i, k, nb);
    CutWrites(h1, p, nb, mem);
    CutOffRest(h1, p, nb);
    GivesAfter(h, h1, h', p + 8, nb);
  }

  lemma PartCut(h: Heap, o: Outside, p: int, i: int, k: nat, nb: int)
    requires Sound(h, o, {}) && Stands(h, p, i, k)
    requires p in h.cs ==> nb % 8 == 0 && MINSIZE <= nb && nb + MINSIZE <= h.cs[p].size
    ensures p in h.cs && |h.bins| == NBINS && CutFrom(h, CutOff(Detached(h, p, i, k), p, nb), p)
  {
    hide Detached, CutOff, CutFrom, PrevShown, Shown;
    Neighbours(h, p, i, k);
    BinnedAlone(h, o, p);
    HeadFacts(h, p);
    MapLength(h, o);
    InsideNoChunk(h, p, nb);
    NowhereApart(h);
    PrevOf(h, p);
    DetachedFacts(h, p, i, k);
    var h1 := Detached(h, p, i, k);
    CutOffChunks(h1, p, nb);
    CutFromIs(h, CutOff(h1, p, nb), p, nb);
  }

  lemma NowhereApart(h: Heap)
    requires Inv(h)
    ensures NOWHERE !in h.cs
  {
    forall a | a in h.cs
      ensures a > 0
    {
      PrevOf(h, a);
    }
  }

  lemma CutFromIs(h: Heap, h': Heap, p: int, nb: int)
    requires p in h.cs && IsFree(h.cs[p]) && p + nb !in h.cs && 0 < nb < h.cs[p].size
    requires h.cs[p].prev in h.cs ==> h.cs[p].prev != p && Shown(h.cs[h.cs[p].prev])
    requires forall a :: a in h'.cs <==> a in h.cs || a == p + nb
    requires forall a :: a in h.cs && a != p ==> h'.cs[a].size == h.cs[a].size && h'.cs[a].st == h.cs[a].st
    requires h'.cs[p] == Chunk(nb, h.cs[p].prev, InUse) && h'.cs[p + nb].size == h.cs[p].size - nb && h'.cs[p + nb].st == Binned(1)
    requires h.cs[p].prev in h.cs || h.cs[p].prev == NOWHERE
    requires NOWHERE !in h'.cs
    ensures CutFrom(h, h', p)
  {
  }

  /** No chunk begins inside another. */
  lemma InsideNoChunk(h: Heap, p: int, nb: int)
    requires Inv(h) && p in h.cs && 0 < nb < h.cs[p].size
    ensures p + nb !in h.cs
  {
    if p + nb in h.cs {
      EndsBefore(h, p, p + nb);
    }
  }

  lemma EndsBefore(h: Heap, a: int, b: int)
    requires Inv(h) && a in h.cs && b in h.cs && a < b
    ensures a + h.cs[a].size <= b
  {
    assert Apart(h.cs, a, b);
  }

  lemma CutOffRest(h: Heap, p: int, nb: int)
    requires p in h.cs && |h.bins| == NBINS && h.bins[1] == [] && 0 < nb < h.cs[p].size
    ensures var h' := CutOff(h, p, nb); p in h'.cs && h'.cs[p].size == nb && |h'.bins| == NBINS && h'.bins[1] == [p + nb]
  {
    UnsortedFacts(BlockCut(h, p, nb), p + nb);
  }

  /** The chunks after a cut: p has nb bytes, the rest is unsorted, all others are as before. */
  lemma CutOffChunks(h: Heap, p: int, nb: int)
    requires p in h.cs && |h.bins| == NBINS && 0 < nb < h.cs[p].size && p + nb !in h.cs
    ensures var cs := CutOff(h, p, nb).cs;
            && (forall a :: a in cs <==> a in h.cs || a == p + nb)
            && (forall a :: a in h.cs && a != p ==> cs[a].size == h.cs[a].size && cs[a].st == h.cs[a].st)
            && cs[p] == Chunk(nb, h.cs[p].prev, InUse) && cs[p + nb].size == h.cs[p].size - nb && cs[p + nb].st == Binned(1)
  {
  }

  lemma CutGives(h: Heap, o: Outside, p: int, nb: int) returns (h': Heap)
    requires Sound(h, o, {p}) && Cuts(h, p, nb) && p != h.top && h.cs[p].st == Limbo(false) && Loner(h, p)
    requires |h.bins| == NBINS && p % 8 == 0 && p > 0
    ensures h' == CutOff(h, p, nb) && Sound(h', o, {}) && Gives(h, h', p + 8, nb)
    ensures h'.fast == h.fast && h'.base == h.base && h'.top == h.top
  {
    SoundCutOff(h, o, p, nb);
    h' := CutOff(h, p, nb);
    CutOffBase(h, p, nb);
    NotLive(h, p);
    hide CutOff;
  }

  lemma CutOffBase(h: Heap, p: int, nb: int)
    requires p in h.cs && |h.bins| == NBINS
    ensures CutOff(h, p, nb).base == h.base
  {
  }

  // ----- an unsorted chunk, off its list, to the bin of its size

  /** Every chunk is smaller than the address space. */
  lemma SizeBound(h: Heap, o: Outside, s: set<int>, a: int)
    requires Sound(h, o, s) && a in h.cs
    ensures MINSIZE <= h.cs[a].size < ADDRESSES
  {
    assert ChunkOk(h.cs, h.base, h.top, a) && ChunkOk(h.cs, h.base, h.top, h.top) && Apart(h.cs, a, h.top);
  }

  /** The header of a binned chunk says that the chunk before it is in use. */
  lemma BinnedHead(h: Heap, p: int, i: int, k: nat)
    requires Inv(h) && LimboIn(h.cs, {p}) && (p in h.cs ==> Loner(h, p)) && 1 <= i < NBINS && |h.bins| == NBINS && k < |h.bins[i]|
    ensures var a := h.bins[i][k];
            && a in h.cs && Rd(h.mem, a + 4) == h.cs[a].size + 1
            && Rd(h.mem, a + 8) == NextIn(BinAt(i), h.bins[i], k) && Rd(h.mem, a + 12) == PrevIn(BinAt(i), h.bins[i], k)
            && h.cs[a].st == Binned(i) && a > BinAt(i)
            && Rd(h.mem, a + 4) - Rd(h.mem, a + 4) % 4 == h.cs[a].size
  {
    var a := h.bins[i][k];
    Neighbours(h, a, i, k);
    HeadFacts(h, a);
    PrevOf(h, a);
    if h.cs[a].prev in h.cs {
      assert FootOk(h.mem, h.cs, h.top, h.cs[a].prev);
    }
  }

  lemma FitsSmall(h: Heap, o: Outside, p: int)
    requires Sound(h, o, {p}) && p in h.cs && B.InSmallBinRange(h.cs[p].size) && h.cs[p].size % 8 == 0 && h.cs[p].size >= MINSIZE
    ensures Fits(h, p, h.cs[p].size / 8, 0)
  {
    var i := h.cs[p].size / 8;
    assert BinOk(h.mem, h.cs, h.bins, i);
    forall j | 0 <= j < |h.bins[i]|
      ensures h.cs[h.bins[i][j]].size <= h.cs[p].size
    {
      var a := h.bins[i][j];
      assert RightBin(h.cs, a) && ChunkOk(h.cs, h.base, h.top, a);
      B.BinIndexMonotone(h.cs[a].size, h.cs[a].size);
    }
  }

  lemma FitsLarge(h: Heap, o: Outside, p: int, j: nat)
    requires Sound(h, o, {p}) && p in h.cs && h.cs[p].size >= MINSIZE
    ensures |h.bins| == NBINS && h.cs[p].size < ADDRESSES
    ensures 2 <= B.BinIndex(h.cs[p].size) < NBINS
    ensures var l := h.bins[B.BinIndex(h.cs[p].size)];
            && (forall k :: 0 <= k < |l| ==> l[k] in h.cs)
            && (j <= |l| && (j > 0 ==> h.cs[l[j - 1]].size >= h.cs[p].size) && (j < |l| ==> h.cs[l[j]].size <= h.cs[p].size)
                ==> Fits(h, p, B.BinIndex(h.cs[p].size), j))
  {
    SizeBound(h, o, {p}, p);
    var i := B.BinIndex(h.cs[p].size);
    B.BinIndexMonotone(h.cs[p].size, h.cs[p].size);
    assert BinOk(h.mem, h.cs, h.bins, i) && SortedBin(h.cs, h.bins, i);
    hide B.BinIndex;
  }

  /** The links of a bin header. */
  lemma BinStart(h: Heap, o: Outside, p: int, i: int)
    requires Sound(h, o, {p}) && 1 <= i < NBINS
    ensures Inv(h) && LimboIn(h.cs, {p}) && |h.bins| == NBINS
    ensures Rd(h.mem, BinAt(i) + 8) == FirstOf(BinAt(i), h.bins[i]) && Rd(h.mem, BinAt(i) + 12) == LastOf(BinAt(i), h.bins[i])
  {
    assert BinOk(h.mem, h.cs, h.bins, i);
  }

  lemma SoundPlaced(h: Heap, o: Outside, p: int, i: int, j: nat) returns (h': Heap)
    requires Sound(h, o, {p}) && Ready(h, p) && Fits(h, p, i, j) && i >= 2 && |o.binmap| == 4 && Marked(o.binmap, i)
    ensures Sound(h', o, {}) && Same(h, h') && h' == Attached(h, p, i, j)
    ensures h'.mem == LinkedIn(h.mem, p, Before(BinAt(i), h.bins[i], j), AtOrEnd(BinAt(i), h.bins[i], j))
    ensures h'.bins == h.bins[i := With(h.bins[i], j, p)] && h'.fast == h.fast && h'.base == h.base && h'.top == h.top
  {
    SoundAttach(h, o, {p}, p, i, j);
    assert {p} - {p} == {};
    h' := Attached(h, p, i, j);
  }

  lemma SoundMarked(h: Heap, o: Outside, s: set<int>, i: int)
    requires Sound(h, o, s) && 2 <= i < NBINS
    ensures |o.binmap| == 4
    ensures var b' := o.binmap[i / 32 := B.SetBit(o.binmap[i / 32], i % 32)];
            |b'| == 4 && Marked(b', i) && Sound(h, o.(binmap := b'), s)
  {
    MarkBin(h.bins, o.binmap, i);
  }

  // ----- best fit

  /** The last chunk of bin i that is big enough is the smallest of all, when the bins before i hold none. */
  lemma BestIs(h: Heap, o: Outside, p: int, i: int, k: nat, nb: int)
    requires Sound(h, o, {}) && h.bins[1] == [] && Stands(h, p, i, k) && i >= 2
    requires p in h.cs && h.cs[p].size >= nb
    requires forall a :: a in h.cs && IsFree(h.cs[a]) && h.cs[a].st.i < i ==> h.cs[a].size < nb
    requires forall j :: k < j < |h.bins[i]| && h.bins[i][j] in h.cs ==> h.cs[h.bins[i][j]].size < nb
    ensures Best(h, p, nb)
  {
    hide B.BinIndex;
    Neighbours(h, p, i, k);
    assert RightBin(h.cs, p);
    forall a | a in h.cs && IsFree(h.cs[a]) && h.cs[a].size >= nb
      ensures h.cs[p].size <= h.cs[a].size
    {
      assert RightBin(h.cs, a) && SortedBin(h.cs, h.bins, i);
      var m, j := Standing(h, a);
      if m > i && h.cs[a].size < h.cs[p].size {
        B.BinIndexMonotone(h.cs[a].size, h.cs[p].size);
      }
    }
  }

  /** Chunks of the bins before the one for nb are too small. */
  lemma BinsBelow(h: Heap, o: Outside, nb: int, a: int)
    requires Sound(h, o, {}) && h.bins[1] == [] && 16 <= nb < WORD
    requires a in h.cs && IsFree(h.cs[a]) && h.cs[a].st.i < B.BinIndex(nb)
    ensures h.cs[a].size < nb
  {
    assert RightBin(h.cs, a);
    var m, j := Standing(h, a);
    if nb <= h.cs[a].size {
      B.BinIndexMonotone(nb, h.cs[a].size);
    }
  }

  /** Chunks of the bins after the one for nb are big enough. */
  lemma BinsAbove(h: Heap, o: Outside, nb: int, a: int)
    requires Sound(h, o, {}) && 16 <= nb < WORD
    requires a in h.cs && IsFree(h.cs[a]) && h.cs[a].st.i > B.BinIndex(nb)
    ensures h.cs[a].size > nb
  {
    assert RightBin(h.cs, a);
    B.BinIndexMonotone(nb, nb);
    if h.cs[a].size <= nb {
      B.BinIndexMonotone(h.cs[a].size, nb);
    }
  }

  // ----- top

  lemma SoundTopPart(h: Heap, o: Outside, nb: int) returns (h': Heap)
    requires Sound(h, o, {}) && Cuts(h, h.top, nb)
    ensures Sound(h', o, {}) && Gives(h, h', h.top + 8, nb) && h.top > 0 && CutFrom(h, h', h.top) && h.cs[h.top].st == Top && h.top in h'.cs
    ensures h'.bins == h.bins && h'.fast == h.fast && h'.base == h.base && h'.top == h.top + nb
    ensures h'.mem == h.mem[h.top + 4 := nb + 1][h.top + nb + 4 := h.cs[h.top].size - nb + 1]
    ensures NothingFreed(h.cs) ==> NothingFreed(h'.cs)
  {
    hide CutFrom;
    SoundTopCut(h, o, nb);
    TopCutFrom(h, o, nb);
    PrevOf(h, h.top);
    assert ChunkOk(h.cs, h.base, h.top, h.top);
    h' := TopCut(h, nb);
  }

  lemma TopCutFrom(h: Heap, o: Outside, nb: int)
    requires Sound(h, o, {}) && Cuts(h, h.top, nb)
    ensures h.top > 0 && h.top in h.cs && h.cs[h.top].st == Top && CutFrom(h, TopCut(h, nb), h.top) && h.top in TopCut(h, nb).cs
  {
    PrevOf(h, h.top);
    TopShown(h);
    InsideNoChunk(h, h.top, nb);
    assert ChunkOk(h.cs, h.base, h.top, h.top);
    hide Sound, Inv;
  }

  /** What the last unsorted chunk says of itself. */
  lemma UnsortedStart(h: Heap, o: Outside, nb: int)
    requires Sound(h, o, {}) && |h.bins| == NBINS && h.bins[1] != [] && nb % 8 == 0 && MINSIZE <= nb
    requires B.InSmallBinRange(nb) ==> h.bins[nb / 8] == []
    ensures var k := |h.bins[1]| - 1; var p := h.bins[1][k];
            && Stands(h, p, 1, k) && p in h.cs && p > UNSORTED && p != h.top && Rd(h.mem, p + 8) == UNSORTED
            && Rd(h.mem, p + 4) - Rd(h.mem, p + 4) % 4 == h.cs[p].size
            && h.cs[p].size % 8 == 0 && MINSIZE <= h.cs[p].size < ADDRESSES
            && (Rd(h.mem, p + 12) == UNSORTED <==> h.bins[1] == [p])
            && (h.cs[p].size == nb ==> Best(h, p, nb))
            && (h.bins[1] == [p] && B.InSmallBinRange(nb) && h.cs[p].size > nb + MINSIZE ==> RestServes(h, nb, p))
  {
    var k := |h.bins[1]| - 1;
    var p := h.bins[1][k];
    if h.bins[1] == [p] && B.InSmallBinRange(nb) {
      OnlyExact(h, o, p, nb);
    }
    LastLinks(h, o, 1);
    HeadFacts(h, p);
    SizeBound(h, o, {}, p);
    Neighbours(h, p, 1, k);
    if k > 0 {
      assert BinOk(h.mem, h.cs, h.bins, 1);
      assert ChunkOk(h.cs, h.base, h.top, h.bins[1][k - 1]);
    } else {
      assert h.bins[1] == [p];
    }
    assert Without(h.bins[1], k) == h.bins[1][..k];
  }

  /** With the small bin of nb empty, only the unsorted chunk can have that size. */
  lemma OnlyExact(h: Heap, o: Outside, p: int, nb: int)
    requires Sound(h, o, {}) && |h.bins| == NBINS && h.bins[1] == [p] && nb % 8 == 0 && MINSIZE <= nb && B.InSmallBinRange(nb)
    requires h.bins[nb / 8] == []
    ensures forall a :: a in h.cs && IsFree(h.cs[a]) && a != p ==> h.cs[a].size != nb
  {
    forall a | a in h.cs && IsFree(h.cs[a]) && a != p
      ensures h.cs[a].size != nb
    {
      assert RightBin(h.cs, a);
      var i, j := Standing(h, a);
    }
  }

  lemma DetachedBins(h: Heap, p: int, k: nat)
    requires p in h.cs && |h.bins| == NBINS && k == |h.bins[1]| - 1
    ensures var b := Detached(h, p, 1, k).bins; b == h.bins[1 := h.bins[1][..k]]
  {
    assert Without(h.bins[1], k) == h.bins[1][..k];
  }

  /** Another size belongs in another bin than the small bin of nb. */
  lemma OtherBin(nb: int, size: int)
    requires nb % 8 == 0 && size % 8 == 0 && nb != size && B.InSmallBinRange(nb) && 16 <= nb && 16 <= size < ADDRESSES
    ensures B.BinIndex(size) != nb / 8
  {
    B.BinIndexMonotone(size, size);
  }

  // ----- scanning the bins

  /** No free chunk up to bin i can serve nb bytes. */
  ghost predicate NoFitUpTo(cs: Chunks, i: int, nb: int) {
    forall a :: a in cs && IsFree(cs[a]) && cs[a].st.i <= i ==> cs[a].size < nb
  }

  /** Bins between lo and hi are empty. */
  ghost predicate Hollow(bins: seq<seq<int>>, lo: int, hi: int) {
    |bins| == NBINS && forall m :: lo < m < hi && 1 <= m < NBINS ==> bins[m] == []
  }

  /** The chunk at position k of bin i, as the C code sees it. */
  lemma BinEntry(h: Heap, o: Outside, i: int, k: nat)
    requires Sound(h, o, {}) && 1 <= i < NBINS && |h.bins| == NBINS && k < |h.bins[i]|
    ensures var a := h.bins[i][k];
            && a in h.cs && h.cs[a].st == Binned(i) && Stands(h, a, i, k) && a > BinAt(i)
            && Rd(h.mem, a + 12) == Before(BinAt(i), h.bins[i], k)
            && Rd(h.mem, a + 4) - Rd(h.mem, a + 4) % 4 == h.cs[a].size && h.cs[a].size % 8 == 0
  {
    var a := h.bins[i][k];
    Neighbours(h, a, i, k);
    HeadFacts(h, a);
  }

  lemma BestInBin(h: Heap, o: Outside, i: int, k: nat, nb: int)
    requires Sound(h, o, {}) && h.bins[1] == [] && 16 <= nb < WORD && i == B.BinIndex(nb)
    requires |h.bins| == NBINS && 2 <= i < NBINS && k < |h.bins[i]| && h.bins[i][k] in h.cs && h.cs[h.bins[i][k]].size >= nb
    requires forall j :: k < j < |h.bins[i]| && h.bins[i][j] in h.cs ==> h.cs[h.bins[i][j]].size < nb
    ensures Best(h, h.bins[i][k], nb)
  {
    forall a | a in h.cs && IsFree(h.cs[a]) && h.cs[a].st.i < i
      ensures h.cs[a].size < nb
    {
      BinsBelow(h, o, nb, a);
    }
    BestIs(h, o, h.bins[i][k], i, k, nb);
  }

  lemma NoFitInBin(h: Heap, o: Outside, i: int, nb: int)
    requires Sound(h, o, {}) && h.bins[1] == [] && 16 <= nb < WORD && i == B.BinIndex(nb) && 2 <= i < NBINS
    requires forall j :: 0 <= j < |h.bins[i]| && h.bins[i][j] in h.cs ==> h.cs[h.bins[i][j]].size < nb
    ensures NoFitUpTo(h.cs, i, nb)
  {
    forall a | a in h.cs && IsFree(h.cs[a]) && h.cs[a].st.i <= i
      ensures h.cs[a].size < nb
    {
      if h.cs[a].st.i < i {
        BinsBelow(h, o, nb, a);
      } else {
        var m, j := Standing(h, a);
      }
    }
  }

  lemma HollowChunk(h: Heap, o: Outside, a: int, lo: int, hi: int)
    requires Sound(h, o, {}) && Hollow(h.bins, lo, hi) && a in h.cs && IsFree(h.cs[a])
    ensures h.cs[a].st.i <= lo || h.cs[a].st.i >= hi
    ensures 1 <= h.cs[a].st.i < NBINS
  {
    var m, j := Standing(h, a);
  }

  /** The last chunk of the first bin that is not empty. */
  lemma BestAbove(h: Heap, o: Outside, lo: int, i: int, nb: int)
    requires Sound(h, o, {}) && h.bins[1] == [] && 16 <= nb < WORD && lo == B.BinIndex(nb) && 2 <= lo < i < NBINS
    requires NoFitUpTo(h.cs, lo, nb) && Hollow(h.bins, lo, i) && h.bins[i] != []
    ensures var p := h.bins[i][|h.bins[i]| - 1]; p in h.cs && h.cs[p].size >= nb && Best(h, p, nb)
  {
    var p := h.bins[i][|h.bins[i]| - 1];
    BinEntry(h, o, i, |h.bins[i]| - 1);
    BinsAbove(h, o, nb, p);
    forall a | a in h.cs && IsFree(h.cs[a]) && h.cs[a].st.i < i
      ensures h.cs[a].size < nb
    {
      HollowChunk(h, o, a, lo, i);
    }
    BestIs(h, o, p, i, |h.bins[i]| - 1, nb);
  }

  lemma NoFitAtAll(h: Heap, o: Outside, lo: int, nb: int)
    requires Sound(h, o, {}) && NoFitUpTo(h.cs, lo, nb) && Hollow(h.bins, lo, NBINS)
    ensures NoFit(h.cs, nb)
  {
    forall a | a in h.cs && IsFree(h.cs[a])
      ensures h.cs[a].size < nb
    {
      HollowChunk(h, o, a, lo, NBINS);
    }
  }

  // ----- the bitmap

  /** 1U << e, which is 0 for e = 32. */
  function Bit(e: nat): nat { Pow2(e) % WORD }

  lemma BitValue(e: nat)
    requires e <= 32
    ensures Bit(e) == if e == 32 then 0 else Pow2(e)
    ensures Bit(e) == 0 <==> e == 32
  {
    Pow2Of32();
    if e < 32 {
      Pow2Add(e, 32 - e);
      MulAtLeast(Pow2(32 - e), Pow2(e));
      PowHalf(e);
    }
  }

  lemma PowHalf(e: nat)
    requires e < 32
    ensures Pow2(e) < WORD
  {
    Pow2Of32();
    B.NoBitAbove(0, 0, e);
    B.SetBitFits(0, e, 32);
  }

  lemma HollowWhole(bins: seq<seq<int>>, lo: int, hi: int)
    requires Hollow(bins, lo, hi) && hi >= NBINS
    ensures Hollow(bins, lo, NBINS)
  {
  }

  /** `bit > map || bit == 0`: the rest of the block is empty. */
  lemma RestOfBlock(bins: seq<seq<int>>, binmap: seq<nat>, block: int, e: nat, lo: int)
    requires Mapped(bins, binmap) && 0 <= block < 4 && e <= 32 && (Bit(e) > binmap[block] || Bit(e) == 0)
    requires Hollow(bins, lo, 32 * block + e) && lo >= 1
    ensures Hollow(bins, lo, 32 * (block + 1))
  {
    BitValue(e);
    forall m | 32 * block + e <= m < 32 * (block + 1) && 1 <= m < NBINS && lo < m
      ensures bins[m] == []
    {
      B.NoBitAbove(binmap[block], e, m % 32);
      assert !Marked(binmap, m);
    }
  }

  /** `while ((bit & map) == 0)` ends: there is a set bit at or above e. */
  lemma BitToFind(bins: seq<seq<int>>, binmap: seq<nat>, block: int, e: nat) returns (j: nat)
    requires Mapped(bins, binmap) && 0 <= block < 4 && e <= 32 && !(Bit(e) > binmap[block] || Bit(e) == 0)
    ensures e <= j < 32 && B.TestBit(binmap[block], j) && block < 3
  {
    BitValue(e);
    Pow2Of32();
    j := B.SomeBitAbove(binmap[block], e, 32);
    B.NoBitAbove(0, 0, j);
  }

  lemma NotMarked(bins: seq<seq<int>>, binmap: seq<nat>, block: int, e: nat)
    requires Mapped(bins, binmap) && 0 <= block < 3 && e < 32 && !B.TestBit(binmap[block], e) && 32 * block + e >= 2
    ensures bins[32 * block + e] == []
  {
    assert !Marked(binmap, 32 * block + e);
  }

  lemma SoundUnmarked(h: Heap, o: Outside, block: int, e: nat)
    requires Sound(h, o, {}) && 0 <= block < 3 && e < 32 && 2 <= 32 * block + e && h.bins[32 * block + e] == []
    ensures |o.binmap| == 4 && Sound(h, o.(binmap := o.binmap[block := B.ClearBit(o.binmap[block], e)]), {})
  {
    UnmarkBin(h.bins, o.binmap, 32 * block + e);
  }

  lemma HollowStart(h: Heap, o: Outside, lo: int)
    requires Sound(h, o, {})
    ensures Hollow(h.bins, lo, lo + 1)
  {
  }

  lemma HollowNext(bins: seq<seq<int>>, lo: int, i: int)
    requires Hollow(bins, lo, i) && 1 <= i < NBINS && bins[i] == []
    ensures Hollow(bins, lo, i + 1)
  {
  }

  lemma RestOfBlockSound(h: Heap, o: Outside, block: int, e: nat, lo: int)
    requires Sound(h, o, {}) && 0 <= block < 4 && |o.binmap| == 4 && e <= 32 && (Bit(e) > o.binmap[block] || Bit(e) == 0)
    requires Hollow(h.bins, lo, 32 * block + e) && lo >= 1
    ensures Hollow(h.bins, lo, 32 * (block + 1))
  {
    RestOfBlock(h.bins, o.binmap, block, e, lo);
  }

  lemma BitOne()
    ensures Bit(0) == 1
  {
  }

  // ----- memory from the system

  /** ((end + pagemask) & ~pagemask) - end */
  function Correction(end: int): int { (end + 4095) / 4096 * 4096 - end }

  lemma PageUp(end: int)
    ensures 0 <= Correction(end) < 4096 && end + Correction(end) == 4096 * ((end + 4095) / 4096)
  {
  }

  /** The bytes skipped so that the first chunk begins 8-aligned. */
  function Front(brk: int): int {
    if (brk + 8) % 8 > 0 then 8 - (brk + 8) % 8 else 0
  }

  /** The most whole pages between two addresses. */
  function Pages(start: int, end: int): int { (end - start) / 4096 * 4096 }

  /** The second `sbrk`, after the first has granted size bytes, stays below the end. */
  predicate EndGranted(start: int, size: int, end: int) {
    start + size + Front(start) + Correction(start + size + Front(start)) <= end
  }

  /**
   A heap that begins on a word, or has no page at all, or whose end grants the second `sbrk` whatever
   the first asked for; the largest first request decides.
   */
  predicate WellPlaced(start: int, end: int) {
    start % 4 == 0 || end - start < 4096 || EndGranted(start, Pages(start, end), end)
  }

  lemma FrontIs(brk: int) returns (a: int)
    ensures 0 <= Front(brk) < 8 && brk + Front(brk) == 8 * a
  {
    var q := (brk + 8) / 8;
    assert brk + 8 == 8 * q + (brk + 8) % 8;
    a := if Front(brk) > 0 then q else q - 1;
  }

  /** Where the first chunk begins; without the second `sbrk` its size leaves room for the flags just when the heap begins on a word. */
  lemma FirstAlign(brk: int, size: int)
    requires size % 4096 == 0
    ensures var front := Front(brk);
            && 0 <= front < 8 && (brk + front) % 8 == 0 && (brk % 4 == 0 <==> (size - front) % 4 == 0)
            && 0 <= Correction(brk + size + front) < 4096
            && (size + Correction(brk + size + front)) % 4 == 0
  {
    var a := FrontIs(brk);
    var s := size / 4096;
    hide Front, Correction;
    ModUnique(brk + Front(brk), a, 8, 0);
    FrontOfWord(brk, a, s);
    PageUp(8 * a + size);
    var k := (8 * a + size + 4095) / 4096;
    ModUnique(size + Correction(8 * a + size), 1024 * k - 2 * a, 4, 0);
  }

  /** In such a heap the second `sbrk` is granted whenever the first chunk's size depends on it. */
  lemma SecondGranted(brk: int, size: int, end: int)
    requires size % 4096 == 0 && 4096 <= size && brk + size <= end && WellPlaced(brk, end) && brk % 4 != 0
    ensures EndGranted(brk, size, end)
  {
    hide Front, Correction;
    CorrectionByPage(brk + Front(brk), size / 4096);
    CorrectionByPage(brk + Front(brk), (end - brk) / 4096);
    MorePages(brk, size, end);
  }

  lemma FrontOfWord(brk: int, a: int, s: int)
    ensures brk % 4 == 0 <==> (4096 * s - (8 * a - brk)) % 4 == 0
  {
    var b := brk / 4;
    ModUnique(4096 * s - (8 * a - brk), 1024 * s - 2 * a + b, 4, brk % 4);
  }

  lemma CorrectionByPage(x: int, s: int)
    ensures Correction(x + 4096 * s) == Correction(x)
  {
    ModAddMultiple(x + 4095, s, 4096);
  }

  lemma MorePages(start: int, size: int, end: int)
    requires size % 4096 == 0 && start + size <= end
    ensures size <= Pages(start, end) <= end - start
  {
    var s, m := size / 4096, (end - start) / 4096;
    assert size == 4096 * s;
    assert s <= m;
  }

  /** Elsewhere a first request for all the pages there are is granted and the second is not: the size of top then has bits where the flags are. */
  lemma RaggedTop(start: int, end: int)
    requires !WellPlaced(start, end)
    ensures var size := Pages(start, end);
            size % 4096 == 0 && size >= 4096 && start + size <= end && !EndGranted(start, size, end) && (size - Front(start)) % 4 != 0
  {
    var m := (end - start) / 4096;
    ModUnique(4096 * m, m, 4096, 0);
    FirstAlign(start, 4096 * m);
  }

  /** A heap that ends on a page is one of the good ones. */
  lemma PageEnd(start: int, end: int)
    requires end % 4096 == 0
    ensures WellPlaced(start, end)
  {
    var size := Pages(start, end);
    ModUnique(size, (end - start) / 4096, 4096, 0);
    FirstAlign(start, size);
    UpByPages(start + Front(start), size);
    hide Correction, Front, Pages;
    if end - start >= 4096 {
      MorePages(start, size, end);
      PagesApart(start + size + Front(start), start + size, end);
    }
  }

  lemma UpByPages(x: int, size: int)
    requires x % 8 == 0 && size % 4096 == 0
    ensures (x + size) % 8 == 0
  {
    ModAddMultiple(x, 512 * (size / 4096), 8);
  }

  /** The first multiple of 8 from before on is not past a page boundary that before does not pass. */
  lemma PagesApart(up: int, before: int, end: int)
    requires up % 8 == 0 && before <= up < before + 8 && before <= end && end % 4096 == 0
    ensures up + Correction(up) <= end
  {
    var e, a := end / 4096, up / 8;
    assert end == 4096 * e && up == 8 * a;
    assert a <= 512 * e;
    PageUp(up);
    var k := (up + 4095) / 4096;
    assert 4096 * k < up + 4096;
  }

  lemma FirstMove(h: Heap, o: Outside, a: int, size: int) returns (h': Heap)
    requires Sound(h, o, {}) && h.cs == map[] && a % 8 == 0 && o.start <= a < o.start + 8 && size >= MINSIZE && size % 4 == 0 && a + size < ADDRESSES
    ensures Sound(h', o.(brk := a + size), {}) && Same(h, h') && NothingFreed(h'.cs)
    ensures h'.mem == h.mem[a + 4 := OrInuse(size)] && h'.bins == h.bins && h'.fast == h.fast && h'.base == a && h'.top == a
    ensures a in h'.cs && h'.cs[a].size == size && forall b :: b in h'.cs ==> b == a
  {
    SoundFirst(h, o, a, size);
    HeadWord(size, size);
    h' := FirstTop(h, a, size);
    hide Sound, Same;
  }

  lemma PagesAreWords(size: int)
    requires size % 4096 == 0
    ensures size % 4 == 0
  {
    ModUnique(size, 1024 * (size / 4096), 4, 0);
  }

  lemma GrowMove(h: Heap, o: Outside, extra: int) returns (h': Heap)
    requires Sound(h, o, {}) && h.top in h.cs && extra >= 0 && extra % 4 == 0 && o.brk + extra < ADDRESSES
    ensures Sound(h', o.(brk := o.brk + extra), {}) && Same(h, h') && (NothingFreed(h.cs) ==> NothingFreed(h'.cs))
    ensures h'.mem == h.mem[h.top + 4 := OrInuse(h.cs[h.top].size + extra)]
    ensures h'.bins == h.bins && h'.fast == h.fast && h'.base == h.base && h'.top == h.top && h.top in h'.cs
    ensures h'.cs == h.cs[h.top := h.cs[h.top].(size := h.cs[h.top].size + extra)]
  {
    SoundGrow(h, o, extra);
    EvenHead(h, h.top);
    h' := GrownTop(h, extra);
  }

  /** chunksize(av->top) */
  lemma TopSize(h: Heap, o: Outside)
    requires Sound(h, o, {})
    ensures var w := Rd(h.mem, h.top + 4);
            if h.cs == map[] then w == 0 && h.top == UNSORTED && o.brk == o.start
            else h.top in h.cs && h.cs[h.top].st == Top && w - w % 4 == h.cs[h.top].size && h.top + h.cs[h.top].size == o.brk && h.top > 0
                 && h.cs[h.top].size >= MINSIZE && h.cs[h.top].size < ADDRESSES
    ensures HEAP_FLOOR <= o.start
  {
    if h.cs != map[] {
      HeadFacts(h, h.top);
      SizeBound(h, o, {}, h.top);
    }
  }

  lemma PickedTop(h: Heap, nb: int, lastRemainder: int)
    requires h.top in h.cs && h.cs[h.top].st == Top && NoFit(h.cs, nb) && !FastFit(h, nb)
    ensures Picked(h, h.top, nb, lastRemainder)
  {
  }

  lemma NoFitGrown(h: Heap, h': Heap, nb: int)
    requires NoFit(h.cs, nb) && h.top in h.cs && h.cs[h.top].st == Top
    requires h.top in h'.cs && h'.cs == h.cs[h.top := h.cs[h.top].(size := h'.cs[h.top].size)]
    ensures NoFit(h'.cs, nb)
  {
  }

  /** The size asked from the system, as a signed 32-bit number. */
  function AskFor(need: int): int {
    var w := (need % WORD + 4095) % WORD;
    var size := w - w % 4096;
    if size >= 0x8000_0000 then size - WORD else size
  }

  /** The pages that hold what is needed; or nothing positive, when that is more than any heap. */
  lemma AskForEnough(need: int)
    requires 0 < need < WORD
    ensures AskFor(need) > 0 ==> need <= AskFor(need) < need + 4096 && AskFor(need) % 4096 == 0 && AskFor(need) >= 4096
    ensures AskFor(need) <= 0 ==> need + 4096 > 0x8000_0000
  {
    var w := (need + 4095) % WORD;
    ModUnique(w - w % 4096, w / 4096, 4096, 0);
  }

  lemma NoFitTop(cs: Chunks, top: int, nb: int)
    requires NothingFreed(cs)
    ensures NoFit(cs, nb)
  {
  }

  lemma PickedRest(h: Heap, nb: int, lastRemainder: int)
    requires RestServes(h, nb, lastRemainder) && !FastFit(h, nb)
    ensures Picked(h, lastRemainder, nb, lastRemainder)
  {
  }

  lemma PickedExact(h: Heap, p: int, nb: int, lastRemainder: int)
    requires Best(h, p, nb) && h.cs[p].size == nb && !FastFit(h, nb) && (B.InSmallBinRange(nb) ==> NextOut(h, p))
    ensures Picked(h, p, nb, lastRemainder)
  {
  }

  /** With no unsorted chunk the last remainder does not come up. */
  lemma PickedSorted(h: Heap, p: int, nb: int, lastRemainder: int)
    requires Best(h, p, nb) && |h.bins| == NBINS && h.bins[1] == [] && !FastFit(h, nb) && NextOut(h, p)
    ensures Picked(h, p, nb, lastRemainder)
  {
  }

  lemma ResortedGrown(h: Heap, h': Heap)
    requires h.top in h.cs && h.cs[h.top].st == Top
    requires h.top in h'.cs && h'.cs == h.cs[h.top := h.cs[h.top].(size := h'.cs[h.top].size)]
    ensures Resorted(h, h')
  {
  }

  lemma ResortedFirst(h: Heap, h': Heap)
    requires h.cs == map[] && NothingFreed(h'.cs)
    ensures Resorted(h, h')
  {
  }

  /** An unsorted chunk in the bin of its size. */
  lemma ResortedOne(h: Heap, h': Heap, p: int, i: int)
    requires p in h.cs && h.cs[p].st == Binned(1) && i >= 2 && h'.cs == h.cs[p := h.cs[p].(st := Binned(i))]
    ensures Resorted(h, h')
  {
  }

  lemma Padded(req: nat)
    requires !B.OutOfRange(req)
    ensures var nb := B.Request2Size(req); nb % 8 == 0 && MINSIZE <= nb && nb + MINSIZE < WORD
  {
    B.Request2SizeLeast(req);
  }

  /** nb - MALLOC_ALIGN_MASK is padded to nb again. */
  lemma RequestAgain(nb: int)
    requires nb % 8 == 0 && MINSIZE <= nb && B.InSmallBinRange(nb)
    ensures !B.OutOfRange(nb - 7) && B.Request2Size(nb - 7) == nb
  {
  }

  lemma SmallBinIs(nb: int)
    requires MINSIZE <= nb < WORD
    ensures B.InSmallBinRange(nb) ==> B.BinIndex(nb) == nb / 8
  {
  }

  lemma MapLength(h: Heap, o: Outside)
    requires Sound(h, o, {})
    ensures |o.binmap| == 4 && |h.bins| == NBINS
  {
  }

  /** The first chunk of a fastbin, in use again. */
  lemma FastMove(h: Heap, o: Outside, i: int, nb: int, lastRemainder: int) returns (h': Heap)
    requires Sound(h, o, {}) && 0 <= i < NFASTBINS && |h.fast| == NFASTBINS && h.fast[i] != [] && nb == 8 * (i + 2)
    ensures var p := h.fast[i][0];
            p > 0 && Rd(h.mem, p + 8) == FirstFast(h.fast[i][1..]) && Gives(h, h', p + 8, nb) && CutFrom(h, h', p)
    ensures Picked(h, h.fast[i][0], nb, lastRemainder) && h.fast[i][0] in h.cs && !IsFree(h.cs[h.fast[i][0]]) && h.fast[i][0] in h'.cs
    ensures Sound(h', o, {}) && h'.mem == h.mem && h'.bins == h.bins && h'.base == h.base && h'.top == h.top
    ensures h'.fast == h.fast[i := h.fast[i][1..]]
  {
    SoundFastPop(h, o, {}, i);
    h' := FastPopped(h, i);
  }
}
