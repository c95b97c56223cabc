/** Every move, once more, for all that the allocator keeps true: heap, order of the bins, arena. */
module MallocSound {
  import opened Arith
  import opened MallocHeap
  import opened MallocLists
  import opened MallocSteps
  import opened MallocMoves
  import opened MallocOrder

  /** unsorted_chunks(av), which is bin_at(1) and the first `top` */
  const UNSORTED: int := BINS

  /** No chunk is in limbo, except those of s. */
  ghost predicate LimboIn(cs: Chunks, s: set<int>) {
    forall a :: a in cs && cs[a].st.Limbo? ==> a in s
  }

  ghost function Live(h: Heap): set<int> {
    set a | a in h.cs && h.cs[a].st == InUse
  }

  /** Fastbins hold the sizes up to 72, which is 8 of the 10 lists. */
  ghost predicate FastSized(h: Heap) {
    |h.fast| == NFASTBINS && forall i :: 8 <= i < NFASTBINS ==> h.fast[i] == []
  }

  /** The arena runs from the first chunk to where `sbrk` stands. */
  ghost predicate ArenaOk(h: Heap, start: int, brk: int) {
    && HEAP_FLOOR <= start <= brk < ADDRESSES
    && if h.cs == map[] then h.top == UNSORTED && Rd(h.mem, UNSORTED + 4) == 0 && brk == start
       else h.top in h.cs && start <= h.base < start + 8 && h.top + h.cs[h.top].size == brk
  }

  /** What lies outside the heap: the bitmap, and the arena `sbrk` has granted. */
  datatype Outside = Outside(binmap: seq<nat>, start: int, brk: int)

  ghost predicate Sound(h: Heap, o: Outside, s: set<int>) {
    Inv(h) && Ordered(h, o.binmap) && FastSized(h) && LimboIn(h.cs, s) && ArenaOk(h, o.start, o.brk)
  }

  /** Live blocks are kept, and none is added or lost. */
  ghost predicate Same(h: Heap, h': Heap) {
    SameLive(h, h') && Live(h') == Live(h)
  }

  lemma SameRefl(h: Heap)
    ensures Same(h, h)
  {
  }

  lemma SameTrans(a: Heap, b: Heap, c: Heap)
    requires SameLive(a, b) && SameLive(b, c)
    ensures SameLive(a, c)
  {
    forall x | x in a.cs && a.cs[x].st == InUse
      ensures LiveKept(a, c, x)
    {
      assert LiveKept(a, b, x) && LiveKept(b, c, x);
    }
  }

  lemma SoundDetach(h: Heap, o: Outside, s: set<int>, p: int, i: int, k: nat)
    requires Sound(h, o, s) && Stands(h, p, i, k)
    ensures p in h.cs && h.cs[p].st == Binned(i)
    ensures var h' := Detached(h, p, i, k); Sound(h', o, s + {p}) && Same(h, h')
  {
    Detach(h, p, i, k);
    OrderDetach(h, p, i, k, o.binmap);
    Neighbours(h, p, i, k);
  }

  lemma MergedFacts(h: Heap, p: int)
    requires p in h.cs && p + h.cs[p].size in h.cs && h.cs[p].size > 0 && h.cs[p + h.cs[p].size].size > 0
    ensures var h', q := Merged(h, p), p + h.cs[p].size;
            && h'.mem == h.mem && h'.bins == h.bins && h'.fast == h.fast && h'.base == h.base && h'.top == h.top
            && (forall a :: a in h'.cs <==> a in h.cs && a != q)
            && (forall a :: a in h.cs && a != q && a != p ==> h'.cs[a].st == h.cs[a].st && h'.cs[a].size == h.cs[a].size)
            && h'.cs[p] == Chunk(h.cs[p].size + h.cs[q].size, h.cs[p].prev, h.cs[q].st)
  {
  }

  lemma PrevOf(h: Heap, p: int)
    requires Inv(h) && p in h.cs
    ensures p > 0 && (h.cs[p].prev in h.cs || h.cs[p].prev == NOWHERE)
    ensures h.cs[p].prev in h.cs ==> h.cs[p].prev < p && h.cs[p].prev != h.top && h.cs[p].prev + h.cs[h.cs[p].prev].size == p
  {
    assert ChunkOk(h.cs, h.base, h.top, p);
    if h.cs[p].prev in h.cs {
      assert ChunkOk(h.cs, h.base, h.top, h.cs[p].prev);
    }
  }

  lemma SoundMerge(h: Heap, o: Outside, s: set<int>, p: int)
    requires Sound(h, o, s) && p in h.cs && p + h.cs[p].size in h.cs && p != h.top
    requires h.cs[p].st.Limbo? && h.cs[p + h.cs[p].size].st.Limbo?
    ensures var h' := Merged(h, p);
            Sound(h', o, s - {p + h.cs[p].size} + {p}) && Same(h, h') && p in h'.cs && h'.cs[p].prev == h.cs[p].prev
  {
    var q := p + h.cs[p].size;
    assert h.cs[p].size > 0 && h.cs[q].size > 0 && q != h.top by {
      assert ChunkOk(h.cs, h.base, h.top, p) && ChunkOk(h.cs, h.base, h.top, q);
    }
    Merge(h, p);
    MergedFacts(h, p);
    hide Merged, Inv, Ordered, ChunkOk, SameLive;
    var h' := Merged(h, p);
    OrderFrame(h, h', o.binmap);
    assert FastSized(h') && LimboIn(h'.cs, s - {q} + {p});
    assert ArenaOk(h', o.start, o.brk) by {
      hide FastSized, LimboIn;
    }
    forall a ensures a in Live(h) <==> a in Live(h') {
    }
  }

  lemma SoundShown(h: Heap, o: Outside, s: set<int>, p: int, b: bool)
    requires Sound(h, o, s) && p in h.cs && h.cs[p].st.Limbo? && p != h.top && p + h.cs[p].size !in s
    ensures p + h.cs[p].size in h.cs
    ensures var h' := ShownAs(h, p, b); Sound(h', o, s) && Same(h, h')
  {
    var n := p + h.cs[p].size;
    assert ChunkOk(h.cs, h.base, h.top, p) && ChunkOk(h.cs, h.base, h.top, n);
    SetShown(h, p, b);
    OrderFrame(h, ShownAs(h, p, b), o.binmap);
    hide Inv, Ordered, ChunkOk;
  }

  lemma SoundSettle(h: Heap, o: Outside, s: set<int>, p: int)
    requires Sound(h, o, s) && p in h.cs && p != h.top && h.cs[p].st == Limbo(true)
    requires Rd(h.mem, p + 4) == h.cs[p].size + (if PrevShown(h.cs, p) then 1 else 0)
    ensures var h' := Restated(h, p, InUse); Sound(h', o, s - {p}) && SameLive(h, h') && Live(h') == Live(h) + {p}
  {
    Settle(h, p);
    OrderFrame(h, Restated(h, p, InUse), o.binmap);
    hide Inv, Ordered;
  }

  lemma SoundUnsettle(h: Heap, o: Outside, s: set<int>, p: int)
    requires Sound(h, o, s) && p in h.cs && p != h.top && h.cs[p].st == InUse
    ensures var h' := Restated(h, p, Limbo(true));
            && Sound(h', o, s + {p}) && Live(h') == Live(h) - {p}
            && forall a :: a in h.cs && h.cs[a].st == InUse && a != p ==> LiveKept(h, h', a)
  {
    Unsettle(h, p);
    OrderFrame(h, Restated(h, p, Limbo(true)), o.binmap);
    hide Inv, Ordered;
  }

  lemma SoundPoke(h: Heap, o: Outside, s: set<int>, p: int, w: int, v: int)
    requires Sound(h, o, s) && p in h.cs && h.cs[p].st.Limbo? && Loose(h, p, w)
    ensures var h' := Poked(h, w, v); Sound(h', o, s) && Same(h, h')
  {
    assert ChunkOk(h.cs, h.base, h.top, p);
    Poke(h, p, w, v);
    OrderFrame(h, Poked(h, w, v), o.binmap);
    hide Inv, Ordered;
  }

  lemma SoundAttach(h: Heap, o: Outside, s: set<int>, p: int, i: int, k: nat)
    requires Sound(h, o, s) && Ready(h, p) && Fits(h, p, i, k)
    requires i >= 2 ==> |o.binmap| == 4 && Marked(o.binmap, i)
    ensures var h' := Attached(h, p, i, k); Sound(h', o, s - {p}) && Same(h, h')
  {
    Attach(h, p, i, k);
    OrderAttach(h, p, i, k, o.binmap);
    assert ChunkOk(h.cs, h.base, h.top, p);
    hide Inv, Ordered;
  }

  /** A chunk in limbo whose neighbours are not free: nothing is left to join. */
  ghost predicate Loner(h: Heap, p: int)
    requires p in h.cs
  {
    && p + h.cs[p].size != h.top
    && (p + h.cs[p].size in h.cs ==> !IsFree(h.cs[p + h.cs[p].size]))
    && (h.cs[p].prev in h.cs ==> !IsFree(h.cs[h.cs[p].prev]) && Shown(h.cs[h.cs[p].prev]))
  }

  /** p at the front of the unsorted list, with its header and footer. */
  function Unsorted(h: Heap, p: int): Heap
    requires p in h.cs && |h.bins| == NBINS
  {
    var size := h.cs[p].size;
    Attached(Poked(Poked(h, p + 4, size + 1), p + size, size), p, 1, 0)
  }

  lemma UnsortedFacts(h: Heap, p: int)
    requires p in h.cs && |h.bins| == NBINS
    ensures var h' := Unsorted(h, p);
            && h'.fast == h.fast && h'.base == h.base && h'.top == h.top
            && |h'.bins| == NBINS && h'.bins[1] == [p] + h.bins[1] && p in h'.cs && h'.cs[p].size == h.cs[p].size
  {
  }

  lemma SoundUnsorted(h: Heap, o: Outside, s: set<int>, p: int)
    requires Sound(h, o, s) && p in h.cs && p != h.top && h.cs[p].st == Limbo(false) && Loner(h, p)
    ensures |h.bins| == NBINS
    ensures var h' := Unsorted(h, p); Sound(h', o, s - {p}) && Same(h, h')
  {
    var size := h.cs[p].size;
    assert ChunkOk(h.cs, h.base, h.top, p);
    SoundPoke(h, o, s, p, p + 4, size + 1);
    var h1 := Poked(h, p + 4, size + 1);
    SoundPoke(h1, o, s, p, p + size, size);
    var h2 := Poked(h1, p + size, size);
    SoundAttach(h2, o, s, p, 1, 0);
    hide Inv, Ordered, ChunkOk, Sound;
  }

  /** The order in which the C code makes those writes does not matter. */
  lemma UnsortedWrites(h: Heap, p: int, fwd: int)
    requires Inv(h) && p in h.cs && p != h.top
    requires fwd == Rd(h.mem, UNSORTED + 8)
    ensures |h.bins| == NBINS
    ensures var size := h.cs[p].size;
            h.mem[p + 12 := UNSORTED][p + 8 := fwd][UNSORTED + 8 := p][fwd + 12 := p][p + 4 := size + 1][p + size := size]
            == Unsorted(h, p).mem
  {
    var size := h.cs[p].size;
    assert ChunkOk(h.cs, h.base, h.top, p) && BinOk(h.mem, h.cs, h.bins, 1);
    PlaceNodes(h, 1, 0);
    LinkWordsApart(h, 1, fwd, p);
    assert fwd == AtOrEnd(BinAt(1), h.bins[1], 0);
    assert h.cs[p].st != Top;
    hide Inv, ChunkOk, BinOk;
  }

  lemma SoundMergeTop(h: Heap, o: Outside, s: set<int>, p: int)
    requires Sound(h, o, s) && p in h.cs && h.top in h.cs && p + h.cs[p].size == h.top
    requires h.cs[p].st.Limbo?
    requires h.cs[p].prev in h.cs ==> !IsFree(h.cs[h.cs[p].prev]) && Shown(h.cs[h.cs[p].prev])
    ensures var h' := MergedTop(h, p); Sound(h', o, s - {p}) && Same(h, h')
  {
    var h' := MergedTop(h, p);
    assert ChunkOk(h.cs, h.base, h.top, p) && ChunkOk(h.cs, h.base, h.top, h.top);
    MergeTop(h, p);
    OrderFrame(h, h', o.binmap);
    hide Inv, Ordered, ChunkOk;
  }

  // ----- fastbins

  lemma SoundFastPush(h: Heap, o: Outside, s: set<int>, p: int)
    requires Sound(h, o, s) && p in h.cs && h.cs[p].st == InUse && p != h.top
    requires h.cs[p].size % 8 == 0 && 16 <= h.cs[p].size <= 72
    ensures var i := h.cs[p].size / 8 - 2; |h.fast| == NFASTBINS && 0 <= i < 8
    ensures var h' := FastPushed(h, p, h.cs[p].size / 8 - 2);
            && Sound(h', o, s) && Live(h') == Live(h) - {p}
            && forall a :: a in h.cs && h.cs[a].st == InUse && a != p ==> LiveKept(h, h', a)
  {
    var i := h.cs[p].size / 8 - 2;
    assert ChunkOk(h.cs, h.base, h.top, p);
    FastPush(h, p, i);
    OrderFrame(h, FastPushed(h, p, i), o.binmap);
    hide Inv, Ordered, LiveKept, ChunkOk;
  }

  lemma SoundFastPop(h: Heap, o: Outside, s: set<int>, i: int)
    requires Sound(h, o, s) && 0 <= i < NFASTBINS && h.fast[i] != []
    ensures var p := h.fast[i][0];
            p in h.cs && h.cs[p].st == Fast(i) && h.cs[p].size == 8 * (i + 2) && p % 8 == 0 && p > 0 && p != h.top
            && Rd(h.mem, p + 8) == if |h.fast[i]| > 1 then h.fast[i][1] else 0
    ensures var p, h' := h.fast[i][0], FastPopped(h, i);
            Sound(h', o, s) && SameLive(h, h') && Live(h') == Live(h) + {p} && p !in Live(h)
  {
    FastPop(h, i);
    var p := h.fast[i][0];
    assert ChunkOk(h.cs, h.base, h.top, p);
    OrderFrame(h, FastPopped(h, i), o.binmap);
    hide Inv, Ordered, ChunkOk;
  }

  /** The first chunk of a fastbin, on its way out of it. */
  function FastTaken(h: Heap, i: int): Heap
    requires 0 <= i < |h.fast| && h.fast[i] != [] && h.fast[i][0] in h.cs
  {
    Restated(FastPopped(h, i), h.fast[i][0], Limbo(true))
  }

  lemma SoundFastTake(h: Heap, o: Outside, s: set<int>, i: int)
    requires Sound(h, o, s) && 0 <= i < NFASTBINS && h.fast[i] != []
    ensures var p := h.fast[i][0];
            p in h.cs && p != h.top && p > 0 && Rd(h.mem, p + 8) == if |h.fast[i]| > 1 then h.fast[i][1] else 0
    ensures var p, h' := h.fast[i][0], FastTaken(h, i);
            Sound(h', o, s + {p}) && Same(h, h') && h'.cs[p].st == Limbo(true)
  {
    SoundFastPop(h, o, s, i);
    var p := h.fast[i][0];
    var h1 := FastPopped(h, i);
    SoundUnsettle(h1, o, s, p);
    forall a | a in h.cs && h.cs[a].st == InUse
      ensures LiveKept(h, FastTaken(h, i), a)
    {
      assert LiveKept(h, h1, a) && LiveKept(h1, FastTaken(h, i), a);
    }
    hide Sound, LiveKept;
  }

  // ----- cutting a block off

  /** nb bytes off the low end of p as a live block; the rest is left in limbo. */
  function BlockCut(h: Heap, p: int, nb: int): Heap
    requires p in h.cs
  {
    Restated(Poked(Split(h, p, nb), p + 4, nb + 1), p, InUse)
  }

  /** The same, with the rest put onto the unsorted list. */
  function CutOff(h: Heap, p: int, nb: int): Heap
    requires p in h.cs && |h.bins| == NBINS
  {
    Unsorted(BlockCut(h, p, nb), p + nb)
  }

  lemma SplitFacts(h: Heap, p: int, nb: int)
    requires p in h.cs && 0 < nb < h.cs[p].size
    ensures var h', c := Split(h, p, nb), h.cs[p];
            && h'.mem == h.mem && h'.bins == h.bins && h'.fast == h.fast && h'.base == h.base && h'.top == h.top
            && (forall a :: a in h'.cs <==> a in h.cs || a == p + nb)
            && (forall a :: a in h.cs && a != p && a != p + nb ==> h'.cs[a].st == h.cs[a].st && h'.cs[a].size == h.cs[a].size)
            && h'.cs[p] == Chunk(nb, c.prev, Limbo(true)) && h'.cs[p + nb] == Chunk(c.size - nb, p, c.st)
  {
  }

  lemma SoundSplit(h: Heap, o: Outside, p: int, nb: int)
    requires Sound(h, o, {p}) && Cuts(h, p, nb) && p != h.top && h.cs[p].st.Limbo?
    ensures var h' := Split(h, p, nb); Sound(h', o, {p, p + nb}) && Same(h, h') && p + nb !in h.cs
  {
    Carve(h, p, nb);
    SplitFacts(h, p, nb);
    var h' := Split(h, p, nb);
    hide Split, Inv, Ordered, SameLive;
    OrderFrame(h, h', o.binmap);
    SplitSmall(h, h', o, p, nb);
    hide FastSized, LimboIn, ArenaOk, Live;
  }

  lemma SplitSmall(h: Heap, h': Heap, o: Outside, p: int, nb: int)
    requires FastSized(h) && LimboIn(h.cs, {p}) && ArenaOk(h, o.start, o.brk) && p in h.cs && p != h.top && p + nb != h.top && h.cs[p].st.Limbo?
    requires h'.mem == h.mem && h'.bins == h.bins && h'.fast == h.fast && h'.base == h.base && h'.top == h.top && p + nb !in h.cs
    requires forall a :: a in h'.cs <==> a in h.cs || a == p + nb
    requires forall a :: a in h.cs && a != p && a != p + nb ==> h'.cs[a].st == h.cs[a].st && h'.cs[a].size == h.cs[a].size
    requires h'.cs[p].st == Limbo(true) && h'.cs[p + nb].st == h.cs[p].st
    ensures FastSized(h') && LimboIn(h'.cs, {p, p + nb}) && ArenaOk(h', o.start, o.brk) && Live(h') == Live(h)
  {
    forall a ensures a in Live(h) <==> a in Live(h') {
    }
  }

  /** The rest has the neighbours the whole chunk had. */
  lemma SplitLoner(h: Heap, p: int, nb: int)
    requires Inv(h) && Cuts(h, p, nb) && p != h.top && h.cs[p].st == Limbo(false) && Loner(h, p) && p + nb !in h.cs
    ensures PrevShown(Split(h, p, nb).cs, p) && p + nb != h.top
    ensures Loner(BlockCut(h, p, nb), p + nb)
  {
    PrevOf(h, p);
    SplitFacts(h, p, nb);
    assert ChunkOk(h.cs, h.base, h.top, p);
    hide Split, ChunkOk, Inv;
  }

  /** The block: its header, and its life. */
  lemma SoundBlock(h: Heap, o: Outside, p: int, q: int)
    requires Sound(h, o, {p, q}) && p in h.cs && p != h.top && h.cs[p].st == Limbo(true) && PrevShown(h.cs, p) && p != q
    ensures var h' := Restated(Poked(h, p + 4, h.cs[p].size + 1), p, InUse);
            Sound(h', o, {q}) && SameLive(h, h') && Live(h') == Live(h) + {p}
  {
    SoundPoke(h, o, {p, q}, p, p + 4, h.cs[p].size + 1);
    var h2 := Poked(h, p + 4, h.cs[p].size + 1);
    SoundSettle(h2, o, {p, q}, p);
    SameTrans(h, h2, Restated(h2, p, InUse));
    assert {p, q} - {p} == {q};
    hide Sound, SameLive, Live;
  }

  lemma SoundBlockCut(h: Heap, o: Outside, p: int, nb: int)
    requires Sound(h, o, {p}) && Cuts(h, p, nb) && p != h.top && h.cs[p].st == Limbo(false) && Loner(h, p)
    ensures var h', q := BlockCut(h, p, nb), p + nb;
            && Sound(h', o, {q}) && SameLive(h, h') && Live(h') == Live(h) + {p}
            && q in h'.cs && q != h'.top && h'.cs[q].st == Limbo(false) && h'.cs[q].size == h.cs[p].size - nb && Loner(h', q)
            && p in h'.cs && h'.cs[p].size == nb && h'.fast == h.fast && h'.top == h.top && h'.bins == h.bins && h'.base == h.base
  {
    var h1 := Split(h, p, nb);
    SoundSplit(h, o, p, nb);
    SplitLoner(h, p, nb);
    hide Sound, SameLive, Live, Loner;
    SplitFacts(h, p, nb);
    hide Split, Cuts;
    SoundBlock(h1, o, p, p + nb);
    SameTrans(h, h1, BlockCut(h, p, nb));
  }

  lemma SoundCutOff(h: Heap, o: Outside, p: int, nb: int)
    requires Sound(h, o, {p}) && Cuts(h, p, nb) && p != h.top && h.cs[p].st == Limbo(false) && Loner(h, p)
    ensures |h.bins| == NBINS
    ensures var h' := CutOff(h, p, nb);
            && Sound(h', o, {}) && SameLive(h, h') && Live(h') == Live(h) + {p}
            && p in h'.cs && h'.cs[p].size == nb && h'.fast == h.fast && h'.top == h.top
  {
    var q := p + nb;
    SoundBlockCut(h, o, p, nb);
    hide BlockCut, Sound, SameLive, Live, Loner, Cuts;
    SoundUnsorted(BlockCut(h, p, nb), o, {q}, q);
    SameTrans(h, BlockCut(h, p, nb), CutOff(h, p, nb));
    assert {q} - {q} == {};
  }

  /**
   The C code writes the links of the rest first, then the headers.  When p was the only chunk
   of the unsorted list it overwrites the list without unlinking p.
   */
  lemma CutWrites(h: Heap, p: int, nb: int, mem: Memory)
    requires Cuts(h, p, nb) && p % 8 == 0 && HEAP_FLOOR <= p && h.cs[p].size % 8 == 0
    requires |h.bins| == NBINS && h.bins[1] == []
    requires mem[UNSORTED + 12 := 0][UNSORTED + 8 := 0] == h.mem[UNSORTED + 12 := 0][UNSORTED + 8 := 0]
    ensures var q, rest := p + nb, h.cs[p].size - nb;
            mem[UNSORTED + 8 := q][UNSORTED + 12 := q][q + 8 := UNSORTED][q + 12 := UNSORTED]
               [p + 4 := nb + 1][q + 4 := rest + 1][q + rest := rest]
            == CutOff(h, p, nb).mem
  {
    hide CutOff, LinkedIn;
    var q, rest := p + nb, h.cs[p].size - nb;
    CutMem(h, p, nb);
    WritesCommute(mem, h.mem, p, q, nb, rest);
  }

  lemma CutMem(h: Heap, p: int, nb: int)
    requires p in h.cs && 0 < nb < h.cs[p].size && |h.bins| == NBINS && h.bins[1] == []
    ensures var q, rest := p + nb, h.cs[p].size - nb;
            CutOff(h, p, nb).mem == LinkedIn(h.mem[p + 4 := nb + 1][q + 4 := rest + 1][q + rest := rest], q, UNSORTED, UNSORTED)
  {
    SplitFacts(h, p, nb);
    hide Split;
  }

  lemma WritesCommute(m: Memory, m': Memory, p: int, q: int, nb: int, rest: int)
    requires m[UNSORTED + 12 := 0][UNSORTED + 8 := 0] == m'[UNSORTED + 12 := 0][UNSORTED + 8 := 0]
    requires p % 8 == 0 && HEAP_FLOOR <= p && q == p + nb && nb >= 16 && nb % 8 == 0 && rest >= 16 && rest % 8 == 0
    ensures m[UNSORTED + 8 := q][UNSORTED + 12 := q][q + 8 := UNSORTED][q + 12 := UNSORTED][p + 4 := nb + 1][q + 4 := rest + 1][q + rest := rest]
         == LinkedIn(m'[p + 4 := nb + 1][q + 4 := rest + 1][q + rest := rest], q, UNSORTED, UNSORTED)
  {
    SameElsewhere(m, m');
    var a := m[UNSORTED + 8 := q][UNSORTED + 12 := q][q + 8 := UNSORTED][q + 12 := UNSORTED][p + 4 := nb + 1][q + 4 := rest + 1][q + rest := rest];
    var b := LinkedIn(m'[p + 4 := nb + 1][q + 4 := rest + 1][q + rest := rest], q, UNSORTED, UNSORTED);
    forall w
      ensures (w in a <==> w in b) && (w in a ==> a[w] == b[w])
    {
      assert w != UNSORTED + 8 && w != UNSORTED + 12 ==> (w in m <==> w in m') && (w in m ==> m[w] == m'[w]);
    }
  }

  lemma SameElsewhere(m: Memory, m': Memory)
    requires m[UNSORTED + 12 := 0][UNSORTED + 8 := 0] == m'[UNSORTED + 12 := 0][UNSORTED + 8 := 0]
    ensures forall w :: w != UNSORTED + 8 && w != UNSORTED + 12 ==> (w in m <==> w in m') && (w in m ==> m[w] == m'[w])
  {
    var a, b := m[UNSORTED + 12 := 0][UNSORTED + 8 := 0], m'[UNSORTED + 12 := 0][UNSORTED + 8 := 0];
    forall w | w != UNSORTED + 8 && w != UNSORTED + 12
      ensures (w in m <==> w in m') && (w in m ==> m[w] == m'[w])
    {
      assert (w in a <==> w in m) && (w in b <==> w in m') && (w in a ==> a[w] == m[w]) && (w in b ==> b[w] == m'[w]);
    }
  }

  // ----- top

  /** nb bytes off the low end of top, as a live block. */
  function TopCut(h: Heap, nb: int): Heap
    requires h.top in h.cs
  {
    Restated(SplitTop(h, nb), h.top, InUse)
  }

  lemma TopShown(h: Heap)
    requires Inv(h) && h.top in h.cs && LimboIn(h.cs, {})
    ensures PrevShown(h.cs, h.top) && Rd(h.mem, h.top + 4) == h.cs[h.top].size + 1
  {
    PrevOf(h, h.top);
    assert HeadOk(h.mem, h.cs, h.top) && ChunkOk(h.cs, h.base, h.top, h.top);
    if h.cs[h.top].prev in h.cs {
      assert FootOk(h.mem, h.cs, h.top, h.cs[h.top].prev);
    }
  }

  lemma SoundTopCut(h: Heap, o: Outside, nb: int)
    requires Sound(h, o, {}) && Cuts(h, h.top, nb)
    ensures var h' := TopCut(h, nb);
            && Sound(h', o, {}) && SameLive(h, h') && Live(h') == Live(h) + {h.top} && h.top !in Live(h)
            && h.top in h'.cs && h'.cs[h.top].size == nb
  {
    var h1 := SplitTop(h, nb);
    CarveTop(h, nb);
    TopShown(h);
    PrevOf(h, h.top);
    assert ChunkOk(h.cs, h.base, h.top, h.top);
    OrderFrame(h, h1, o.binmap);
    assert Sound(h1, o, {h.top}) by {
      hide Inv, Ordered, ChunkOk, SameLive;
    }
    assert PrevShown(h1.cs, h.top);
    SoundSettle(h1, o, {h.top}, h.top);
    SameTrans(h, h1, TopCut(h, nb));
    assert {h.top} - {h.top} == {};
    hide Sound, Inv, SameLive, ChunkOk;
  }

  lemma SoundGrow(h: Heap, o: Outside, extra: int)
    requires Sound(h, o, {}) && h.top in h.cs && extra >= 0 && extra % 4 == 0 && o.brk + extra < ADDRESSES
    ensures var h' := GrownTop(h, extra); Sound(h', o.(brk := o.brk + extra), {}) && Same(h, h')
  {
    TopShown(h);
    assert ChunkOk(h.cs, h.base, h.top, h.top);
    GrowTop(h, extra);
    OrderFrame(h, GrownTop(h, extra), o.binmap);
    hide Inv, Ordered, ChunkOk, SameLive;
  }

  lemma SoundFirst(h: Heap, o: Outside, a: int, size: int)
    requires Sound(h, o, {}) && h.cs == map[] && a % 8 == 0 && o.start <= a < o.start + 8 && size >= MINSIZE && size % 4 == 0
    requires a + size < ADDRESSES
    ensures var h' := FirstTop(h, a, size); Sound(h', o.(brk := a + size), {}) && Same(h, h')
  {
    InitTop(h, a, size);
    var h' := FirstTop(h, a, size);
    OrderFrame(h, h', o.binmap);
    assert a in h'.cs && Live(h') == {} && Live(h) == {};
    hide Inv, Ordered;
  }
}
