/** The moves of malloc and free that join, split and list chunks. */
module MallocMoves {
  import opened MallocHeap
  import opened MallocLists
  import opened MallocSteps

  // ----- joining two chunks in limbo

  function Merged(h: Heap, p: int): Heap
    requires p in h.cs && p + h.cs[p].size in h.cs
  {
    var q := p + h.cs[p].size;
    var c := Chunk(h.cs[p].size + h.cs[q].size, h.cs[p].prev, h.cs[q].st);
    var cs := (h.cs - {q})[p := c];
    var n := p + c.size;
    h.(cs := if n in cs then cs[n := cs[n].(prev := p)] else cs)
  }

  lemma MergeChunk(h: Heap, p: int, a: int)
    requires Tiled(h.cs, h.base, h.top) && p in h.cs && p + h.cs[p].size in h.cs
    requires p != h.top && p + h.cs[p].size != h.top
    requires a in Merged(h, p).cs
    ensures ChunkOk(Merged(h, p).cs, h.base, h.top, a)
  {
    hide Apart;
    var q := p + h.cs[p].size;
    assert ChunkOk(h.cs, h.base, h.top, p) && ChunkOk(h.cs, h.base, h.top, q) && ChunkOk(h.cs, h.base, h.top, a);
    var n := q + h.cs[q].size;
    assert ChunkOk(h.cs, h.base, h.top, n);
  }

  lemma MergeTiled(h: Heap, p: int)
    requires Tiled(h.cs, h.base, h.top) && p in h.cs && p + h.cs[p].size in h.cs
    requires p != h.top && p + h.cs[p].size != h.top
    ensures Tiled(Merged(h, p).cs, h.base, h.top)
  {
    var h' := Merged(h, p);
    MergeEnds(h, p);
    hide Apart, ChunkOk, Merged;
    forall a | a in h'.cs
      ensures ChunkOk(h'.cs, h.base, h.top, a)
    {
      MergeChunk(h, p, a);
    }
    forall a, b | a in h'.cs && b in h'.cs
      ensures Apart(h'.cs, a, b)
    {
      MergeApart(h, p, a, b);
    }
  }

  /** The first chunk and top are still there. */
  lemma MergeEnds(h: Heap, p: int)
    requires Tiled(h.cs, h.base, h.top) && p in h.cs && p + h.cs[p].size in h.cs
    requires p != h.top && p + h.cs[p].size != h.top
    ensures h.base in Merged(h, p).cs && h.top in Merged(h, p).cs
  {
    hide Apart;
    assert ChunkOk(h.cs, h.base, h.top, p) && ChunkOk(h.cs, h.base, h.top, p + h.cs[p].size);
  }

  lemma MergeApart(h: Heap, p: int, a: int, b: int)
    requires Tiled(h.cs, h.base, h.top) && p in h.cs && p + h.cs[p].size in h.cs
    requires p != h.top && p + h.cs[p].size != h.top
    requires a in Merged(h, p).cs && b in Merged(h, p).cs
    ensures Apart(Merged(h, p).cs, a, b)
  {
    var q := p + h.cs[p].size;
    assert ChunkOk(h.cs, h.base, h.top, p) && ChunkOk(h.cs, h.base, h.top, q);
    assert Apart(h.cs, a, b) && Apart(h.cs, q, b);
  }

  lemma Merge(h: Heap, p: int)
    requires Inv(h) && p in h.cs && p + h.cs[p].size in h.cs
    requires h.cs[p].st.Limbo? && h.cs[p + h.cs[p].size].st.Limbo?
    requires p != h.top
    ensures Inv(Merged(h, p)) && SameLive(h, Merged(h, p))
    ensures p in Merged(h, p).cs && Merged(h, p).cs[p].prev == h.cs[p].prev
  {
    hide HeadOk, FootOk, Apart, BinOk, FastOk;
    var q := p + h.cs[p].size;
    var h' := Merged(h, p);
    assert ChunkOk(h.cs, h.base, h.top, p) && ChunkOk(h.cs, h.base, h.top, q);
    hide ChunkOk;
    MergeTiled(h, p);
    forall a | a in h'.cs
      ensures HeadOk(h'.mem, h'.cs, a) && FootOk(h'.mem, h'.cs, h.top, a)
    {
      MergeTags(h, p, a);
    }
    ListsFrame(h, h');
  }

  lemma MergeTags(h: Heap, p: int, a: int)
    requires Inv(h) && p in h.cs && p + h.cs[p].size in h.cs
    requires h.cs[p].st.Limbo? && h.cs[p + h.cs[p].size].st.Limbo?
    requires p != h.top && a in Merged(h, p).cs
    ensures HeadOk(h.mem, Merged(h, p).cs, a) && FootOk(h.mem, Merged(h, p).cs, h.top, a)
  {
    hide Apart, BinOk, FastOk;
    var q := p + h.cs[p].size;
    assert ChunkOk(h.cs, h.base, h.top, p) && ChunkOk(h.cs, h.base, h.top, q) && ChunkOk(h.cs, h.base, h.top, a);
    assert HeadOk(h.mem, h.cs, a) && FootOk(h.mem, h.cs, h.top, a);
  }

  /** A chunk in limbo next to top becomes the new top. */
  function MergedTop(h: Heap, p: int): Heap
    requires p in h.cs && h.top in h.cs
  {
    var size := h.cs[p].size + h.cs[h.top].size;
    h.(mem := h.mem[p + 4 := size + 1], cs := (h.cs - {h.top})[p := Chunk(size, h.cs[p].prev, Top)], top := p)
  }

  lemma MergeTopChunk(h: Heap, p: int, a: int)
    requires Inv(h) && p in h.cs && h.top in h.cs && p + h.cs[p].size == h.top
    requires a in h.cs && a != h.top
    ensures a <= p && ChunkOk(MergedTop(h, p).cs, h.base, p, a)
  {
    assert ChunkOk(h.cs, h.base, h.top, p) && ChunkOk(h.cs, h.base, h.top, h.top);
    assert ChunkOk(h.cs, h.base, h.top, a) && Apart(h.cs, p, a);
  }

  lemma MergeTopAt(h: Heap, p: int, a: int)
    requires Inv(h) && p in h.cs && h.top in h.cs && p + h.cs[p].size == h.top
    requires h.cs[p].st.Limbo? && PrevShown(h.cs, p)
    requires h.cs[p].prev in h.cs ==> !IsFree(h.cs[h.cs[p].prev])
    requires a in h.cs && a != h.top
    ensures var h' := MergedTop(h, p);
            a <= p && ChunkOk(h'.cs, h.base, p, a) && HeadOk(h'.mem, h'.cs, a) && FootOk(h'.mem, h'.cs, p, a)
            && LinksKept(h.mem, h'.mem, a)
  {
    MergeTopChunk(h, p, a);
    assert ChunkOk(h.cs, h.base, h.top, p);
    assert ChunkOk(h.cs, h.base, h.top, a);
    assert HeadOk(h.mem, h.cs, a) && FootOk(h.mem, h.cs, h.top, a);
    HeadApart(h, p, a);
  }

  lemma MergeTopTiled(h: Heap, p: int)
    requires Inv(h) && p in h.cs && h.top in h.cs && p + h.cs[p].size == h.top
    requires h.cs[p].st.Limbo? && PrevShown(h.cs, p)
    requires h.cs[p].prev in h.cs ==> !IsFree(h.cs[h.cs[p].prev])
    ensures var h' := MergedTop(h, p); Tiled(h'.cs, h.base, p) && Tagged(h'.mem, h'.cs, p)
  {
    var h' := MergedTop(h, p);
    assert h'.base in h'.cs && p != h.top by {
      assert ChunkOk(h.cs, h.base, h.top, p) && ChunkOk(h.cs, h.base, h.top, h.top);
    }
    forall a | a in h'.cs
      ensures ChunkOk(h'.cs, h.base, p, a)
      ensures HeadOk(h'.mem, h'.cs, a) && FootOk(h'.mem, h'.cs, p, a)
    {
      MergeTopAt(h, p, a);
    }
    forall a, b | a in h'.cs && b in h'.cs
      ensures Apart(h'.cs, a, b)
    {
      MergeTopApart(h, p, a, b);
    }
    hide ChunkOk, HeadOk, FootOk, Apart;
  }

  lemma MergeTopApart(h: Heap, p: int, a: int, b: int)
    requires Inv(h) && p in h.cs && h.top in h.cs && p + h.cs[p].size == h.top
    requires a in MergedTop(h, p).cs && b in MergedTop(h, p).cs
    ensures Apart(MergedTop(h, p).cs, a, b)
  {
    assert ChunkOk(h.cs, h.base, h.top, p) && ChunkOk(h.cs, h.base, h.top, h.top);
    assert ChunkOk(h.cs, h.base, h.top, b) && Apart(h.cs, p, b) && Apart(h.cs, a, b);
  }

  lemma MergeTop(h: Heap, p: int)
    requires Inv(h) && p in h.cs && h.top in h.cs && p + h.cs[p].size == h.top
    requires h.cs[p].st.Limbo? && PrevShown(h.cs, p)
    requires h.cs[p].prev in h.cs ==> !IsFree(h.cs[h.cs[p].prev])
    ensures Inv(MergedTop(h, p)) && SameLive(h, MergedTop(h, p))
  {
    var h' := MergedTop(h, p);
    MergeTopTiled(h, p);
    assert h.cs[h.top].st == Top && p + 4 >= HEAP_FLOOR by {
      assert ChunkOk(h.cs, h.base, h.top, p) && ChunkOk(h.cs, h.base, h.top, h.top);
    }
    forall a | a in h'.cs
      ensures LinksKept(h.mem, h'.mem, a)
    {
      MergeTopAt(h, p, a);
    }
    HeadIsQuiet(h.cs, h.base, h.top, p);
    hide ChunkOk, Tagged, Tiled, LinksKept;
    ListsFrame(h, h');
  }

  // ----- splitting

  /** A chunk in limbo cut in two: the first nb bytes, and the rest. */
  function Split(h: Heap, p: int, nb: int): Heap
    requires p in h.cs
  {
    var c, q := h.cs[p], p + nb;
    var cs := h.cs[p := Chunk(nb, c.prev, Limbo(true))][q := Chunk(c.size - nb, p, c.st)];
    var n := p + c.size;
    h.(cs := if n in h.cs then cs[n := h.cs[n].(prev := q)] else cs)
  }

  /** The sizes a chunk can be cut at. */
  ghost predicate Cuts(h: Heap, p: int, nb: int) {
    p in h.cs && nb % 8 == 0 && MINSIZE <= nb && nb + MINSIZE <= h.cs[p].size
  }

  lemma SplitChunk(h: Heap, p: int, nb: int, a: int)
    requires Tiled(h.cs, h.base, h.top) && Cuts(h, p, nb) && p != h.top && h.cs[p].st != Top
    requires a in Split(h, p, nb).cs && p + nb !in h.cs
    ensures ChunkOk(Split(h, p, nb).cs, h.base, h.top, a)
  {
    var n := p + h.cs[p].size;
    assert ChunkOk(h.cs, h.base, h.top, p) && ChunkOk(h.cs, h.base, h.top, n);
    if a != p + nb {
      assert ChunkOk(h.cs, h.base, h.top, a);
    }
  }

  lemma SplitApart(h: Heap, p: int, nb: int, a: int, b: int)
    requires Tiled(h.cs, h.base, h.top) && Cuts(h, p, nb) && p != h.top
    requires a in Split(h, p, nb).cs && b in Split(h, p, nb).cs
    ensures Apart(Split(h, p, nb).cs, a, b)
  {
    var q, n := p + nb, p + h.cs[p].size;
    assert ChunkOk(h.cs, h.base, h.top, p);
    assert Apart(h.cs, if a == q then p else a, if b == q then p else b);
    assert a in h.cs ==> Apart(h.cs, p, a);
  }

  lemma NothingInside(h: Heap, p: int, q: int)
    requires Tiled(h.cs, h.base, h.top) && p in h.cs && p < q < p + h.cs[p].size
    ensures q !in h.cs
  {
    assert q in h.cs ==> Apart(h.cs, p, q);
  }

  lemma SplitTiled(h: Heap, p: int, nb: int)
    requires Tiled(h.cs, h.base, h.top) && Cuts(h, p, nb) && p != h.top && h.cs[p].st != Top
    ensures Tiled(Split(h, p, nb).cs, h.base, h.top)
    ensures p + nb !in h.cs
  {
    var h' := Split(h, p, nb);
    NothingInside(h, p, p + nb);
    forall a | a in h'.cs
      ensures ChunkOk(h'.cs, h.base, h.top, a)
    {
      SplitChunk(h, p, nb, a);
    }
    forall a, b | a in h'.cs && b in h'.cs
      ensures Apart(h'.cs, a, b)
    {
      SplitApart(h, p, nb, a, b);
    }
    assert ChunkOk(h.cs, h.base, h.top, p);
  }

  lemma Carve(h: Heap, p: int, nb: int)
    requires Inv(h) && Cuts(h, p, nb) && p != h.top && h.cs[p].st.Limbo?
    ensures Inv(Split(h, p, nb)) && SameLive(h, Split(h, p, nb))
    ensures p + nb !in h.cs
  {
    var h' := Split(h, p, nb);
    SplitTiled(h, p, nb);
    forall a | a in h'.cs
      ensures HeadOk(h'.mem, h'.cs, a) && FootOk(h'.mem, h'.cs, h.top, a)
    {
      SplitTags(h, p, nb, a);
    }
    assert ChunkOk(h.cs, h.base, h.top, p);
    ListsFrame(h, h');
  }

  lemma SplitTags(h: Heap, p: int, nb: int, a: int)
    requires Inv(h) && Cuts(h, p, nb) && p != h.top && h.cs[p].st.Limbo?
    requires a in Split(h, p, nb).cs && p + nb !in h.cs
    ensures HeadOk(h.mem, Split(h, p, nb).cs, a) && FootOk(h.mem, Split(h, p, nb).cs, h.top, a)
  {
    assert ChunkOk(h.cs, h.base, h.top, p) && ChunkOk(h.cs, h.base, h.top, p + h.cs[p].size);
    if a in h.cs {
      assert HeadOk(h.mem, h.cs, a) && FootOk(h.mem, h.cs, h.top, a) && ChunkOk(h.cs, h.base, h.top, a);
    }
  }

  /** nb bytes off the low end of top. */
  function SplitTop(h: Heap, nb: int): Heap
    requires h.top in h.cs
  {
    var c, q := h.cs[h.top], h.top + nb;
    h.(mem := h.mem[h.top + 4 := nb + 1][q + 4 := c.size - nb + 1],
       cs := h.cs[h.top := Chunk(nb, c.prev, Limbo(true))][q := Chunk(c.size - nb, h.top, Top)],
       top := q)
  }

  lemma SplitTopAt(h: Heap, nb: int, a: int)
    requires Inv(h) && Cuts(h, h.top, nb)
    requires a in h.cs && h.top + nb !in h.cs
    ensures var h' := SplitTop(h, nb);
            && ChunkOk(h'.cs, h.base, h'.top, a)
            && HeadOk(h'.mem, h'.cs, a) && FootOk(h'.mem, h'.cs, h'.top, a)
            && (a != h.top ==> LinksKept(h.mem, h'.mem, a) && a + h.cs[a].size <= h.top)
            && (h.cs[a].st == InUse ==> LiveKept(h, h', a))
  {
    assert ChunkOk(h.cs, h.base, h.top, a) && Apart(h.cs, a, h.top) && ChunkOk(h.cs, h.base, h.top, h.top);
    assert HeadOk(h.mem, h.cs, a) && FootOk(h.mem, h.cs, h.top, a);
  }

  lemma SplitTopRest(h: Heap, nb: int)
    requires Inv(h) && Cuts(h, h.top, nb) && h.top + nb !in h.cs
    ensures var h', q := SplitTop(h, nb), h.top + nb;
            ChunkOk(h'.cs, h.base, q, q) && HeadOk(h'.mem, h'.cs, q) && FootOk(h'.mem, h'.cs, q, q)
  {
    assert ChunkOk(h.cs, h.base, h.top, h.top);
  }

  lemma SplitTopTiled(h: Heap, nb: int)
    requires Inv(h) && Cuts(h, h.top, nb) && h.top + nb !in h.cs
    ensures var h' := SplitTop(h, nb); Tiled(h'.cs, h.base, h'.top) && Tagged(h'.mem, h'.cs, h'.top)
  {
    hide ChunkOk, HeadOk, FootOk, Apart, BinOk, FastOk, LinksKept, LiveKept;
    var h' := SplitTop(h, nb);
    forall a | a in h'.cs
      ensures ChunkOk(h'.cs, h.base, h'.top, a)
      ensures HeadOk(h'.mem, h'.cs, a) && FootOk(h'.mem, h'.cs, h'.top, a)
    {
      if a in h.cs {
        SplitTopAt(h, nb, a);
      } else {
        SplitTopRest(h, nb);
      }
    }
    forall a, b | a in h'.cs && b in h'.cs
      ensures Apart(h'.cs, a, b)
    {
      SplitTopApart(h, nb, a, b);
    }
  }

  lemma CarveTop(h: Heap, nb: int)
    requires Inv(h) && Cuts(h, h.top, nb)
    ensures Inv(SplitTop(h, nb)) && SameLive(h, SplitTop(h, nb))
    ensures h.top + nb !in h.cs
  {
    var h' := SplitTop(h, nb);
    NothingInside(h, h.top, h.top + nb);
    assert h.cs[h.top].st == Top && h.top + 4 >= HEAP_FLOOR by {
      assert ChunkOk(h.cs, h.base, h.top, h.top);
    }
    SplitTopTiled(h, nb);
    forall a | a in h.cs
      ensures a != h.top ==> LinksKept(h.mem, h'.mem, a)
      ensures h.cs[a].st == InUse ==> LiveKept(h, h', a)
    {
      SplitTopAt(h, nb, a);
    }
    hide ChunkOk, Tagged, Tiled, LinksKept, LiveKept;
    ListsFrame(h, h');
  }

  lemma SplitTopApart(h: Heap, nb: int, a: int, b: int)
    requires Inv(h) && Cuts(h, h.top, nb)
    requires a in SplitTop(h, nb).cs && b in SplitTop(h, nb).cs
    ensures Apart(SplitTop(h, nb).cs, a, b)
  {
    var p, q := h.top, h.top + nb;
    if a in h.cs {
      assert ChunkOk(h.cs, h.base, p, a) && Apart(h.cs, a, p);
    }
    if b in h.cs {
      assert ChunkOk(h.cs, h.base, p, b);
    }
    if a in h.cs && b in h.cs {
      assert Apart(h.cs, a, b);
    }
  }

  // ----- onto a list

  function Attached(h: Heap, p: int, i: int, k: nat): Heap
    requires p in h.cs && 0 <= i < |h.bins| && k <= |h.bins[i]|
  {
    h.(mem := LinkedIn(h.mem, p, Before(BinAt(i), h.bins[i], k), AtOrEnd(BinAt(i), h.bins[i], k)),
       cs := h.cs[p := h.cs[p].(st := Binned(i))],
       bins := h.bins[i := With(h.bins[i], k, p)])
  }

  /** p is in limbo, shown as free, with header and footer in place and no free neighbour. */
  ghost predicate Ready(h: Heap, p: int) {
    && p in h.cs && p != h.top && h.cs[p].st == Limbo(false)
    && Rd(h.mem, p + 4) == h.cs[p].size + (if PrevShown(h.cs, p) then 1 else 0)
    && Rd(h.mem, p + h.cs[p].size) == h.cs[p].size
    && p + h.cs[p].size != h.top
    && (p + h.cs[p].size in h.cs ==> !IsFree(h.cs[p + h.cs[p].size]))
    && (h.cs[p].prev in h.cs ==> !IsFree(h.cs[h.cs[p].prev]))
  }

  /** A position of bin i where p may go. */
  ghost predicate Place(h: Heap, i: int, k: nat) {
    1 <= i < NBINS && |h.bins| == NBINS && k <= |h.bins[i]|
  }

  lemma PlaceNodes(h: Heap, i: int, k: nat)
    requires Inv(h) && Place(h, i, k)
    ensures NodeOf(h, i, Before(BinAt(i), h.bins[i], k)) && NodeOf(h, i, AtOrEnd(BinAt(i), h.bins[i], k))
  {
    assert BinOk(h.mem, h.cs, h.bins, i);
  }

  /** A word none of the four link writes touches. */
  lemma LinkedElsewhere(mem: Memory, p: int, bck: int, fwd: int, w: int)
    requires w != p + 12 && w != p + 8 && w != fwd + 12 && w != bck + 8
    ensures Rd(LinkedIn(mem, p, bck, fwd), w) == Rd(mem, w)
  {
  }

  lemma AttachTags(h: Heap, p: int, i: int, k: nat, a: int)
    requires Inv(h) && Ready(h, p) && Place(h, i, k) && a in h.cs
    ensures var h' := Attached(h, p, i, k);
            HeadOk(h'.mem, h'.cs, a) && FootOk(h'.mem, h'.cs, h.top, a)
  {
    hide Apart, BinOk, FastOk, LinkedIn, HeadOk, FootOk;
    assert HeadOk(h.mem, h.cs, a) && FootOk(h.mem, h.cs, h.top, a) && ChunkOk(h.cs, h.base, h.top, a);
    assert ChunkOk(h.cs, h.base, h.top, p);
    var bck, fwd := Before(BinAt(i), h.bins[i], k), AtOrEnd(BinAt(i), h.bins[i], k);
    PlaceNodes(h, i, k);
    LinkWordsApart(h, i, bck, a);
    LinkWordsApart(h, i, fwd, a);
    if a != p {
      ChunksApart(h.cs, h.base, h.top, a, p);
    }
    LinkedElsewhere(h.mem, p, bck, fwd, a + 4);
    if a != h.top {
      LinkedElsewhere(h.mem, p, bck, fwd, a + h.cs[a].size);
    }
    hide Before, AtOrEnd, With, ChunkOk;
    ListedTags(h, LinkedIn(h.mem, p, bck, fwd), p, i, a);
  }

  /** p shown free is listed: the tags stay in order when their words do. */
  lemma ListedTags(h: Heap, mem': Memory, p: int, i: int, a: int)
    requires Ready(h, p) && a in h.cs && HeadOk(h.mem, h.cs, a) && FootOk(h.mem, h.cs, h.top, a)
    requires Rd(mem', a + 4) == Rd(h.mem, a + 4) && (a != h.top ==> Rd(mem', a + h.cs[a].size) == Rd(h.mem, a + h.cs[a].size))
    requires (h.cs[a].st == Top <==> a == h.top) && h.cs[p].prev != p && h.cs[p].size > 0
    requires a != h.top ==> a + h.cs[a].size in h.cs && h.cs[a + h.cs[a].size].prev == a
    ensures var cs' := h.cs[p := h.cs[p].(st := Binned(i))]; HeadOk(mem', cs', a) && FootOk(mem', cs', h.top, a)
  {
  }

  lemma AttachOther(h: Heap, p: int, i: int, k: nat, j: int)
    requires Inv(h) && Ready(h, p) && Place(h, i, k) && 1 <= j < NBINS && j != i
    ensures var h' := Attached(h, p, i, k); BinOk(h'.mem, h'.cs, h'.bins, j)
  {
    hide Apart, HeadOk, FootOk, FastOk;
    var h' := Attached(h, p, i, k);
    var bck, fwd := Before(BinAt(i), h.bins[i], k), AtOrEnd(BinAt(i), h.bins[i], k);
    PlaceNodes(h, i, k);
    assert BinOk(h.mem, h.cs, h.bins, j);
    assert ChunkOk(h.cs, h.base, h.top, p);
    forall a | a in h.cs && h.cs[a].st == Binned(j)
      ensures LinksKept(h.mem, h'.mem, a)
    {
      LinkWordsApart(h, i, bck, a);
      LinkWordsApart(h, i, fwd, a);
    }
    HeadersApart(h, i, j, bck);
    HeadersApart(h, i, j, fwd);
    BinFrame(h.mem, h.cs, h'.mem, h'.cs, h.bins, j);
  }

  lemma AttachBinning(h: Heap, p: int, i: int, k: nat)
    requires Inv(h) && Ready(h, p) && Place(h, i, k)
    ensures var h' := Attached(h, p, i, k); Binning(h'.mem, h'.cs, h'.bins)
  {
    var h' := Attached(h, p, i, k);
    BinNodes(h, i);
    assert BinOk(h.mem, h.cs, h.bins, i);
    assert ChunkOk(h.cs, h.base, h.top, p);
    assert p !in h.bins[i];
    InsertLinked(h.mem, BinAt(i), h.bins[i], k, p);
    WithFacts(h.bins[i], k, p);
    assert BinOk(h'.mem, h'.cs, h'.bins, i) by {
      assert forall j :: 0 <= j < |h'.bins[i]| ==> h'.bins[i][j] in h.bins[i] || h'.bins[i][j] == p;
    }
    forall j | 1 <= j < NBINS && j != i
      ensures BinOk(h'.mem, h'.cs, h'.bins, j)
    {
      AttachOther(h, p, i, k, j);
    }
    hide BinOk;
  }

  lemma AttachFast(h: Heap, p: int, i: int, k: nat)
    requires Inv(h) && Ready(h, p) && Place(h, i, k)
    ensures var h' := Attached(h, p, i, k); FastBinning(h'.mem, h'.cs, h'.fast)
  {
    var h' := Attached(h, p, i, k);
    var bck, fwd := Before(BinAt(i), h.bins[i], k), AtOrEnd(BinAt(i), h.bins[i], k);
    PlaceNodes(h, i, k);
    forall a | a in h.cs && h.cs[a].st.Fast?
      ensures Rd(h'.mem, a + 8) == Rd(h.mem, a + 8)
    {
      assert ChunkOk(h.cs, h.base, h.top, p);
      LinkWordsApart(h, i, bck, a);
      LinkWordsApart(h, i, fwd, a);
    }
    FastFrame(h.mem, h.cs, h'.mem, h'.cs, h.fast);
  }

  /** Linking a ready chunk into a bin. */
  lemma Attach(h: Heap, p: int, i: int, k: nat)
    requires Inv(h) && Ready(h, p) && Place(h, i, k)
    ensures Inv(Attached(h, p, i, k)) && SameLive(h, Attached(h, p, i, k))
  {
    var h' := Attached(h, p, i, k);
    TiledStatus(h.cs, h.base, h.top, p, Binned(i));
    forall a | a in h.cs
      ensures HeadOk(h'.mem, h'.cs, a) && FootOk(h'.mem, h'.cs, h.top, a)
    {
      AttachTags(h, p, i, k, a);
    }
    AttachBinning(h, p, i, k);
    AttachFast(h, p, i, k);
    AttachLive(h, p, i, k);
    hide HeadOk, FootOk, Binning, FastBinning, ChunkOk, Apart;
  }

  lemma AttachLive(h: Heap, p: int, i: int, k: nat)
    requires Inv(h) && Ready(h, p) && Place(h, i, k)
    ensures SameLive(h, Attached(h, p, i, k))
  {
    PlaceNodes(h, i, k);
    NodeIsQuiet(h, i, Before(BinAt(i), h.bins[i], k));
    NodeIsQuiet(h, i, AtOrEnd(BinAt(i), h.bins[i], k));
    assert ChunkOk(h.cs, h.base, h.top, p);
    DeadIsQuiet(h.cs, h.base, h.top, p, p + 8);
    DeadIsQuiet(h.cs, h.base, h.top, p, p + 12);
    hide Before, AtOrEnd, With;
  }

  // ----- fastbins

  function FastPushed(h: Heap, p: int, i: int): Heap
    requires p in h.cs && 0 <= i < |h.fast|
  {
    h.(mem := h.mem[p + 8 := if h.fast[i] == [] then 0 else h.fast[i][0]],
       cs := h.cs[p := h.cs[p].(st := Fast(i))],
       fast := h.fast[i := [p] + h.fast[i]])
  }

  lemma FastPush(h: Heap, p: int, i: int)
    requires Inv(h) && p in h.cs && h.cs[p].st == InUse
    requires 0 <= i < NFASTBINS && |h.fast| == NFASTBINS && h.cs[p].size == 8 * (i + 2)
    ensures Inv(FastPushed(h, p, i))
    ensures forall a :: a in h.cs && h.cs[a].st == InUse && a != p ==> LiveKept(h, FastPushed(h, p, i), a)
  {
    var h' := FastPushed(h, p, i);
    assert ChunkOk(h.cs, h.base, h.top, p);
    TiledStatus(h.cs, h.base, h.top, p, Fast(i));
    var v := h'.mem[p + 8];
    Poke(h, p, p + 8, v);
    var g := Poked(h, p + 8, v);
    forall a | a in h.cs
      ensures HeadOk(h'.mem, h'.cs, a) && FootOk(h'.mem, h'.cs, h.top, a)
    {
      assert HeadOk(g.mem, h.cs, a) && FootOk(g.mem, h.cs, h.top, a);
    }
    forall j | 1 <= j < NBINS
      ensures BinOk(h'.mem, h'.cs, h'.bins, j)
    {
      assert BinOk(g.mem, h.cs, h.bins, j);
      BinFrame(g.mem, h.cs, h'.mem, h'.cs, h.bins, j);
    }
    FastPushLists(h, p, i);
    hide HeadOk, FootOk, BinOk, FastBinning, ChunkOk, Apart;
  }

  lemma FastPushLists(h: Heap, p: int, i: int)
    requires Inv(h) && p in h.cs && h.cs[p].st == InUse
    requires 0 <= i < NFASTBINS && |h.fast| == NFASTBINS && h.cs[p].size == 8 * (i + 2)
    ensures var h' := FastPushed(h, p, i); FastBinning(h'.mem, h'.cs, h'.fast)
  {
    var h' := FastPushed(h, p, i);
    forall j | 0 <= j < NFASTBINS
      ensures FastOk(h'.mem, h'.cs, h'.fast, j)
    {
      assert FastOk(h.mem, h.cs, h.fast, j);
      forall k | 0 <= k < |h'.fast[j]|
        ensures FastLinkAt(h'.mem, h'.fast[j], k)
      {
        if j == i && k > 0 {
          assert FastLinkAt(h.mem, h.fast[i], k - 1) && h'.fast[i][k] == h.fast[i][k - 1];
        } else if j != i {
          assert FastLinkAt(h.mem, h.fast[j], k);
        }
      }
    }
  }

  /** The first chunk of a fastbin becomes a live block. */
  function FastPopped(h: Heap, i: int): Heap
    requires 0 <= i < |h.fast| && h.fast[i] != [] && h.fast[i][0] in h.cs
  {
    var p := h.fast[i][0];
    h.(cs := h.cs[p := h.cs[p].(st := InUse)], fast := h.fast[i := h.fast[i][1..]])
  }

  lemma FastPop(h: Heap, i: int)
    requires Inv(h) && 0 <= i < NFASTBINS && |h.fast| == NFASTBINS && h.fast[i] != []
    ensures var p := h.fast[i][0];
            p in h.cs && h.cs[p].st == Fast(i) && h.cs[p].size == 8 * (i + 2) && p % 8 == 0 && p > 0
            && Rd(h.mem, p + 8) == if |h.fast[i]| > 1 then h.fast[i][1] else 0
    ensures Inv(FastPopped(h, i)) && SameLive(h, FastPopped(h, i))
  {
    assert FastOk(h.mem, h.cs, h.fast, i);
    assert FastLinkAt(h.mem, h.fast[i], 0);
    var p := h.fast[i][0];
    var h' := FastPopped(h, i);
    assert ChunkOk(h.cs, h.base, h.top, p);
    TiledStatus(h.cs, h.base, h.top, p, InUse);
    forall a | a in h.cs
      ensures HeadOk(h'.mem, h'.cs, a) && FootOk(h'.mem, h'.cs, h.top, a)
    {
      assert HeadOk(h.mem, h.cs, a) && FootOk(h.mem, h.cs, h.top, a);
    }
    forall j | 1 <= j < NBINS
      ensures BinOk(h'.mem, h'.cs, h'.bins, j)
    {
      assert BinOk(h.mem, h.cs, h.bins, j);
      BinFrame(h.mem, h.cs, h'.mem, h'.cs, h.bins, j);
    }
    FastPopLists(h, i);
    hide HeadOk, FootOk, BinOk, FastBinning, ChunkOk, Apart;
  }

  lemma FastPopLists(h: Heap, i: int)
    requires Inv(h) && 0 <= i < NFASTBINS && |h.fast| == NFASTBINS && h.fast[i] != [] && h.fast[i][0] in h.cs
    ensures var h' := FastPopped(h, i); FastBinning(h'.mem, h'.cs, h'.fast)
  {
    var h' := FastPopped(h, i);
    forall j | 0 <= j < NFASTBINS
      ensures FastOk(h'.mem, h'.cs, h'.fast, j)
    {
      assert FastOk(h.mem, h.cs, h.fast, j) && FastOk(h.mem, h.cs, h.fast, i);
      forall k | 0 <= k < |h'.fast[j]|
        ensures FastLinkAt(h'.mem, h'.fast[j], k)
      {
        if j == i {
          assert FastLinkAt(h.mem, h.fast[i], k + 1);
        } else {
          assert FastLinkAt(h.mem, h.fast[j], k);
        }
      }
    }
    forall a | a in h'.cs && h'.cs[a].st.Fast?
      ensures a in h'.fast[h'.cs[a].st.i]
    {
      if h'.cs[a].st.i == i {
        var k :| 0 <= k < |h.fast[i]| && h.fast[i][k] == a;
        assert h'.fast[i][k - 1] == a;
      }
    }
  }

  // ----- more memory

  function GrownTop(h: Heap, extra: int): Heap
    requires h.top in h.cs
  {
    var size := h.cs[h.top].size + extra;
    h.(mem := h.mem[h.top + 4 := size + 1], cs := h.cs[h.top := h.cs[h.top].(size := size)])
  }

  lemma GrowTopAt(h: Heap, extra: int, a: int)
    requires Inv(h) && h.top in h.cs && extra >= 0 && extra % 4 == 0 && PrevShown(h.cs, h.top) && a in h.cs
    ensures var h' := GrownTop(h, extra);
            && ChunkOk(h'.cs, h.base, h.top, a) && HeadOk(h'.mem, h'.cs, a) && FootOk(h'.mem, h'.cs, h.top, a)
            && LinksKept(h.mem, h'.mem, a) && (forall b :: b in h.cs ==> Apart(h'.cs, a, b))
  {
    var p := h.top;
    assert ChunkOk(h.cs, h.base, p, a) && HeadOk(h.mem, h.cs, a) && FootOk(h.mem, h.cs, p, a);
    HeadApart(h, p, a);
    forall b | b in h.cs
      ensures Apart(GrownTop(h, extra).cs, a, b)
    {
      assert Apart(h.cs, a, b) && ChunkOk(h.cs, h.base, p, b);
    }
  }

  lemma GrowTopTiled(h: Heap, extra: int)
    requires Inv(h) && h.top in h.cs && extra >= 0 && extra % 4 == 0 && PrevShown(h.cs, h.top)
    ensures var h' := GrownTop(h, extra); Tiled(h'.cs, h.base, h.top) && Tagged(h'.mem, h'.cs, h.top)
  {
    var h' := GrownTop(h, extra);
    forall a | a in h'.cs
      ensures ChunkOk(h'.cs, h.base, h.top, a) && HeadOk(h'.mem, h'.cs, a) && FootOk(h'.mem, h'.cs, h.top, a)
    {
      GrowTopAt(h, extra, a);
    }
    forall a, b | a in h'.cs && b in h'.cs
      ensures Apart(h'.cs, a, b)
    {
      GrowTopAt(h, extra, a);
    }
    hide ChunkOk, HeadOk, FootOk, Apart;
  }

  lemma GrowTop(h: Heap, extra: int)
    requires Inv(h) && h.top in h.cs && extra >= 0 && extra % 4 == 0 && PrevShown(h.cs, h.top)
    ensures Inv(GrownTop(h, extra)) && SameLive(h, GrownTop(h, extra))
  {
    var h' := GrownTop(h, extra);
    assert h.cs[h.top].st == Top && h.top + 4 >= HEAP_FLOOR by {
      assert ChunkOk(h.cs, h.base, h.top, h.top);
    }
    GrowTopTiled(h, extra);
    forall a | a in h.cs
      ensures LinksKept(h.mem, h'.mem, a)
    {
      GrowTopAt(h, extra, a);
    }
    HeadIsQuiet(h.cs, h.base, h.top, h.top);
    hide ChunkOk, Tiled, Tagged, LinksKept;
    ListsFrame(h, h');
  }

  /** The first memory from the system: all of it is top. */
  function FirstTop(h: Heap, a: int, size: int): Heap {
    h.(mem := h.mem[a + 4 := size + 1], cs := map[a := Chunk(size, NOWHERE, Top)], base := a, top := a)
  }

  lemma InitTop(h: Heap, a: int, size: int)
    requires Inv(h) && h.cs == map[] && a % 8 == 0 && a >= HEAP_FLOOR && size >= MINSIZE && size % 4 == 0
    ensures Inv(FirstTop(h, a, size))
  {
    var h' := FirstTop(h, a, size);
    assert ChunkOk(h'.cs, a, a, a) && HeadOk(h'.mem, h'.cs, a) && FootOk(h'.mem, h'.cs, a, a) && Apart(h'.cs, a, a);
    ListsFrame(h, h');
  }

  // ----- the arena, end to end

  /** Stepping from chunk to chunk by their sizes. */
  ghost function Walk(cs: Chunks, base: int, top: int, a: int): seq<int>
    requires Tiled(cs, base, top) && a in cs
    decreases top - a
  {
    assert ChunkOk(cs, base, top, a);
    if a == top then [top]
    else
      assert ChunkOk(cs, base, top, a + cs[a].size);
      [a] + Walk(cs, base, top, a + cs[a].size)
  }

  function SizeSum(cs: Chunks, l: seq<int>): int
    requires forall k :: 0 <= k < |l| ==> l[k] in cs
  {
    if l == [] then 0 else cs[l[0]].size + SizeSum(cs, l[1..])
  }

  lemma NextChunk(cs: Chunks, base: int, top: int, a: int)
    requires Tiled(cs, base, top) && a in cs
    ensures base <= a <= top
    ensures a != top ==> a + cs[a].size in cs && a < a + cs[a].size
    ensures forall b :: b in cs && a < b ==> a != top && a + cs[a].size <= b
  {
    assert ChunkOk(cs, base, top, a);
    forall b | b in cs && a < b
      ensures a != top && a + cs[a].size <= b
    {
      assert ChunkOk(cs, base, top, b) && Apart(cs, a, b);
    }
  }

  lemma {:induction false} WalkFrom(cs: Chunks, base: int, top: int, a: int)
    requires Tiled(cs, base, top) && a in cs
    ensures var l := Walk(cs, base, top, a);
            && (forall k :: 0 <= k < |l| ==> l[k] in cs)
            && (forall b :: b in l <==> b in cs && a <= b)
            && SizeSum(cs, l) == top + cs[top].size - a
    decreases top - a
  {
    NextChunk(cs, base, top, a);
    hide Tiled;
    if a != top {
      var n := a + cs[a].size;
      NextChunk(cs, base, top, n);
      WalkFrom(cs, base, top, n);
      assert Walk(cs, base, top, a)[1..] == Walk(cs, base, top, n);
    }
  }

  /** Chunks tile the arena exactly: walking from the first visits every chunk and ends at the end of top. */
  lemma ArenaTiled(h: Heap)
    requires Inv(h) && h.cs != map[]
    ensures h.base in h.cs && h.top in h.cs
    ensures var l := Walk(h.cs, h.base, h.top, h.base);
            && (forall k :: 0 <= k < |l| ==> l[k] in h.cs)
            && (forall b :: b in l <==> b in h.cs)
            && SizeSum(h.cs, l) == h.top + h.cs[h.top].size - h.base
  {
    WalkFrom(h.cs, h.base, h.top, h.base);
    forall b | b in h.cs
      ensures h.base <= b
    {
      assert ChunkOk(h.cs, h.base, h.top, b);
    }
  }
}
