/**
 The moves malloc and free are made of, each kept small: what it writes, and that the whole
 heap invariant survives it.  A chunk on its way from one place to another is in limbo.
 */
module MallocSteps {
  import opened MallocHeap
  import opened MallocLists

  // ----- no two parts of the heap share a word

  /** The words a chunk keeps to itself: the client's, or the links and the footer. */
  predicate InPayload(cs: Chunks, a: int, w: int)
    requires a in cs
  {
    a + 8 <= w < a + cs[a].size + 4
  }

  lemma ChunksApart(cs: Chunks, base: int, top: int, a: int, b: int)
    requires Tiled(cs, base, top) && a in cs && b in cs && a != b
    ensures a % 8 == 0 && b % 8 == 0 && cs[a].size >= 16
    ensures a + cs[a].size <= b || b + cs[b].size <= a
  {
    assert Apart(cs, a, b) && Apart(cs, b, a);
    assert ChunkOk(cs, base, top, a) && ChunkOk(cs, base, top, b);
  }

  /** A word that no live block holds. */
  ghost predicate Quiet(cs: Chunks, w: int) {
    forall a :: a in cs && cs[a].st == InUse ==> !InPayload(cs, a, w)
  }

  /** Live blocks of h are live in h', with the same size and the same contents. */
  ghost predicate SameLive(h: Heap, h': Heap) {
    forall a :: a in h.cs && h.cs[a].st == InUse ==> LiveKept(h, h', a)
  }

  ghost predicate LiveKept(h: Heap, h': Heap, a: int)
    requires a in h.cs
  {
    && a in h'.cs && h'.cs[a].st == InUse && h'.cs[a].size == h.cs[a].size
    && forall w :: InPayload(h.cs, a, w) ==> Rd(h'.mem, w) == Rd(h.mem, w)
  }

  lemma HeadIsQuiet(cs: Chunks, base: int, top: int, a: int)
    requires Tiled(cs, base, top) && a in cs
    ensures Quiet(cs, a + 4)
  {
    forall b | b in cs && cs[b].st == InUse
      ensures !InPayload(cs, b, a + 4)
    {
      assert ChunkOk(cs, base, top, b);
      if b != a {
        ChunksApart(cs, base, top, a, b);
      }
    }
  }

  lemma DeadIsQuiet(cs: Chunks, base: int, top: int, a: int, w: int)
    requires Tiled(cs, base, top) && a in cs && cs[a].st != InUse && InPayload(cs, a, w)
    ensures Quiet(cs, w)
  {
    forall b | b in cs && cs[b].st == InUse
      ensures !InPayload(cs, b, w)
    {
      ChunksApart(cs, base, top, a, b);
    }
  }

  lemma HeaderIsQuiet(cs: Chunks, base: int, top: int, w: int)
    requires Tiled(cs, base, top) && w < HEAP_FLOOR
    ensures Quiet(cs, w)
  {
    forall b | b in cs && cs[b].st == InUse
      ensures !InPayload(cs, b, w)
    {
      assert ChunkOk(cs, base, top, b);
    }
  }

  // ----- what a move leaves alone

  ghost predicate LinksKept(mem: Memory, mem': Memory, a: int) {
    Rd(mem', a + 8) == Rd(mem, a + 8) && Rd(mem', a + 12) == Rd(mem, a + 12)
  }

  lemma BinFrame(mem: Memory, cs: Chunks, mem': Memory, cs': Chunks, bins: seq<seq<int>>, i: int)
    requires 0 <= i < |bins| && BinOk(mem, cs, bins, i)
    requires LinksKept(mem, mem', BinAt(i))
    requires forall a :: a in cs && cs[a].st == Binned(i) ==> a in cs' && cs'[a].st == Binned(i) && LinksKept(mem, mem', a)
    ensures BinOk(mem', cs', bins, i)
  {
    LinkedFrame(mem, mem', BinAt(i), bins[i]);
  }

  lemma FastFrame(mem: Memory, cs: Chunks, mem': Memory, cs': Chunks, fast: seq<seq<int>>)
    requires FastBinning(mem, cs, fast)
    requires forall a :: a in cs && cs[a].st.Fast? ==>
                           a in cs' && cs'[a].st == cs[a].st && cs'[a].size == cs[a].size && Rd(mem', a + 8) == Rd(mem, a + 8)
    requires forall a :: a in cs' && cs'[a].st.Fast? ==> a in cs && cs[a].st == cs'[a].st
    ensures FastBinning(mem', cs', fast)
  {
    forall i | 0 <= i < NFASTBINS
      ensures FastOk(mem', cs', fast, i)
    {
      assert FastOk(mem, cs, fast, i);
      forall k | 0 <= k < |fast[i]|
        ensures FastLinkAt(mem', fast[i], k)
        ensures fast[i][k] in cs' && cs'[fast[i][k]].st == Fast(i) && cs'[fast[i][k]].size == 8 * (i + 2)
      {
        assert FastLinkAt(mem, fast[i], k);
        assert fast[i][k] in cs && cs[fast[i][k]].st == Fast(i);
      }
    }
  }

  lemma TiledStatus(cs: Chunks, base: int, top: int, p: int, st: Status)
    requires Tiled(cs, base, top) && p in cs && p != top && st != Top
    ensures Tiled(cs[p := cs[p].(st := st)], base, top)
  {
    var cs' := cs[p := cs[p].(st := st)];
    forall a | a in cs'
      ensures ChunkOk(cs', base, top, a)
    {
      assert ChunkOk(cs, base, top, a);
    }
    forall a, b | a in cs' && b in cs'
      ensures Apart(cs', a, b)
    {
      assert Apart(cs, a, b);
    }
  }

  // ----- a chunk off its bin

  function Detached(h: Heap, p: int, i: int, k: nat): Heap
    requires p in h.cs && 0 <= i < |h.bins| && k < |h.bins[i]|
  {
    h.(mem := Unlinked(h.mem, p),
       cs := h.cs[p := h.cs[p].(st := Limbo(false))],
       bins := h.bins[i := Without(h.bins[i], k)])
  }

  /** p stands at position k of bin i. */
  ghost predicate Stands(h: Heap, p: int, i: int, k: nat) {
    1 <= i < NBINS && |h.bins| == NBINS && k < |h.bins[i]| && h.bins[i][k] == p
  }

  lemma BinNodes(h: Heap, i: int)
    requires Inv(h) && 1 <= i < NBINS
    ensures Nodes(BinAt(i), h.bins[i])
  {
    assert BinOk(h.mem, h.cs, h.bins, i);
    forall k | 0 <= k < |h.bins[i]|
      ensures h.bins[i][k] % 8 == 0 && h.bins[i][k] >= HEAP_FLOOR
    {
      assert ChunkOk(h.cs, h.base, h.top, h.bins[i][k]);
    }
  }

  /** The neighbours of a binned chunk: headers, or chunks of the same bin. */
  ghost predicate NodeOf(h: Heap, i: int, n: int) {
    n == BinAt(i) || (n in h.cs && h.cs[n].st == Binned(i))
  }

  lemma Neighbours(h: Heap, p: int, i: int, k: nat)
    requires Inv(h) && Stands(h, p, i, k)
    ensures p in h.cs && h.cs[p].st == Binned(i) && p != h.top && ChunkOk(h.cs, h.base, h.top, p)
    ensures NodeOf(h, i, Rd(h.mem, p + 8)) && Rd(h.mem, p + 8) != p
    ensures NodeOf(h, i, Rd(h.mem, p + 12)) && Rd(h.mem, p + 12) != p
    ensures Rd(h.mem, p + 8) == NextIn(BinAt(i), h.bins[i], k) && Rd(h.mem, p + 12) == PrevIn(BinAt(i), h.bins[i], k)
  {
    assert BinOk(h.mem, h.cs, h.bins, i);
    assert LinkAt(h.mem, BinAt(i), h.bins[i], k);
    assert ChunkOk(h.cs, h.base, h.top, p);
  }

  /** Words fd + 12 and bk + 8 of nodes of bin i are nobody else's. */
  lemma LinkWordsApart(h: Heap, i: int, n: int, a: int)
    requires Inv(h) && 1 <= i < NBINS && NodeOf(h, i, n) && a in h.cs
    ensures n % 8 == 0 && a % 8 == 0
    ensures a + 4 != n + 12 && a + 8 != n + 12 && a + 12 != n + 8
    ensures h.cs[a].st != Binned(i) ==> a != n
    ensures h.cs[a].st != Top ==> a + h.cs[a].size != n + 8
    ensures n + 12 < HEAP_FLOOR <= a || n in h.cs
  {
    assert ChunkOk(h.cs, h.base, h.top, a);
    if n in h.cs {
      assert ChunkOk(h.cs, h.base, h.top, n);
      if n != a {
        ChunksApart(h.cs, h.base, h.top, n, a);
      }
    }
  }

  lemma DetachTagged(h: Heap, p: int, i: int, k: nat)
    requires Inv(h) && Stands(h, p, i, k)
    requires p in h.cs && h.cs[p].st == Binned(i)
    requires NodeOf(h, i, Rd(h.mem, p + 8)) && NodeOf(h, i, Rd(h.mem, p + 12))
    ensures Tagged(Detached(h, p, i, k).mem, Detached(h, p, i, k).cs, h.top)
  {
    var h' := Detached(h, p, i, k);
    forall a | a in h'.cs
      ensures HeadOk(h'.mem, h'.cs, a) && FootOk(h'.mem, h'.cs, h.top, a)
    {
      assert HeadOk(h.mem, h.cs, a) && FootOk(h.mem, h.cs, h.top, a) && ChunkOk(h.cs, h.base, h.top, a);
      LinkWordsApart(h, i, Rd(h.mem, p + 8), a);
      LinkWordsApart(h, i, Rd(h.mem, p + 12), a);
    }
  }

  lemma DetachOther(h: Heap, p: int, i: int, k: nat, j: int)
    requires Inv(h) && Stands(h, p, i, k) && 1 <= j < NBINS && j != i
    requires p in h.cs && h.cs[p].st == Binned(i)
    requires NodeOf(h, i, Rd(h.mem, p + 8)) && NodeOf(h, i, Rd(h.mem, p + 12))
    ensures BinOk(Detached(h, p, i, k).mem, Detached(h, p, i, k).cs, Detached(h, p, i, k).bins, j)
  {
    var h' := Detached(h, p, i, k);
    var fd, bk := Rd(h.mem, p + 8), Rd(h.mem, p + 12);
    assert BinOk(h.mem, h.cs, h.bins, j);
    forall a | a in h.cs && h.cs[a].st == Binned(j)
      ensures LinksKept(h.mem, h'.mem, a)
    {
      LinkWordsApart(h, i, fd, a);
      LinkWordsApart(h, i, bk, a);
    }
    HeadersApart(h, i, j, fd);
    HeadersApart(h, i, j, bk);
    BinFrame(h.mem, h.cs, h'.mem, h'.cs, h.bins, j);
  }

  lemma DetachBinning(h: Heap, p: int, i: int, k: nat)
    requires Inv(h) && Stands(h, p, i, k)
    requires p in h.cs && h.cs[p].st == Binned(i)
    requires NodeOf(h, i, Rd(h.mem, p + 8)) && NodeOf(h, i, Rd(h.mem, p + 12))
    ensures Binning(Detached(h, p, i, k).mem, Detached(h, p, i, k).cs, Detached(h, p, i, k).bins)
  {
    var h' := Detached(h, p, i, k);
    var fd, bk := Rd(h.mem, p + 8), Rd(h.mem, p + 12);
    BinNodes(h, i);
    assert BinOk(h.mem, h.cs, h.bins, i);
    UnlinkLinked(h.mem, BinAt(i), h.bins[i], k);
    WithoutFacts(h.bins[i], k);
    assert BinOk(h'.mem, h'.cs, h'.bins, i) by {
      assert forall j :: 0 <= j < |h'.bins[i]| ==> h'.bins[i][j] in h.bins[i];
    }
    forall j | 1 <= j < NBINS && j != i
      ensures BinOk(h'.mem, h'.cs, h'.bins, j)
    {
      DetachOther(h, p, i, k, j);
    }
  }

  lemma HeadersApart(h: Heap, i: int, j: int, n: int)
    requires Inv(h) && 1 <= i < NBINS && 1 <= j < NBINS && i != j && NodeOf(h, i, n)
    ensures n % 8 == 0 && n != BinAt(j)
  {
    if n in h.cs {
      assert ChunkOk(h.cs, h.base, h.top, n);
    }
  }

  /** `unlink` takes a chunk off its bin and leaves it in limbo. */
  lemma Detach(h: Heap, p: int, i: int, k: nat)
    requires Inv(h) && Stands(h, p, i, k)
    ensures p in h.cs && h.cs[p].st == Binned(i)
    ensures Inv(Detached(h, p, i, k)) && SameLive(h, Detached(h, p, i, k))
  {
    Neighbours(h, p, i, k);
    var h' := Detached(h, p, i, k);
    var fd, bk := Rd(h.mem, p + 8), Rd(h.mem, p + 12);
    TiledStatus(h.cs, h.base, h.top, p, Limbo(false));
    DetachTagged(h, p, i, k);
    DetachBinning(h, p, i, k);
    forall a | a in h.cs && h.cs[a].st.Fast?
      ensures Rd(h'.mem, a + 8) == Rd(h.mem, a + 8)
    {
      LinkWordsApart(h, i, fd, a);
      LinkWordsApart(h, i, bk, a);
    }
    FastFrame(h.mem, h.cs, h'.mem, h'.cs, h.fast);
    NodeIsQuiet(h, i, fd);
    NodeIsQuiet(h, i, bk);
  }

  lemma NodeIsQuiet(h: Heap, i: int, n: int)
    requires Inv(h) && 1 <= i < NBINS && NodeOf(h, i, n)
    ensures Quiet(h.cs, n + 8) && Quiet(h.cs, n + 12)
  {
    if n in h.cs {
      assert ChunkOk(h.cs, h.base, h.top, n);
      DeadIsQuiet(h.cs, h.base, h.top, n, n + 8);
      DeadIsQuiet(h.cs, h.base, h.top, n, n + 12);
    } else {
      HeaderIsQuiet(h.cs, h.base, h.top, n + 8);
      HeaderIsQuiet(h.cs, h.base, h.top, n + 12);
    }
  }

  // ----- moves that leave every list alone

  /** The same chunks are on the same lists, and their links are kept. */
  ghost predicate ListsKept(h: Heap, h': Heap) {
    && h'.bins == h.bins && h'.fast == h.fast
    && (forall a :: a in h.cs && (h.cs[a].st.Binned? || h.cs[a].st.Fast?) ==>
                      a in h'.cs && h'.cs[a].st == h.cs[a].st && h'.cs[a].size == h.cs[a].size && LinksKept(h.mem, h'.mem, a))
    && (forall a :: a in h'.cs && (h'.cs[a].st.Binned? || h'.cs[a].st.Fast?) ==> a in h.cs && h.cs[a].st == h'.cs[a].st)
    && (forall w :: w < HEAP_FLOOR ==> Rd(h'.mem, w) == Rd(h.mem, w))
  }

  lemma ListsFrame(h: Heap, h': Heap)
    requires Inv(h) && ListsKept(h, h')
    ensures Binning(h'.mem, h'.cs, h'.bins) && FastBinning(h'.mem, h'.cs, h'.fast)
  {
    forall i | 1 <= i < NBINS
      ensures BinOk(h'.mem, h'.cs, h'.bins, i)
    {
      assert BinOk(h.mem, h.cs, h.bins, i);
      BinFrame(h.mem, h.cs, h'.mem, h'.cs, h.bins, i);
    }
    FastFrame(h.mem, h.cs, h'.mem, h'.cs, h.fast);
  }

  /** The header word of a chunk is no link, no footer and no client's. */
  lemma HeadApart(h: Heap, n: int, a: int)
    requires Inv(h) && n in h.cs && a in h.cs
    ensures n + 4 >= HEAP_FLOOR && n + 4 != a + 8 && n + 4 != a + 12 && (h.cs[a].st != Top ==> n + 4 != a + h.cs[a].size)
  {
    assert ChunkOk(h.cs, h.base, h.top, n) && ChunkOk(h.cs, h.base, h.top, a);
    if n != a {
      ChunksApart(h.cs, h.base, h.top, n, a);
    }
  }

  /** A word of a chunk on no list: its own header if it is in limbo, or its payload. */
  ghost predicate Loose(h: Heap, p: int, w: int) {
    p in h.cs && ((h.cs[p].st.Limbo? && (w == p + 4 || InPayload(h.cs, p, w))) || (h.cs[p].st == InUse && InPayload(h.cs, p, w)))
  }

  function Poked(h: Heap, w: int, v: int): Heap {
    h.(mem := h.mem[w := v])
  }

  lemma LooseApart(h: Heap, p: int, w: int, a: int)
    requires Inv(h) && Loose(h, p, w) && a in h.cs
    ensures w >= HEAP_FLOOR
    ensures !h.cs[a].st.Limbo? ==> w != a + 4
    ensures !h.cs[a].st.Limbo? && !(h.cs[a].st == InUse) ==> w != a + 8 && w != a + 12
    ensures IsFree(h.cs[a]) ==> w != a + h.cs[a].size
    ensures h.cs[a].st == InUse && a != p ==> !InPayload(h.cs, a, w)
  {
    assert ChunkOk(h.cs, h.base, h.top, p) && ChunkOk(h.cs, h.base, h.top, a);
    if p != a {
      ChunksApart(h.cs, h.base, h.top, p, a);
    }
  }

  /**
   Writing a word of a loose chunk breaks nothing.  For a live block this is the client's own
   writing; for a chunk in limbo it is malloc building its header.
   */
  lemma Poke(h: Heap, p: int, w: int, v: int)
    requires Inv(h) && Loose(h, p, w)
    ensures Inv(Poked(h, w, v))
    ensures forall a :: a in h.cs && h.cs[a].st == InUse && a != p ==> LiveKept(h, Poked(h, w, v), a)
    ensures h.cs[p].st.Limbo? ==> SameLive(h, Poked(h, w, v))
  {
    var h' := Poked(h, w, v);
    forall a | a in h.cs
      ensures HeadOk(h'.mem, h'.cs, a) && FootOk(h'.mem, h'.cs, h.top, a)
      ensures w >= HEAP_FLOOR && (h.cs[a].st.Binned? || h.cs[a].st.Fast? ==> LinksKept(h.mem, h'.mem, a))
      ensures h.cs[a].st == InUse && a != p ==> LiveKept(h, h', a)
    {
      assert HeadOk(h.mem, h.cs, a) && FootOk(h.mem, h.cs, h.top, a);
      LooseApart(h, p, w, a);
    }
    ListsFrame(h, h');
  }

  // ----- limbo: what the next chunk's PREV_INUSE bit says

  /** The next chunk's bit set to `b`: `set_inuse_bit_at_offset`, or `set_head(next, nextsize)`. */
  function ShownAs(h: Heap, p: int, b: bool): Heap
    requires p in h.cs && p + h.cs[p].size in h.cs
  {
    var n := p + h.cs[p].size;
    h.(mem := h.mem[n + 4 := h.cs[n].size + (if b then 1 else 0)], cs := h.cs[p := h.cs[p].(st := Limbo(b))])
  }

  lemma SetShownAt(h: Heap, p: int, b: bool, a: int)
    requires Inv(h) && p in h.cs && h.cs[p].st.Limbo? && p != h.top && a in h.cs
    requires p + h.cs[p].size in h.cs && !h.cs[p + h.cs[p].size].st.Limbo?
    ensures var h' := ShownAs(h, p, b);
            HeadOk(h'.mem, h'.cs, a) && FootOk(h'.mem, h'.cs, h.top, a) && LinksKept(h.mem, h'.mem, a)
  {
    assert ChunkOk(h.cs, h.base, h.top, p);
    assert HeadOk(h.mem, h.cs, a) && FootOk(h.mem, h.cs, h.top, a) && ChunkOk(h.cs, h.base, h.top, a);
    HeadApart(h, p + h.cs[p].size, a);
  }

  lemma SetShown(h: Heap, p: int, b: bool)
    requires Inv(h) && p in h.cs && h.cs[p].st.Limbo? && p != h.top
    requires p + h.cs[p].size in h.cs && !h.cs[p + h.cs[p].size].st.Limbo?
    ensures Inv(ShownAs(h, p, b)) && SameLive(h, ShownAs(h, p, b))
  {
    var n, h' := p + h.cs[p].size, ShownAs(h, p, b);
    TiledStatus(h.cs, h.base, h.top, p, Limbo(b));
    forall a | a in h.cs
      ensures HeadOk(h'.mem, h'.cs, a) && FootOk(h'.mem, h'.cs, h.top, a) && LinksKept(h.mem, h'.mem, a)
    {
      SetShownAt(h, p, b, a);
    }
    assert n + 4 >= HEAP_FLOOR by {
      assert ChunkOk(h.cs, h.base, h.top, n);
    }
    HeadIsQuiet(h.cs, h.base, h.top, n);
    hide ChunkOk, Tiled, HeadOk, FootOk, LinksKept;
    ListsFrame(h, h');
  }

  function Restated(h: Heap, p: int, st: Status): Heap
    requires p in h.cs
  {
    h.(cs := h.cs[p := h.cs[p].(st := st)])
  }

  /** A chunk in limbo with its header in order becomes a live block. */
  lemma Settle(h: Heap, p: int)
    requires Inv(h) && p in h.cs && h.cs[p].st == Limbo(true)
    requires Rd(h.mem, p + 4) == h.cs[p].size + (if PrevShown(h.cs, p) then 1 else 0)
    ensures Inv(Restated(h, p, InUse)) && SameLive(h, Restated(h, p, InUse))
  {
    var h' := Restated(h, p, InUse);
    assert ChunkOk(h.cs, h.base, h.top, p);
    TiledStatus(h.cs, h.base, h.top, p, InUse);
    forall a | a in h.cs
      ensures HeadOk(h'.mem, h'.cs, a) && FootOk(h'.mem, h'.cs, h.top, a)
    {
      assert HeadOk(h.mem, h.cs, a) && FootOk(h.mem, h.cs, h.top, a) && ChunkOk(h.cs, h.base, h.top, a);
    }
    ListsFrame(h, h');
  }

  /** A block given back goes into limbo, still shown as in use. */
  lemma Unsettle(h: Heap, p: int)
    requires Inv(h) && p in h.cs && h.cs[p].st == InUse
    ensures Inv(Restated(h, p, Limbo(true)))
    ensures forall a :: a in h.cs && h.cs[a].st == InUse && a != p ==> LiveKept(h, Restated(h, p, Limbo(true)), a)
  {
    var h' := Restated(h, p, Limbo(true));
    assert ChunkOk(h.cs, h.base, h.top, p);
    TiledStatus(h.cs, h.base, h.top, p, Limbo(true));
    forall a | a in h.cs
      ensures HeadOk(h'.mem, h'.cs, a) && FootOk(h'.mem, h'.cs, h.top, a)
    {
      assert HeadOk(h.mem, h.cs, a) && FootOk(h.mem, h.cs, h.top, a) && ChunkOk(h.cs, h.base, h.top, a);
    }
    ListsFrame(h, h');
  }
}
