/**
 What the invariant means to those who do not see the ghost state: the assertions of the
 `do_check` routines of shared/malloc.c, read from memory alone, and what a client may rely on.
 */
module MallocChecks {
  import B = MallocBins
  import opened Arith
  import opened MallocHeap
  import opened MallocLists
  import opened MallocSteps
  import opened MallocMoves
  import opened MallocOrder
  import opened MallocSound
  import opened MallocJoins
  import opened MallocTakes

  function ChunkSizeAt(mem: Memory, p: int): int { Rd(mem, p + 4) - Rd(mem, p + 4) % 4 }
  predicate PrevInuseAt(mem: Memory, p: int) { Rd(mem, p + 4) % 2 == 1 }
  predicate InuseAt(mem: Memory, p: int) { PrevInuseAt(mem, p + ChunkSizeAt(mem, p)) }

  /** `do_check_chunk` */
  predicate CheckChunk(mem: Memory, top: int, sbrked: int, p: int) {
    var sz, maxAddress := ChunkSizeAt(mem, p), top + ChunkSizeAt(mem, top);
    if p != top then p >= maxAddress - sbrked && p + sz <= top
    else sz >= MINSIZE && PrevInuseAt(mem, p)
  }

  /** `do_check_free_chunk` */
  predicate CheckFreeChunk(mem: Memory, top: int, p: int) {
    var sz := ChunkSizeAt(mem, p);
    var next := p + sz;
    && !InuseAt(mem, p) && sz >= MINSIZE && sz % 8 == 0 && (p + 8) % 8 == 0
    && Rd(mem, next) == sz && PrevInuseAt(mem, p) && (next == top || InuseAt(mem, next))
    && Rd(mem, Rd(mem, p + 8) + 12) == p && Rd(mem, Rd(mem, p + 12) + 8) == p
  }

  /** `do_check_inuse_chunk` */
  predicate CheckInuseChunk(mem: Memory, top: int, p: int) {
    var next := p + ChunkSizeAt(mem, p);
    && InuseAt(mem, p)
    && (!PrevInuseAt(mem, p) ==>
      var prv := p - Rd(mem, p);
      prv + ChunkSizeAt(mem, prv) == p && CheckFreeChunk(mem, top, prv))
    && (if next == top then PrevInuseAt(mem, next) && ChunkSizeAt(mem, next) >= MINSIZE
        else !InuseAt(mem, next) ==> CheckFreeChunk(mem, top, next))
  }

  /** What `do_check_malloc_state` asserts of one chunk of bin i. */
  predicate CheckBinned(mem: Memory, binmap: seq<nat>, i: int, p: int)
    requires 1 <= i < NBINS && |binmap| == 4
  {
    var size := ChunkSizeAt(mem, p);
    i >= 2 ==>
      && B.TestBit(binmap[i / 32], i % 32)
      && 0 <= size < WORD && B.BinIndex(size) == i
      && (Rd(mem, p + 12) == BinAt(i) || ChunkSizeAt(mem, Rd(mem, p + 12)) >= size)
  }

  /** The size and the two bits of any chunk, read from memory. */
  lemma Reads(h: Heap, o: Outside, a: int)
    requires Sound(h, o, {}) && a in h.cs
    ensures ChunkSizeAt(h.mem, a) == h.cs[a].size && (PrevInuseAt(h.mem, a) <==> PrevShown(h.cs, a))
    ensures a != h.top ==> a + h.cs[a].size in h.cs && (InuseAt(h.mem, a) <==> !IsFree(h.cs[a]))
    ensures a > 0 && a % 8 == 0 && h.cs[a].size >= MINSIZE
  {
    HeadFacts(h, a);
    if a != h.top {
      HeadFacts(h, a + h.cs[a].size);
    }
  }

  lemma ChunkChecked(h: Heap, o: Outside, a: int)
    requires Sound(h, o, {}) && a in h.cs
    ensures CheckChunk(h.mem, h.top, o.brk - o.start, a)
  {
    Reads(h, o, a);
    TopSize(h, o);
    TopShown(h);
    assert ChunkOk(h.cs, h.base, h.top, a) && Apart(h.cs, a, h.top);
  }

  lemma FreeChecked(h: Heap, o: Outside, a: int)
    requires Sound(h, o, {}) && a in h.cs && IsFree(h.cs[a])
    ensures CheckFreeChunk(h.mem, h.top, a)
  {
    Reads(h, o, a);
    BinnedAlone(h, o, a);
    Reads(h, o, a + h.cs[a].size);
    var i, k := Standing(h, a);
    Neighbours(h, a, i, k);
    MutualLinks(h.mem, BinAt(i), h.bins[i], k) by {
      assert BinOk(h.mem, h.cs, h.bins, i);
    }
    assert PrevShown(h.cs, a);
    hide Sound, Inv;
  }

  /** p->fd->bk == p and p->bk->fd == p */
  lemma MutualLinks(mem: Memory, h: int, l: seq<int>, k: nat)
    requires Linked(mem, h, l) && k < |l|
    ensures Rd(mem, NextIn(h, l, k) + 12) == l[k] && Rd(mem, PrevIn(h, l, k) + 8) == l[k]
  {
    if k + 1 < |l| {
      assert LinkAt(mem, h, l, k + 1);
    }
    if k > 0 {
      assert LinkAt(mem, h, l, k - 1);
    }
  }

  lemma InuseChecked(h: Heap, o: Outside, a: int)
    requires Sound(h, o, {}) && a in h.cs && a != h.top && !IsFree(h.cs[a])
    ensures CheckInuseChunk(h.mem, h.top, a)
  {
    Reads(h, o, a);
    var next := a + h.cs[a].size;
    Reads(h, o, next);
    if !PrevShown(h.cs, a) {
      assert LimboIn(h.cs, {a});
      PrevFacts(h, a);
      Reads(h, o, h.cs[a].prev);
      FreeChecked(h, o, h.cs[a].prev);
    }
    if next == h.top {
      TopShown(h);
    } else if IsFree(h.cs[next]) {
      FreeChecked(h, o, next);
    }
    hide Sound, CheckFreeChunk;
  }

  lemma BinChecked(h: Heap, o: Outside, i: int, k: nat)
    requires Sound(h, o, {}) && 1 <= i < NBINS && |h.bins| == NBINS && k < |h.bins[i]|
    ensures |o.binmap| == 4 && CheckBinned(h.mem, o.binmap, i, h.bins[i][k])
  {
    var p := h.bins[i][k];
    BinEntry(h, o, i, k);
    if i >= 2 {
      assert RightBin(h.cs, p) && SortedBin(h.cs, h.bins, i) && Marked(o.binmap, i);
      if k > 0 {
        BinEntry(h, o, i, k - 1);
      }
    }
  }

  /** What `do_check_malloc_state` asserts of one chunk of fastbin i; 7 is the index of the largest size, 72. */
  predicate CheckFast(mem: Memory, top: int, i: int, p: int, next: int) {
    i <= 7 && CheckInuseChunk(mem, top, p) && ChunkSizeAt(mem, p) / 8 - 2 == i && Rd(mem, p + 8) == next
  }

  lemma FastChecked(h: Heap, o: Outside, i: int, k: nat)
    requires Sound(h, o, {}) && 0 <= i < NFASTBINS && |h.fast| == NFASTBINS && k < |h.fast[i]|
    ensures CheckFast(h.mem, h.top, i, h.fast[i][k], if k + 1 < |h.fast[i]| then h.fast[i][k + 1] else 0)
  {
    var p := h.fast[i][k];
    assert FastOk(h.mem, h.cs, h.fast, i) && FastLinkAt(h.mem, h.fast[i], k);
    assert p in h.cs && ChunkOk(h.cs, h.base, h.top, p);
    Reads(h, o, p);
    InuseChecked(h, o, p);
    hide CheckInuseChunk, Inv;
  }

  /** `do_check_malloced_chunk`, and `do_check_remalloced_chunk` for a chunk off a fastbin. */
  lemma MallocedChecked(h: Heap, seen: Heap, h': Heap, o: Outside, r: int, nb: int, lastRemainder: int, lastRemainder': int)
    requires Served(h, seen, h', r - 8, nb, lastRemainder, lastRemainder') && Gives(h, h', r, nb) && r != 0 && Sound(h', o, {})
    ensures var p := r - 8; var sz := ChunkSizeAt(h'.mem, p);
            && CheckInuseChunk(h'.mem, h'.top, p) && sz % 8 == 0 && sz >= MINSIZE && r % 8 == 0 && nb <= sz < nb + MINSIZE
            && p in seen.cs && (!seen.cs[p].st.Fast? ==> PrevInuseAt(h'.mem, p))
  {
    var p := r - 8;
    assert ChunkOk(h'.cs, h'.base, h'.top, p);
    Reads(h', o, p);
    InuseChecked(h', o, p);
    hide CheckInuseChunk, Sound;
  }

  /** Every heap malloc and free leave behind passes the checks of `do_check_malloc_state`. */
  lemma StateChecked(h: Heap, o: Outside)
    requires Sound(h, o, {}) && h.cs != map[]
    ensures |h.bins| == NBINS && |o.binmap| == 4
    ensures forall a :: a in h.cs ==> CheckChunk(h.mem, h.top, o.brk - o.start, a)
    ensures forall a :: a in h.cs && a != h.top ==> if IsFree(h.cs[a]) then CheckFreeChunk(h.mem, h.top, a) else CheckInuseChunk(h.mem, h.top, a)
    ensures forall i, k :: 1 <= i < NBINS && 0 <= k < |h.bins[i]| ==> CheckBinned(h.mem, o.binmap, i, h.bins[i][k])
    ensures forall a :: a in h.cs && IsFree(h.cs[a]) ==> 1 <= h.cs[a].st.i < NBINS && a in h.bins[h.cs[a].st.i]
    ensures |h.fast| == NFASTBINS && forall i, k :: 0 <= i < NFASTBINS && 0 <= k < |h.fast[i]| ==>
                                       CheckFast(h.mem, h.top, i, h.fast[i][k], if k + 1 < |h.fast[i]| then h.fast[i][k + 1] else 0)
  {
    MapLength(h, o);
    hide CheckChunk, CheckFreeChunk, CheckInuseChunk, CheckBinned, CheckFast;
    forall i, k | 0 <= i < NFASTBINS && 0 <= k < |h.fast[i]|
      ensures CheckFast(h.mem, h.top, i, h.fast[i][k], if k + 1 < |h.fast[i]| then h.fast[i][k + 1] else 0)
    {
      FastChecked(h, o, i, k);
    }
    forall a | a in h.cs
      ensures CheckChunk(h.mem, h.top, o.brk - o.start, a)
      ensures a != h.top ==> if IsFree(h.cs[a]) then CheckFreeChunk(h.mem, h.top, a) else CheckInuseChunk(h.mem, h.top, a)
    {
      ChunkChecked(h, o, a);
      if a != h.top {
        if IsFree(h.cs[a]) {
          FreeChecked(h, o, a);
        } else {
          InuseChecked(h, o, a);
        }
      }
    }
    forall i, k | 1 <= i < NBINS && 0 <= k < |h.bins[i]|
      ensures CheckBinned(h.mem, o.binmap, i, h.bins[i][k])
    {
      BinChecked(h, o, i, k);
    }
  }

  /** Chunk sizes add up to what `sbrk` has granted, but for the bytes skipped to align the first chunk. */
  lemma TotalSize(h: Heap, o: Outside)
    requires Sound(h, o, {}) && h.cs != map[]
    ensures h.base in h.cs
    ensures var l := Walk(h.cs, h.base, h.top, h.base);
            && (forall k :: 0 <= k < |l| ==> l[k] in h.cs) && (forall b :: b in l <==> b in h.cs)
            && SizeSum(h.cs, l) == (o.brk - o.start) - (h.base - o.start) && 0 <= h.base - o.start < 8
  {
    ArenaTiled(h);
  }

  /** The bytes a client of block m may use. */
  ghost predicate Usable(h: Heap, m: int, w: int) {
    m - 8 in Live(h) && m <= w < m - 8 + h.cs[m - 8].size + 4
  }

  /** A block handed out holds the bytes asked for, lies in the arena, and shares none with another. */
  lemma BlockIsNew(h: Heap, h': Heap, o: Outside, r: int, bytes: nat)
    requires !B.OutOfRange(bytes) && Gives(h, h', r, B.Request2Size(bytes)) && r != 0 && Sound(h', o, {})
    ensures forall w :: r <= w < r + bytes ==> Usable(h', r, w) && o.start <= w < o.brk
    ensures forall m, w :: m != r && Usable(h', m, w) ==> !Usable(h', r, w)
    ensures forall m, w :: Usable(h, m, w) ==> m != r && Usable(h', m, w) && Rd(h'.mem, w) == Rd(h.mem, w)
  {
    B.Request2SizeLeast(bytes);
    var p := r - 8;
    assert p in Live(h');
    assert ChunkOk(h'.cs, h'.base, h'.top, p) && Apart(h'.cs, p, h'.top);
    assert h'.top in h'.cs && ChunkOk(h'.cs, h'.base, h'.top, h'.top);
    forall m, w | m != r && Usable(h', m, w)
      ensures !Usable(h', r, w)
    {
      ChunksApart(h'.cs, h'.base, h'.top, p, m - 8);
    }
    forall m, w | Usable(h, m, w)
      ensures m != r && Usable(h', m, w) && Rd(h'.mem, w) == Rd(h.mem, w)
    {
      assert LiveKept(h, h', m - 8) && InPayload(h.cs, m - 8, w);
    }
  }

  /** A client that writes a word of its own block breaks nothing and changes no other block. */
  lemma ClientWrites(h: Heap, o: Outside, m: int, w: int, v: int)
    requires Sound(h, o, {}) && Usable(h, m, w)
    ensures Sound(Poked(h, w, v), o, {}) && Live(Poked(h, w, v)) == Live(h)
    ensures forall a :: a in Live(h) && a != m - 8 ==> LiveKept(h, Poked(h, w, v), a)
  {
    assert ChunkOk(h.cs, h.base, h.top, m - 8);
    Poke(h, m - 8, w, v);
    OrderFrame(h, Poked(h, w, v), o.binmap);
    assert w >= HEAP_FLOOR;
    hide Inv, Ordered;
  }
}
