/** The longer moves of free and malloc: joining with free neighbours, taking a chunk off its bin. */
module MallocJoins {
  import opened Arith
  import opened MallocHeap
  import opened MallocLists
  import opened MallocSteps
  import opened MallocMoves
  import opened MallocOrder
  import opened MallocSound

  /** chunksize(p) of a chunk with its header in order, and its PREV_INUSE bit. */
  lemma HeadFacts(h: Heap, a: int)
    requires Inv(h) && a in h.cs && !h.cs[a].st.Limbo?
    ensures var w := Rd(h.mem, a + 4);
            && w == h.cs[a].size + (if PrevShown(h.cs, a) then 1 else 0)
            && w - w % 4 == h.cs[a].size && w % 2 == (if PrevShown(h.cs, a) then 1 else 0) && w % 4 < 2
    ensures a > 0 && a % 8 == 0 && h.cs[a].size >= MINSIZE
    ensures a != h.top ==> a + h.cs[a].size in h.cs && h.cs[a + h.cs[a].size].prev == a && h.cs[a].size % 8 == 0
    ensures h.cs[a].st == Top <==> a == h.top
  {
    assert HeadOk(h.mem, h.cs, a);
    assert ChunkOk(h.cs, h.base, h.top, a);
    hide Inv, PrevShown;
    HeadWord(h.cs[a].size, Rd(h.mem, a + 4));
  }

  lemma HeadWord(size: int, w: int)
    requires size % 4 == 0 && (w == size || w == size + 1)
    ensures w - w % 4 == size && w % 2 == w - size && w % 4 < 2
  {
    ModUnique(w, size / 4, 4, w - size);
    ModUnique(w, 2 * (size / 4), 2, w - size);
  }

  lemma LimboFacts(h: Heap, a: int)
    requires Inv(h) && a in h.cs && h.cs[a].st.Limbo?
    ensures a > 0 && a != h.top && h.cs[a].size >= MINSIZE && h.cs[a].size % 8 == 0 && a % 8 == 0
    ensures a + h.cs[a].size in h.cs && h.cs[a + h.cs[a].size].prev == a
    ensures a + h.cs[a].size == h.top <==> h.cs[a + h.cs[a].size].st == Top
  {
    assert ChunkOk(h.cs, h.base, h.top, a) && ChunkOk(h.cs, h.base, h.top, a + h.cs[a].size);
  }

  /** Where a binned chunk stands. */
  lemma Standing(h: Heap, p: int) returns (i: int, k: nat)
    requires Inv(h) && p in h.cs && IsFree(h.cs[p])
    ensures Stands(h, p, i, k) && i == h.cs[p].st.i
  {
    i := h.cs[p].st.i;
    k :| 0 <= k < |h.bins[i]| && h.bins[i][k] == p;
  }

  /** A chunk whose PREV_INUSE bit is clear follows a binned chunk, whose size stands before it. */
  lemma PrevFacts(h: Heap, p: int)
    requires Inv(h) && p in h.cs && LimboIn(h.cs, {p}) && !PrevShown(h.cs, p)
    ensures var q := h.cs[p].prev;
            && q in h.cs && q + h.cs[q].size == p && q != p && q != h.top && IsFree(h.cs[q]) && Rd(h.mem, p) == h.cs[q].size
            && (h.cs[q].prev in h.cs ==> !IsFree(h.cs[h.cs[q].prev]) && h.cs[q].prev != p && !h.cs[h.cs[q].prev].st.Limbo?)
  {
    var q := h.cs[p].prev;
    PrevOf(h, p);
    PrevOf(h, q);
    assert FootOk(h.mem, h.cs, h.top, q);
    if h.cs[q].prev in h.cs {
      assert FootOk(h.mem, h.cs, h.top, h.cs[q].prev);
    }
  }

  /** p is in limbo, shown in use or free as b says, and nothing free lies before it. */
  ghost predicate Pending(h: Heap, o: Outside, p: int, size: int, b: bool) {
    && Sound(h, o, {p}) && p in h.cs && h.cs[p].st == Limbo(b) && h.cs[p].size == size && p != h.top
    && (h.cs[p].prev in h.cs ==> !IsFree(h.cs[h.cs[p].prev]) && Shown(h.cs[h.cs[p].prev]))
  }

  /** A chunk in limbo joined with the free chunk q before it, or after it. */
  function Joined(h: Heap, first: int, q: int, i: int, k: nat): Heap
    requires q in h.cs && 0 <= i < |h.bins| && k < |h.bins[i]| && first in h.cs && first + h.cs[first].size in h.cs
  {
    Merged(Detached(h, q, i, k), first)
  }

  lemma DetachedFacts(h: Heap, p: int, i: int, k: nat)
    requires p in h.cs && 0 <= i < |h.bins| && k < |h.bins[i]|
    ensures var h' := Detached(h, p, i, k);
            && |h'.bins| == |h.bins| && h'.fast == h.fast && h'.base == h.base && h'.top == h.top && h'.mem == Unlinked(h.mem, p)
            && (forall a :: a in h'.cs <==> a in h.cs)
            && (forall a :: a in h.cs && a != p ==> h'.cs[a] == h.cs[a])
            && h'.cs[p] == h.cs[p].(st := Limbo(false))
  {
  }

  /** first and second, neighbours of h, are one chunk of h'. */
  ghost predicate IsJoined(h: Heap, h': Heap, first: int, second: int, st: Status) {
    && h'.fast == h.fast && h'.top == h.top && first in h.cs && second in h.cs && first in h'.cs
    && (forall a :: a in h'.cs <==> a in h.cs && a != second)
    && (forall a :: a in h.cs && a != second && a != first ==> a in h'.cs && h'.cs[a].st == h.cs[a].st && h'.cs[a].size == h.cs[a].size)
    && h'.cs[first] == Chunk(h.cs[first].size + h.cs[second].size, h.cs[first].prev, st)
  }

  lemma Detaching(h: Heap, o: Outside, p: int, q: int, i: int, k: nat) returns (h': Heap)
    requires Sound(h, o, {p}) && Stands(h, q, i, k)
    ensures q in h.cs && h' == Detached(h, q, i, k)
    ensures Sound(h', o, {p, q}) && Same(h, h') && h'.fast == h.fast && h'.top == h.top
    ensures forall a :: a in h'.cs <==> a in h.cs
    ensures forall a :: a in h.cs && a != q ==> h'.cs[a] == h.cs[a]
    ensures h'.cs[q] == h.cs[q].(st := Limbo(false))
  {
    SoundDetach(h, o, {p}, q, i, k);
    assert {p} + {q} == {p, q};
    DetachedFacts(h, q, i, k);
    h' := Detached(h, q, i, k);
  }

  /** q is the chunk after p. */
  lemma Merging(h: Heap, o: Outside, p: int, q: int) returns (h': Heap)
    requires Sound(h, o, {p, q}) && p in h.cs && q == p + h.cs[p].size && q in h.cs && p != h.top && p != q
    requires h.cs[p].st.Limbo? && h.cs[q].st.Limbo? && h.cs[p].size > 0 && h.cs[q].size > 0
    ensures h' == Merged(h, p) && Sound(h', o, {p}) && Same(h, h') && IsJoined(h, h', p, q, h.cs[q].st)
  {
    SoundMerge(h, o, {p, q}, p);
    MergedFacts(h, p);
    assert {p, q} - {q} + {p} == {p};
    h' := Merged(h, p);
  }

  /** Two neighbours made one: p in limbo and the binned chunk q before it. */
  lemma SoundJoinedBack(h: Heap, o: Outside, p: int, q: int, i: int, k: nat) returns (h': Heap)
    requires Sound(h, o, {p}) && p in h.cs && h.cs[p].st.Limbo? && Stands(h, q, i, k)
    requires q in h.cs && h.cs[q].st == Binned(i) && q + h.cs[q].size == p
    requires h.cs[p].size > 0 && h.cs[q].size > 0 && p != h.top && q != h.top
    ensures h' == Joined(h, q, q, i, k)
    ensures Sound(h', o, {q}) && Same(h, h') && IsJoined(h, h', q, p, h.cs[p].st)
  {
    hide Detached, Merged, Sound, Same, Stands;
    var h1 := Detaching(h, o, p, q, i, k);
    assert {p, q} == {q, p};
    h' := Merging(h1, o, q, p);
    SameAfter(h, h1, h');
  }

  lemma SameAfter(a: Heap, b: Heap, c: Heap)
    requires Same(a, b) && Same(b, c)
    ensures Same(a, c)
  {
    SameTrans(a, b, c);
  }

  /** The same with q after p. */
  lemma SoundJoinedNext(h: Heap, o: Outside, p: int, q: int, i: int, k: nat) returns (h': Heap)
    requires Sound(h, o, {p}) && p in h.cs && h.cs[p].st.Limbo? && Stands(h, q, i, k)
    requires q in h.cs && h.cs[q].st == Binned(i) && p + h.cs[p].size == q
    requires h.cs[p].size > 0 && h.cs[q].size > 0 && p != h.top && q != h.top
    ensures h' == Joined(h, p, q, i, k)
    ensures Sound(h', o, {p}) && Same(h, h') && IsJoined(h, h', p, q, Limbo(false))
  {
    hide Detached, Merged, Sound, Same, Stands;
    var h1 := Detaching(h, o, p, q, i, k);
    h' := Merging(h1, o, p, q);
    SameAfter(h, h1, h');
  }

  /** "consolidate backward" */
  lemma JoinBack(h: Heap, o: Outside, p: int) returns (q: int, i: int, k: nat, h': Heap)
    requires Sound(h, o, {p}) && p in h.cs && h.cs[p].st == Limbo(true) && !PrevShown(h.cs, p)
    ensures q == h.cs[p].prev && q in h.cs && q < p && q + h.cs[q].size == p && Rd(h.mem, p) == h.cs[q].size && Stands(h, q, i, k) && IsFree(h.cs[q])
    ensures h' == Joined(h, q, q, i, k)
    ensures Pending(h', o, q, h.cs[q].size + h.cs[p].size, true) && Same(h, h') && IsJoined(h, h', q, p, Limbo(true))
  {
    q := h.cs[p].prev;
    PrevFacts(h, p);
    HeadFacts(h, q);
    LimboFacts(h, p);
    i, k := Standing(h, q);
    hide Joined, Sound, SameLive, Live, Inv;
    h' := SoundJoinedBack(h, o, p, q, i, k);
  }

  /** What lies after a binned chunk is neither free nor top. */
  lemma AfterFree(h: Heap, q: int)
    requires Inv(h) && q in h.cs && IsFree(h.cs[q])
    ensures q != h.top && q + h.cs[q].size in h.cs && q + h.cs[q].size != h.top && !IsFree(h.cs[q + h.cs[q].size])
  {
    assert ChunkOk(h.cs, h.base, h.top, q) && FootOk(h.mem, h.cs, h.top, q);
  }

  lemma JoinedNextLoner(h: Heap, h': Heap, p: int, q: int)
    requires IsJoined(h, h', p, q, Limbo(false)) && q == p + h.cs[p].size && q + h.cs[q].size in h.cs && p != q && q < q + h.cs[q].size
    requires q + h.cs[q].size != h.top && !IsFree(h.cs[q + h.cs[q].size]) && p < q
    requires h.cs[p].prev in h.cs ==> h.cs[p].prev < p && !IsFree(h.cs[h.cs[p].prev]) && Shown(h.cs[h.cs[p].prev])
    ensures Loner(h', p)
    ensures h'.cs[p].prev in h'.cs ==> !IsFree(h'.cs[h'.cs[p].prev]) && Shown(h'.cs[h'.cs[p].prev])
  {
  }

  /** "consolidate forward" */
  lemma JoinNext(h: Heap, o: Outside, p: int, size: int) returns (i: int, k: nat, h': Heap)
    requires Pending(h, o, p, size, false) && p + size in h.cs && IsFree(h.cs[p + size])
    ensures Stands(h, p + size, i, k) && p in h.cs && h.cs[p].size == size
    ensures h' == Joined(h, p, p + size, i, k)
    ensures Pending(h', o, p, size + h.cs[p + size].size, false) && Loner(h', p)
    ensures Same(h, h') && h'.fast == h.fast && h'.top == h.top
  {
    var q := p + size;
    AfterFree(h, q);
    HeadFacts(h, q);
    LimboFacts(h, p);
    PrevOf(h, p);
    i, k := Standing(h, q);
    hide Joined, Sound, SameLive, Live, Inv, Same;
    h' := SoundJoinedNext(h, o, p, q, i, k);
    JoinedNextLoner(h, h', p, q);
    hide Loner, Stands;
  }

  lemma JoinedMem(h: Heap, first: int, q: int, i: int, k: nat)
    requires q in h.cs && 0 <= i < |h.bins| && k < |h.bins[i]| && first in h.cs && first + h.cs[first].size in h.cs
    ensures var h' := Joined(h, first, q, i, k);
            h'.mem == Unlinked(h.mem, q) && h'.fast == h.fast && h'.base == h.base && h'.top == h.top
  {
  }

  lemma NoFreeBefore(h: Heap, p: int)
    requires Inv(h) && p in h.cs && LimboIn(h.cs, {p}) && PrevShown(h.cs, p)
    ensures h.cs[p].prev in h.cs ==> !IsFree(h.cs[h.cs[p].prev]) && Shown(h.cs[h.cs[p].prev])
  {
  }

  /** The bit that tells whether the chunk after next is preceded by a free one. */
  lemma NextInuse(h: Heap, p: int, next: int)
    requires Inv(h) && p in h.cs && h.cs[p].st.Limbo? && LimboIn(h.cs, {p}) && next == p + h.cs[p].size && next in h.cs && next != h.top
    ensures next != p && !h.cs[next].st.Limbo? && next + h.cs[next].size in h.cs && h.cs[next].size >= MINSIZE
    ensures Rd(h.mem, next + h.cs[next].size + 4) % 2 == 1 <==> !IsFree(h.cs[next])
  {
    LimboFacts(h, p);
    HeadFacts(h, next);
    HeadFacts(h, next + h.cs[next].size);
  }

  /** p shown free to the chunk after it, which is not top. */
  lemma ShowFree(h: Heap, o: Outside, p: int, size: int)
    requires Pending(h, o, p, size, true) && p + size in h.cs && p + size != h.top
    ensures var h' := ShownAs(h, p, false);
            && Pending(h', o, p, size, false) && Same(h, h') && (!IsFree(h.cs[p + size]) ==> Loner(h', p))
            && h'.cs[p + size] == h.cs[p + size]
  {
    PrevOf(h, p);
    LimboFacts(h, p);
    SoundShown(h, o, {p}, p, false);
    hide Sound, SameLive, Live, Inv;
  }

  /** The first chunk of a fastbin in limbo, as `malloc_consolidate` picks it up. */
  lemma TakeFast(h: Heap, o: Outside, i: int)
    requires Sound(h, o, {}) && 0 <= i < NFASTBINS && h.fast[i] != []
    ensures var p := h.fast[i][0];
            p in h.cs && p > 0 && Rd(h.mem, p + 8) == FirstFast(h.fast[i][1..])
    ensures var p, h' := h.fast[i][0], FastTaken(h, i);
            && Sound(h', o, {p}) && Same(h, h') && p in h'.cs && h'.cs[p].st == Limbo(true) && h'.mem == h.mem
            && Rd(h.mem, p + 4) == h'.cs[p].size + (if PrevShown(h'.cs, p) then 1 else 0)
            && h'.fast == h.fast[i := h.fast[i][1..]] && h'.bins == h.bins && h'.top == h.top && h'.base == h.base
  {
    SoundFastTake(h, o, {}, i);
    var p := h.fast[i][0];
    HeadFacts(h, p);
    PrevOf(h, p);
    assert {} + {p} == {p};
    hide Sound, SameLive, Live, Inv;
  }

  function FirstFast(l: seq<int>): int { if l == [] then 0 else l[0] }

  lemma FastPositive(h: Heap, o: Outside, i: int)
    requires Sound(h, o, {}) && 0 <= i < |h.fast| && h.fast[i] != []
    ensures h.fast[i][0] > 0
  {
    assert FastOk(h.mem, h.cs, h.fast, i);
    assert ChunkOk(h.cs, h.base, h.top, h.fast[i][0]);
  }

  /** What the headers of a chunk to be coalesced and of the next chunk say. */
  lemma CoalesceStart(h: Heap, o: Outside, p: int)
    requires Sound(h, o, {p}) && p in h.cs && h.cs[p].st == Limbo(true)
    requires Rd(h.mem, p + 4) == h.cs[p].size + (if PrevShown(h.cs, p) then 1 else 0)
    ensures var w := Rd(h.mem, p + 4); w - w % 4 == h.cs[p].size && (w % 2 == 1 <==> PrevShown(h.cs, p))
    ensures var n := p + h.cs[p].size;
            n in h.cs && n > p && h.top in h.cs && Rd(h.mem, n + 4) - Rd(h.mem, n + 4) % 4 == h.cs[n].size >= MINSIZE
  {
    assert Inv(h) && h.top in h.cs;
    hide Sound, Inv, PrevShown;
    var n := p + h.cs[p].size;
    LimboFacts(h, p);
    HeadFacts(h, n);
    Eights(h.cs[p].size);
    HeadWord(h.cs[p].size, Rd(h.mem, p + 4));
  }

  /** A chunk with nothing left to join goes onto the unsorted list, by the writes of the C code. */
  lemma UnsortedMove(h: Heap, o: Outside, p: int, size: int)
    requires Pending(h, o, p, size, false) && Loner(h, p)
    ensures p in h.cs && |h.bins| == NBINS
    ensures var h', fwd := Unsorted(h, p), Rd(h.mem, UNSORTED + 8);
            && Sound(h', o, {}) && Same(h, h') && h'.fast == h.fast && h'.base == h.base && h'.top == h.top
            && h'.mem == h.mem[p + 12 := UNSORTED][p + 8 := fwd][UNSORTED + 8 := p][fwd + 12 := p][p + 4 := size + 1][p + size := size]
            && |h'.bins| == NBINS && h'.bins[1] == [p] + h.bins[1] && p in h'.cs && h'.cs[p].size == size
  {
    SoundUnsorted(h, o, {p}, p);
    assert {p} - {p} == {};
    UnsortedWrites(h, p, Rd(h.mem, UNSORTED + 8));
    UnsortedFacts(h, p);
  }

  lemma BackwardStart(h: Heap, o: Outside, p: int, w: int)
    requires Sound(h, o, {p}) && p in h.cs && h.cs[p].st == Limbo(true) && w == Rd(h.mem, p + 4)
    requires w % 2 == 1 <==> PrevShown(h.cs, p)
    ensures w % 2 == 1 ==> Pending(h, o, p, h.cs[p].size, true)
  {
    LimboFacts(h, p);
    if w % 2 == 1 {
      NoFreeBefore(h, p);
    }
  }

  lemma JoinedKeeps(h: Heap, h': Heap, q: int, p: int)
    requires IsJoined(h, h', q, p, Limbo(true)) && q < p
    ensures forall a :: a in h.cs && a > p ==> a in h'.cs && h'.cs[a].st == h.cs[a].st && h'.cs[a].size == h.cs[a].size
  {
  }

  /** The state `malloc_init_state` sets up. */
  lemma SoundEmpty(h: Heap, o: Outside)
    requires h.cs == map[] && h.bins == seq(NBINS, _ => []) && h.fast == seq(NFASTBINS, _ => []) && h.top == UNSORTED
    requires forall j :: 1 <= j < NBINS ==> Rd(h.mem, BinAt(j) + 8) == BinAt(j) && Rd(h.mem, BinAt(j) + 12) == BinAt(j)
    requires Rd(h.mem, UNSORTED + 4) == 0
    requires o.binmap == [0, 0, 0, 0] && HEAP_FLOOR <= o.start == o.brk < ADDRESSES
    ensures Sound(h, o, {}) && Live(h) == {}
  {
    forall i | 1 <= i < NBINS
      ensures BinOk(h.mem, h.cs, h.bins, i) && h.bins[i] == []
    {
    }
    forall i | 0 <= i < NFASTBINS
      ensures FastOk(h.mem, h.cs, h.fast, i)
    {
    }
  }

  /** The bytes of the free chunk before p, and of the free chunk or top after it; 0 if there is none. */
  function SizeBefore(h: Heap, p: int): int
    requires p in h.cs
  {
    if h.cs[p].prev in h.cs && IsFree(h.cs[h.cs[p].prev]) then h.cs[h.cs[p].prev].size else 0
  }

  function SizeAfter(h: Heap, p: int): int
    requires p in h.cs
  {
    var n := p + h.cs[p].size;
    if n in h.cs && (n == h.top || IsFree(h.cs[n])) then h.cs[n].size else 0
  }

  function JoinedSize(h: Heap, p: int): int
    requires p in h.cs
  {
    SizeBefore(h, p) + h.cs[p].size + SizeAfter(h, p)
  }

  /** p and what was free on both sides are one chunk of h': top if top was next, else the first unsorted one. */
  ghost predicate Coalesced(h: Heap, h': Heap, p: int) {
    && p in h.cs
    && var q := p - SizeBefore(h, p);
       && q in h'.cs && h'.cs[q].size == JoinedSize(h, p)
       && if p + h.cs[p].size == h.top then h'.top == q else |h'.bins| == NBINS && h'.bins[1] != [] && h'.bins[1][0] == q
  }

  /** The state of p itself does not matter to its neighbours. */
  lemma RestatedCoalesces(h: Heap, o: Outside, h': Heap, p: int, st: Status)
    requires Sound(h, o, {}) && p in h.cs && h.cs[p].size > 0 && Coalesced(Restated(h, p, st), h', p)
    ensures Coalesced(h, h', p) && JoinedSize(h, p) == JoinedSize(Restated(h, p, st), p)
  {
    PrevOf(h, p);
    hide Sound, Inv;
  }

  lemma NothingBefore(h: Heap, o: Outside, p: int)
    requires Sound(h, o, {p}) && p in h.cs && PrevShown(h.cs, p)
    ensures SizeBefore(h, p) == 0
  {
    NoFreeBefore(h, p);
  }

  lemma AfterIs(h: Heap, p: int, n: int)
    requires p in h.cs && n == p + h.cs[p].size && n in h.cs
    ensures SizeAfter(h, p) == if n == h.top || IsFree(h.cs[n]) then h.cs[n].size else 0
  {
  }

  lemma CoalescedIs(h: Heap, h': Heap, p: int, q: int, size: int)
    requires p in h.cs && q == p - SizeBefore(h, p) && size == SizeBefore(h, p) + h.cs[p].size + SizeAfter(h, p)
    requires q in h'.cs && h'.cs[q].size == size
    requires if p + h.cs[p].size == h.top then h'.top == q else |h'.bins| == NBINS && h'.bins[1] != [] && h'.bins[1][0] == q
    ensures Coalesced(h, h', p) && size == JoinedSize(h, p)
  {
  }

  /** p is no longer live; all other live blocks are kept. */
  ghost predicate Freed(h: Heap, h': Heap, p: int) {
    Live(h') == Live(h) - {p} && forall a :: a in Live(h) && a != p ==> LiveKept(h, h', a)
  }

  lemma FreedThen(a: Heap, b: Heap, c: Heap, p: int)
    requires Freed(a, b, p) && Same(b, c)
    ensures Freed(a, c, p)
  {
    forall x | x in Live(a) && x != p
      ensures LiveKept(a, c, x)
    {
      assert LiveKept(a, b, x) && LiveKept(b, c, x);
    }
  }

  /** A live block about to be freed: its size, and where its moves lead. */
  lemma FreeStart(h: Heap, o: Outside, p: int)
    requires Sound(h, o, {}) && p in Live(h)
    ensures p in h.cs && p > 0 && p != h.top && h.cs[p].st == InUse && h.cs[p].size % 8 == 0 && h.cs[p].size >= MINSIZE
    ensures var w := Rd(h.mem, p + 4); w - w % 4 == h.cs[p].size && w == h.cs[p].size + (if PrevShown(h.cs, p) then 1 else 0)
    ensures var h' := Restated(h, p, Limbo(true));
            && Sound(h', o, {p}) && Freed(h, h', p) && h'.cs[p].st == Limbo(true) && h'.cs[p].size == h.cs[p].size
            && (PrevShown(h'.cs, p) <==> PrevShown(h.cs, p))
  {
    HeadFacts(h, p);
    PrevOf(h, p);
    SoundUnsettle(h, o, {}, p);
    assert {} + {p} == {p};
  }

  /** What `free` does with a small block. */
  lemma FreeFastMove(h: Heap, o: Outside, p: int)
    requires Sound(h, o, {}) && p in Live(h) && p in h.cs && h.cs[p].size <= 75
    ensures p in h.cs && p > 0 && 0 <= h.cs[p].size / 8 - 2 < 8 && h.cs[p].size <= 72 && |h.fast| == NFASTBINS
    ensures var i, h' := h.cs[p].size / 8 - 2, FastPushed(h, p, h.cs[p].size / 8 - 2);
            && Sound(h', o, {}) && Freed(h, h', p)
            && h'.mem == h.mem[p + 8 := FirstFast(h.fast[i])] && h'.fast == h.fast[i := [p] + h.fast[i]]
            && h'.bins == h.bins && h'.base == h.base && h'.top == h.top
  {
    HeadFacts(h, p);
    SoundFastPush(h, o, {}, p);
    hide Inv, LiveKept;
  }
}
