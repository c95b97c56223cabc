/**
 `malloc`, `free` and what they call in shared/malloc.c, over the kernel's `sbrk`.

 The methods read and write memory as the C code does.  `cs`, `bins` and `fast` are ghost: they
 say which chunks and lists are in memory, and follow each write.
 */
module Malloc {
  import opened Arith
  import opened MallocHeap
  import opened MallocLists
  import opened MallocSteps
  import opened MallocMoves
  import opened MallocOrder
  import opened MallocSound
  import opened MallocJoins
  import opened MallocAges
  import opened MallocTakes
  import B = MallocBins

  const TRIM_THRESHOLD: int := 256 * 1024
  const CONSOLIDATION_THRESHOLD: int := 128 * 1024
  const PAGE: int := 4096
  const FAILURE: int := -1

  /** What a request can cost the system beyond its own size. */
  const SLACK: int := MINSIZE + 2 * PAGE + 8

  /** Where `free` puts chunk p: a small one on its fastbin; any other joined with its neighbours, and if that is large the fastbins are emptied. */
  ghost predicate PutBack(h: Heap, h': Heap, p: int, hadFast: bool, hasFast: bool) {
    && p in h.cs
    && var size := h.cs[p].size;
       if size <= 72 then
         0 <= size / 8 - 2 < |h.fast| && h'.fast == h.fast[size / 8 - 2 := [p] + h.fast[size / 8 - 2]] && h'.bins == h.bins && hasFast
       else if JoinedSize(h, p) < CONSOLIDATION_THRESHOLD then
         Coalesced(h, h', p) && h'.fast == h.fast && hasFast == hadFast
       else
         !hasFast && (!hadFast ==> Coalesced(h, h', p))
  }

  class Allocator {
    // malloc_state; its bins array is in memory, at BINS
    var mem: Memory
    var maxFast: int             // 72, with ANYCHUNKS in bit 0 and FASTCHUNKS in bit 1; 0 before use
    var fastbins: seq<int>
    var top: int
    var lastRemainder: int
    var binmap: seq<nat>
    var sbrked: int
    // the kernel's sbrk
    var curptr: int
    const heapStart: int
    const heapEnd: int
    // what is in memory
    ghost var cs: Chunks
    ghost var bins: seq<seq<int>>
    ghost var fast: seq<seq<int>>
    ghost var base: int

    ghost function H(): Heap
      reads this
    {
      Heap(mem, cs, bins, fast, base, top)
    }

    ghost function O(): Outside
      reads this
    {
      Outside(binmap, heapStart, curptr)
    }

    /** Between the C writes of one move: the chunks and lists are still those of h. */
    ghost predicate Ahead(h: Heap)
      reads this
    {
      Sound(h, O(), {}) && Books() && H() == h.(mem := mem)
    }

    ghost predicate AnyFast()
      reads this
    {
      exists i :: 0 <= i < |fast| && fast[i] != []
    }

    /** Everything the allocator keeps true between its steps; chunks of s may be in limbo. */
    ghost predicate Core(s: set<int>)
      reads this
    {
      Sound(H(), O(), s) && Books()
    }

    ghost predicate Books()
      reads this
    {
      && maxFast in {72, 73, 75}
      && sbrked == curptr - heapStart && curptr <= heapEnd < ADDRESSES && Bounded()
    }

    predicate Bounded() { WellPlaced(heapStart, heapEnd) }

    ghost predicate FastHeads()
      reads this
    {
      |fastbins| == NFASTBINS && |fast| == NFASTBINS && forall i :: 0 <= i < NFASTBINS ==> fastbins[i] == FirstFast(fast[i])
    }

    /** All zero, as the C static is before the first call. */
    ghost predicate Untouched()
      reads this
    {
      && maxFast == 0 && top == 0 && lastRemainder == 0 && sbrked == 0 && curptr == heapStart
      && fastbins == seq(NFASTBINS, _ => 0) && binmap == [0, 0, 0, 0]
      && (forall w :: w < HEAP_FLOOR ==> Rd(mem, w) == 0)
      && cs == map[] && fast == seq(NFASTBINS, _ => []) && bins == seq(NBINS, _ => [])
      && HEAP_FLOOR <= heapStart <= heapEnd < ADDRESSES && Bounded()
    }

    ghost predicate Valid()
      reads this
    {
      if maxFast == 0 then Untouched()
      else Core({}) && FastHeads() && (AnyFast() ==> HaveFast()) && (!HaveAny() ==> NothingFreed(cs))
    }

    predicate HaveAny() reads this { maxFast % 2 == 1 }
    predicate HaveFast() reads this { (maxFast / 2) % 2 == 1 }

    function ChunkSize(p: int): int reads this { Rd(mem, p + 4) - Rd(mem, p + 4) % 4 }
    predicate PrevInuse(p: int) reads this { Rd(mem, p + 4) % 2 == 1 }

    constructor (heapStart: int, heapEnd: int)
      requires HEAP_FLOOR <= heapStart <= heapEnd < ADDRESSES && WellPlaced(heapStart, heapEnd)
      ensures Valid() && Live(H()) == {}
    {
      this.heapStart, this.heapEnd := heapStart, heapEnd;
      mem, maxFast, top, lastRemainder, sbrked, curptr := map[], 0, 0, 0, 0, heapStart;
      fastbins, binmap := seq(NFASTBINS, _ => 0), [0, 0, 0, 0];
      cs, fast, bins, base := map[], seq(NFASTBINS, _ => []), seq(NBINS, _ => []), 0;
    }

    /** `sbrk` of kernel/mem.c: contiguous, and it never gives back. */
    method Sbrk(diff: int) returns (r: int)
      modifies this`curptr
      ensures if 0 <= diff && old(curptr) + diff <= heapEnd then r == old(curptr) && curptr == old(curptr) + diff
              else r == FAILURE && curptr == old(curptr)
    {
      var s := curptr;
      var c := s + diff;
      if c < curptr || c > heapEnd {
        return FAILURE;
      }
      curptr := c;
      return s;
    }

    /** The macro `unlink`. */
    method Unlink(p: int)
      modifies this`mem
      ensures mem == Unlinked(old(mem), p)
    {
      var fd := Rd(mem, p + 8);
      var bk := Rd(mem, p + 12);
      mem := mem[fd + 12 := bk];
      mem := mem[bk + 8 := fd];
    }

    // ----- free: a chunk in limbo finds its place

    /** Consolidate backward, with what `free` and `malloc_consolidate` have in common. */
    method ConsolidateBackward(p0: int, size0: int) returns (p: int, size: int)
      requires Core({p0}) && p0 in cs && cs[p0].st == Limbo(true) && cs[p0].size == size0
      requires PrevInuse(p0) <==> PrevShown(cs, p0)
      modifies this`mem, this`cs, this`bins
      ensures Core({p}) && Pending(H(), O(), p, size, true) && p == p0 - SizeBefore(old(H()), p0) && p + size == p0 + size0
      ensures Same(old(H()), H()) && fast == old(fast)
      ensures forall a :: a in old(cs) && a > p0 ==> a in cs && cs[a].st == old(cs)[a].st && cs[a].size == old(cs)[a].size
    {
      p, size := p0, size0;
      ghost var h := H();
      hide Sound, Same, Joined, PrevShown, Inv, IsJoined;
      BackwardStart(h, O(), p, Rd(mem, p + 4));
      SameRefl(h);
      if PrevInuse(p) {
        NothingBefore(h, O(), p);
      }
      if !PrevInuse(p) {
        ghost var q, i, k, h' := JoinBack(h, O(), p);
        var prevsize := Rd(mem, p);
        size := size + prevsize;
        p := p - prevsize;
        Unlink(p);
        cs, bins := h'.cs, h'.bins;
        assert H() == h' by {
          JoinedMem(h, q, q, i, k);
        }
        JoinedKeeps(h, h', q, p0);
      }
    }

    /** Clear the inuse bit of the next chunk, which is not top, and consolidate forward if it is free. */
    method ConsolidateForward(p: int, size0: int, nextchunk: int, nextsize: int) returns (size: int)
      requires Core({p}) && Pending(H(), O(), p, size0, true) && nextchunk == p + size0 && nextchunk != top
      requires nextchunk in cs && nextsize == cs[nextchunk].size
      modifies this`mem, this`cs, this`bins
      ensures Core({p}) && Pending(H(), O(), p, size, false) && Loner(H(), p)
      ensures size == size0 + (if IsFree(old(cs)[nextchunk]) then nextsize else 0)
      ensures Same(old(H()), H()) && fast == old(fast)
    {
      ghost var h := H();
      NextInuse(h, p, nextchunk);
      var nextinuse := PrevInuse(nextchunk + nextsize);
      ShowFree(h, O(), p, size0);
      hide Sound, Same, Loner;
      ghost var h1 := ShownAs(h, p, false);
      mem := mem[nextchunk + 4 := nextsize];
      cs := h1.cs;
      assert H() == h1;
      size := size0;
      if !nextinuse {
        JoinForward(p, size0, nextchunk);
        size := size + nextsize;
        SameAfter(h, h1, H());
      }
    }

    method JoinForward(p: int, ghost size: int, nextchunk: int)
      requires Core({p}) && Pending(H(), O(), p, size, false) && nextchunk == p + size && nextchunk in cs && IsFree(cs[nextchunk])
      modifies this`mem, this`cs, this`bins
      ensures Core({p}) && Pending(H(), O(), p, size + old(cs)[nextchunk].size, false) && Loner(H(), p)
      ensures Same(old(H()), H()) && fast == old(fast)
    {
      ghost var h := H();
      ghost var i, k, h' := JoinNext(h, O(), p, size);
      JoinedMem(h, p, nextchunk, i, k);
      hide Sound, Same, Joined, Loner;
      Unlink(nextchunk);
      cs, bins := h'.cs, h'.bins;
      assert H() == h';
    }

    /** At the front of the unsorted list, with header and footer. */
    method PlaceUnsorted(p: int, size: int)
      requires Core({p}) && Pending(H(), O(), p, size, false) && Loner(H(), p)
      modifies this`mem, this`cs, this`bins
      ensures Core({}) && Same(old(H()), H()) && fast == old(fast)
      ensures |bins| == NBINS && bins[1] == [p] + old(bins)[1] && p in cs && cs[p].size == size
    {
      ghost var h := H();
      hide Sound, Same, Loner, Inv, Unsorted, Pending;
      UnsortedMove(h, O(), p, size);
      var bck := UNSORTED;
      var fwd := Rd(mem, bck + 8);
      mem := mem[p + 12 := bck];
      mem := mem[p + 8 := fwd];
      mem := mem[bck + 8 := p];
      mem := mem[fwd + 12 := p];
      mem := mem[p + 4 := size + 1];
      mem := mem[p + size := size];
      ghost var h' := Unsorted(h, p);
      cs, bins := h'.cs, h'.bins;
      assert H() == h';
    }

    /** Into top, which is next. */
    method JoinTop(p: int, size: int, nextsize: int)
      requires Core({p}) && Pending(H(), O(), p, size, true) && p + size == top && top in cs && nextsize == cs[top].size
      modifies this`mem, this`cs, this`top
      ensures Core({}) && Same(old(H()), H()) && fast == old(fast)
      ensures top == p && p in cs && cs[p].size == size + nextsize
    {
      ghost var h := H();
      SoundMergeTop(h, O(), {p}, p);
      assert {p} - {p} == {};
      hide Sound, Same, Inv;
      mem := mem[p + 4 := size + nextsize + 1];
      ghost var h' := MergedTop(h, p);
      cs := h'.cs;
      top := p;
      assert H() == h';
    }

    /** What `free` and `malloc_consolidate` do with a chunk that is not for a fastbin. */
    method Coalesce(p0: int) returns (size: int)
      requires Core({p0}) && p0 in cs && cs[p0].st == Limbo(true)
      requires Rd(mem, p0 + 4) == cs[p0].size + (if PrevShown(cs, p0) then 1 else 0)
      modifies this`mem, this`cs, this`bins, this`top
      ensures Core({}) && Same(old(H()), H()) && fast == old(fast)
      ensures Coalesced(old(H()), H(), p0) && size == JoinedSize(old(H()), p0)
    {
      ghost var h := H();
      CoalesceStart(h, O(), p0);
      hide Sound, Same, Loner, Inv, PrevShown, SizeBefore, SizeAfter, JoinedSize, Coalesced;
      size := ChunkSize(p0);
      var nextchunk := p0 + size;
      var nextsize := ChunkSize(nextchunk);
      AfterIs(h, p0, nextchunk);
      var p;
      p, size := ConsolidateBackward(p0, size);
      ghost var h1 := H();
      if nextchunk != top {
        size := ConsolidateForward(p, size, nextchunk, nextsize);
        ghost var h2 := H();
        PlaceUnsorted(p, size);
        SameAfter(h, h1, h2);
        SameAfter(h, h2, H());
        CoalescedIs(h, H(), p0, p, size);
      } else {
        JoinTop(p, size, nextsize);
        size := size + nextsize;
        SameAfter(h, h1, H());
        CoalescedIs(h, H(), p0, p, size);
      }
    }

    /** One chunk off fastbin i, coalesced; the next one is returned. */
    method CoalesceFirst(p: int, ghost i: int) returns (nextp: int)
      requires Core({}) && 0 <= i < NFASTBINS && |fast| == NFASTBINS && fast[i] != [] && p == fast[i][0]
      modifies this`mem, this`cs, this`bins, this`fast, this`top
      ensures Core({}) && fast == old(fast)[i := old(fast)[i][1..]] && nextp == FirstFast(fast[i])
      ensures Same(old(H()), H())
    {
      ghost var h := H();
      hide Sound, Same, Inv, FastTaken;
      TakeFast(h, O(), i);
      nextp := Rd(mem, p + 8);
      ghost var h1 := FastTaken(h, i);
      cs, fast := h1.cs, h1.fast;
      assert H() == h1;
      var _ := Coalesce(p);
      SameAfter(h, h1, H());
    }

    /** `malloc_consolidate` of one fastbin: its chunks leave it one by one. */
    method EmptyFastbin(i: int)
      requires Core({}) && FastHeads() && 0 <= i < NFASTBINS
      modifies this`mem, this`cs, this`bins, this`fast, this`top, this`fastbins
      ensures Core({}) && FastHeads() && fast == old(fast)[i := []] && Same(old(H()), H())
    {
      ghost var h0 := H();
      hide Sound, Same, Inv;
      SameRefl(h0);
      var p := fastbins[i];
      if fast[i] != [] {
        TakeFast(h0, O(), i);
      }
      if p != 0 {
        fastbins := fastbins[i := 0];
        while p != 0
          invariant Core({}) && |fast| == NFASTBINS && fast == old(fast)[i := fast[i]]
          invariant p == FirstFast(fast[i]) && fastbins == old(fastbins)[i := 0]
          invariant Same(h0, H())
          decreases |fast[i]|
        {
          ghost var h := H();
          p := CoalesceFirst(p, i);
          SameAfter(h0, h, H());
        }
        if fast[i] != [] {
          FastPositive(H(), O(), i);
        }
      }
    }

    /** `malloc_init_state` */
    method InitState()
      requires Untouched()
      modifies this`mem, this`maxFast, this`top, this`base
      ensures Valid() && maxFast == 72 && cs == map[] && Same(old(H()), H())
    {
      for i := 1 to NBINS
        invariant forall j :: 1 <= j < i ==> Rd(mem, BinAt(j) + 8) == BinAt(j) && Rd(mem, BinAt(j) + 12) == BinAt(j)
        invariant Rd(mem, UNSORTED + 4) == 0
      {
        var bin := BinAt(i);
        mem := mem[bin + 12 := bin];
        mem := mem[bin + 8 := bin];
      }
      maxFast := 72;
      top := UNSORTED;
      SoundEmpty(H(), O());
    }

    /** `malloc_consolidate`: empties the fastbins, or initialises the state on the first call. */
    method Consolidate()
      requires Valid() && (maxFast == 0 || HaveFast())
      modifies this`mem, this`cs, this`bins, this`fast, this`top, this`base, this`fastbins, this`maxFast
      ensures Valid() && maxFast != 0 && !HaveFast() && Same(old(H()), H())
      ensures old(maxFast) == 0 ==> cs == map[] && maxFast == 72
      ensures old(maxFast) != 0 ==> maxFast == 73
    {
      if maxFast != 0 {
        ghost var h0 := H();
        SameRefl(h0);
        maxFast := maxFast - 2;
        var maxfb := maxFast / 8 - 2;
        var fb := 0;
        while fb <= maxfb
          invariant 0 <= fb <= 8 && maxfb == 7 && maxFast == 73
          invariant Core({}) && FastHeads() && (forall i :: 0 <= i < fb ==> fast[i] == [])
          invariant Same(h0, H())
        {
          hide Sound, Same;
          ghost var h := H();
          EmptyFastbin(fb);
          SameAfter(h0, h, H());
          fb := fb + 1;
        }
      } else {
        InitState();
      }
    }

    /** `sYSTRIm`, with top_pad 0: `sbrk` refuses to shrink, so nothing is given back. */
    method Trim()
      requires Core({})
      modifies this`curptr
      ensures curptr == old(curptr)
    {
      var topSize := ChunkSize(top);
      var extra := ((topSize - MINSIZE + (PAGE - 1)) / PAGE - 1) * PAGE;
      if extra > 0 {
        var currentBrk := Sbrk(0);
        if currentBrk == top + topSize {
          var _ := Sbrk(-extra);
          var newBrk := Sbrk(0);
          assert currentBrk - newBrk == 0;
        }
      }
    }

    /** After a large block was freed: the fastbins are emptied, and top offered back to the system. */
    method Shrink()
      requires Valid() && maxFast != 0
      modifies this`maxFast, this`mem, this`cs, this`bins, this`top, this`base, this`fast, this`fastbins, this`curptr
      ensures Valid() && maxFast != 0 && curptr == old(curptr) && Same(old(H()), H())
      ensures !HaveFast() && (!old(HaveFast()) ==> H() == old(H()))
    {
      ghost var h := H();
      hide Sound, Same;
      SameRefl(h);
      if HaveFast() {
        Consolidate();
      }
      if ChunkSize(top) >= TRIM_THRESHOLD {
        Trim();
      }
    }

    /** A small block, onto the fastbin of its size. */
    method FreeFast(p: int, size: int)
      requires Valid() && p in Live(H()) && p in cs && size == cs[p].size && size <= maxFast
      modifies this`maxFast, this`mem, this`fastbins, this`cs, this`fast
      ensures Valid() && maxFast == 75 && Freed(old(H()), H(), p)
      ensures 2 <= size / 8 < |old(fast)| + 2 && fast == old(fast)[size / 8 - 2 := [p] + old(fast)[size / 8 - 2]] && bins == old(bins)
      ensures PutBack(old(H()), H(), p, old(HaveFast()), HaveFast())
    {
      ghost var h := H();
      hide Sound, Live, Freed, FastPushed;
      FreeFastMove(h, O(), p);
      maxFast := 75;
      var i := size / 8 - 2;
      mem := mem[p + 8 := fastbins[i]];
      fastbins := fastbins[i := p];
      ghost var h' := FastPushed(h, p, i);
      cs, fast := h'.cs, h'.fast;
      assert H() == h';
    }

    /** Any other block, joined with its free neighbours. */
    method FreeChunk(p: int)
      requires Valid() && p in Live(H()) && p in cs && maxFast != 0 && cs[p].size > 72
      modifies this`maxFast, this`mem, this`cs, this`bins, this`top, this`base, this`fast, this`fastbins, this`curptr
      ensures Valid() && maxFast != 0 && curptr == old(curptr) && Freed(old(H()), H(), p)
      ensures PutBack(old(H()), H(), p, old(HaveFast()), HaveFast())
    {
      ghost var h := H();
      hide Sound, Same, Live, Freed, Coalesced, JoinedSize;
      FreeStart(h, O(), p);
      maxFast := maxFast + 1 - maxFast % 2;
      ghost var h1 := Restated(h, p, Limbo(true));
      cs := h1.cs;
      assert H() == h1;
      var size := Coalesce(p);
      ghost var h2 := H();
      RestatedCoalesces(h, O(), h2, p, Limbo(true));
      FreedThen(h, h1, h2, p);
      if size >= CONSOLIDATION_THRESHOLD {
        Shrink();
        FreedThen(h, h2, H(), p);
      }
    }

    /** `fREe` */
    method Free(m: int)
      requires Valid()
      requires m == 0 || m - 8 in Live(H())
      modifies this
      ensures Valid() && curptr == old(curptr) && lastRemainder == old(lastRemainder)
      ensures m == 0 ==> H() == old(H())
      ensures m != 0 ==> Freed(old(H()), H(), m - 8) && PutBack(old(H()), H(), m - 8, old(HaveFast()), HaveFast())
    {
      if m != 0 {
        var p := m - 8;
        FreeStart(H(), O(), p);
        var size := ChunkSize(p);
        hide Sound, Same, Inv, LiveKept, Freed;
        if size <= maxFast {
          FreeFast(p, size);
        } else {
          FreeChunk(p);
        }
      }
    }

    // ----- malloc

    /** The last chunk of a bin off it: `bin->bk = bck; bck->fd = bin`. */
    method UnlinkLast(bin: int, victim: int)
      requires bin == Rd(mem, victim + 8)
      modifies this`mem
      ensures mem == Unlinked(old(mem), victim)
    {
      var bck := Rd(mem, victim + 12);
      mem := mem[bin + 12 := bck];
      mem := mem[bck + 8 := bin];
    }

    /** A chunk just unlinked, handed out whole. */
    method Exhaust(victim: int, size: int, ghost nb: int, ghost h: Heap, ghost i: int, ghost k: nat)
      requires Ahead(h) && Stands(h, victim, i, k) && mem == Unlinked(h.mem, victim)
      requires victim in cs && size == cs[victim].size && nb <= size < nb + MINSIZE
      modifies this`mem, this`cs, this`bins
      ensures Core({}) && Gives(h, H(), victim + 8, nb) && CutFrom(h, H(), victim)
      ensures victim in cs && cs[victim].size == size
    {
      hide Sound, Gives, Taken, Unlinked, Stands, CutFrom;
      ghost var h' := SoundTaken(h, O(), victim, i, k, nb);
      InuseBit(h, O(), victim, i, k);
      var next := victim + size;
      mem := mem[next + 4 := OrInuse(Rd(mem, next + 4))];
      cs, bins := h'.cs, h'.bins;
      assert H() == h';
    }

    /** A chunk cut: nb bytes handed out, the remainder alone on the unsorted list. */
    method SplitOff(victim: int, size: int, nb: int, ghost h: Heap, ghost i: int, ghost k: nat) returns (remainder: int)
      requires Ahead(h) && Stands(h, victim, i, k) && mem == (if i == 1 then h.mem else Unlinked(h.mem, victim))
      requires h.bins[1] == (if i == 1 then [victim] else [])
      requires victim in cs && size == cs[victim].size && nb % 8 == 0 && MINSIZE <= nb && nb + MINSIZE <= size
      modifies this`mem, this`cs, this`bins
      ensures Core({}) && Gives(h, H(), victim + 8, nb) && remainder == victim + nb && CutFrom(h, H(), victim)
      ensures victim in cs && cs[victim].size == nb && |bins| == NBINS && bins[1] == [remainder]
    {
      hide Sound, Gives, Unlinked, Stands, CutFrom;
      ghost var h' := SoundPart(h, O(), victim, i, k, nb, mem);
      var remainderSize := size - nb;
      remainder := victim + nb;
      mem := mem[UNSORTED + 8 := remainder];
      mem := mem[UNSORTED + 12 := remainder];
      mem := mem[remainder + 8 := UNSORTED];
      mem := mem[remainder + 12 := UNSORTED];
      mem := mem[victim + 4 := nb + 1];
      mem := mem[remainder + 4 := remainderSize + 1];
      mem := mem[remainder + remainderSize := remainderSize];
      cs, bins := h'.cs, h'.bins;
      assert H() == h';
    }

    /** A request for a small bin: every chunk of it fits exactly. */
    method FromSmallBin(nb: int) returns (r: int)
      requires Core({}) && nb % 8 == 0 && MINSIZE <= nb && B.InSmallBinRange(nb)
      modifies this`mem, this`cs, this`bins
      ensures Core({}) && Gives(old(H()), H(), r, nb)
      ensures r == 0 ==> H() == old(H()) && bins[nb / 8] == []
      ensures r != 0 ==> Best(old(H()), r - 8, nb) && NextOut(old(H()), r - 8) && CutFrom(old(H()), H(), r - 8)
      ensures r != 0 ==> old(cs)[r - 8].size == nb && LeavesRest(old(H()), H(), r - 8, nb, lastRemainder, lastRemainder)
    {
      ghost var h := H();
      hide Sound, Gives, Taken, Stands, Best, CutFrom, NextOut;
      var bin := BinAt(nb / 8);
      var victim := Rd(mem, bin + 12);
      LastLinks(h, O(), nb / 8);
      if victim != bin {
        ghost var h' := SmallTaken(h, O(), nb, victim);
        var bck := Rd(mem, victim + 12);
        mem := mem[victim + nb + 4 := OrInuse(Rd(mem, victim + nb + 4))];
        mem := mem[bin + 12 := bck];
        mem := mem[bck + 8 := bin];
        cs, bins := h'.cs, h'.bins;
        assert H() == h';
        NoRest(h, h', victim, nb, lastRemainder);
        return victim + 8;
      }
      SameRefl(h);
      GivesNothing(h, h, h, nb);
      return 0;
    }

    /** Where an unsorted chunk goes in the bin of its size: first if it is small, else by decreasing size. */
    method FindPlace(victim: int, size: int) returns (i: int, bck: int, fwd: int, ghost j: nat)
      requires Core({victim}) && Ready(H(), victim) && Loner(H(), victim)
      requires size == cs[victim].size && size % 8 == 0 && MINSIZE <= size < ADDRESSES
      ensures 2 <= i < NBINS && i == B.BinIndex(size) && |bins| == NBINS && Fits(H(), victim, i, j) && Placed(cs, bins[i], size, j)
      ensures bck == Before(BinAt(i), bins[i], j) && fwd == AtOrEnd(BinAt(i), bins[i], j)
    {
      ghost var h, o := H(), O();
      B.BinIndexMonotone(size, size);
      assert B.BinIndex(size) == if B.InSmallBinRange(size) then size / 8 else B.LargeBinIndex(size);
      hide B.BinIndex, B.LargeBinIndex, Ready, Fits;
      if B.InSmallBinRange(size) {
        i := size / 8;
        bck := BinAt(i);
        fwd := Rd(mem, bck + 8);
        j := 0;
        FitsSmall(h, o, victim);
        assert BinOk(h.mem, h.cs, h.bins, i);
        assert Placed(cs, bins[i], size, j);
      } else {
        i := B.LargeBinIndex(size);
        bck, fwd, j := FindLargePlace(victim, size, i);
      }
    }

    method FindLargePlace(victim: int, size: int, i: int) returns (bck: int, fwd: int, ghost j: nat)
      requires Core({victim}) && victim in cs && victim != top && cs[victim].st.Limbo? && Loner(H(), victim)
      requires size == cs[victim].size && size % 8 == 0 && 16 <= size < ADDRESSES && i == B.BinIndex(size) && 2 <= i < NBINS && !B.InSmallBinRange(size)
      ensures |bins| == NBINS && Fits(H(), victim, i, j) && Placed(cs, bins[i], size, j)
      ensures bck == Before(BinAt(i), bins[i], j) && fwd == AtOrEnd(BinAt(i), bins[i], j)
    {
      ghost var h, o := H(), O();
      ghost var l := bins[i];
      bck := BinAt(i);
      fwd := Rd(mem, bck + 8);
      j := 0;
      BinStart(h, o, victim, i);
      hide Sound, Inv, Loner, Fits, B.BinIndex, B.LargeBinIndex, WellPlaced, Placed, B.InSmallBinRange, LimboIn, Books;
      FitsLarge(h, o, victim, 0);
      if l != [] {
        BinnedHead(h, victim, i, 0);
        BinnedHead(h, victim, i, |l| - 1);
      }
      if fwd != bck {
        if size < Rd(mem, Rd(mem, bck + 12) + 4) {
          fwd := bck;
          bck := Rd(mem, bck + 12);
          j := |l|;
          FitsLarge(h, o, victim, j);
          PlacedEnd(cs, l, size);
        } else {
          bck, fwd, j := WalkLarge(victim, size, i, fwd);
        }
      } else {
        PlacedEnd(cs, l, size);
      }
    }

    /** The first chunk of the bin that is not larger than the victim. */
    method Descend(victim: int, size: int, i: int, first: int) returns (fwd: int, ghost j: nat)
      requires Inv(H()) && LimboIn(cs, {victim}) && (victim in cs ==> Loner(H(), victim)) && size % 2 == 0
      requires |bins| == NBINS && 1 <= i < NBINS && bins[i] != [] && first == bins[i][0]
      requires bins[i][|bins[i]| - 1] in cs && cs[bins[i][|bins[i]| - 1]].size < size
      ensures j < |bins[i]| && fwd == bins[i][j] && fwd in cs && cs[fwd].size <= size
      ensures j > 0 ==> bins[i][j - 1] in cs && cs[bins[i][j - 1]].size > size
      ensures Rd(mem, fwd + 12) == PrevIn(BinAt(i), bins[i], j)
    {
      ghost var h, l := H(), bins[i];
      hide Inv, Loner, LimboIn;
      fwd, j := first, 0;
      var size1 := OrInuse(size);
      BinnedHead(h, victim, i, j);
      while size1 < Rd(mem, fwd + 4)
        invariant j < |l| && fwd == l[j] && l[j] in cs && Rd(mem, fwd + 4) == cs[l[j]].size + 1
        invariant j > 0 ==> l[j - 1] in cs && cs[l[j - 1]].size > size
        decreases |l| - j
      {
        BinnedHead(h, victim, i, j);
        fwd := Rd(mem, fwd + 8);
        j := j + 1;
        BinnedHead(h, victim, i, j);
      }
      BinnedHead(h, victim, i, j);
    }

    method WalkLarge(victim: int, size: int, i: int, first: int) returns (bck: int, fwd: int, ghost j: nat)
      requires Core({victim}) && victim in cs && victim != top && cs[victim].st.Limbo? && Loner(H(), victim)
      requires size == cs[victim].size && size % 8 == 0 && 16 <= size < ADDRESSES && i == B.BinIndex(size) && 2 <= i < NBINS && !B.InSmallBinRange(size)
      requires |bins| == NBINS && bins[i] != [] && first == bins[i][0]
      requires bins[i][|bins[i]| - 1] in cs && cs[bins[i][|bins[i]| - 1]].size < size
      ensures |bins| == NBINS && Fits(H(), victim, i, j) && Placed(cs, bins[i], size, j)
      ensures bck == Before(BinAt(i), bins[i], j) && fwd == AtOrEnd(BinAt(i), bins[i], j)
    {
      ghost var h, o := H(), O();
      BinStart(h, o, victim, i);
      Eights(size);
      hide Sound, Inv, Loner, Fits, B.BinIndex, B.LargeBinIndex, WellPlaced, Placed, B.InSmallBinRange, LimboIn, Books;
      fwd, j := Descend(victim, size, i, first);
      bck := Rd(mem, fwd + 12);
      FitsLarge(h, o, victim, j);
      PlacedWalk(cs, bins[i], size, j);
    }

    /** A chunk taken off the unsorted list, into the bin of its size. */
    method PlaceInBin(victim: int, size: int) returns (ghost j: nat)
      requires Core({victim}) && Ready(H(), victim) && Loner(H(), victim)
      requires size == cs[victim].size && size % 8 == 0 && MINSIZE <= size < ADDRESSES
      modifies this`mem, this`cs, this`bins, this`binmap
      ensures Core({}) && Same(old(H()), H()) && |bins| == NBINS && 2 <= B.BinIndex(size) < NBINS
      ensures cs == old(cs)[victim := old(cs)[victim].(st := Binned(B.BinIndex(size)))]
      ensures var i := B.BinIndex(size);
              && |old(bins)| == NBINS && Placed(old(cs), old(bins)[i], size, j) && bins == old(bins)[i := With(old(bins)[i], j, victim)]
    {
      ghost var h := H();
      var i, bck, fwd;
      hide B.BinIndex, Ready, Loner, Fits, Same, Sound, Marked, B.SetBit;
      i, bck, fwd, j := FindPlace(victim, size);
      SoundMarked(h, O(), {victim}, i);
      binmap := binmap[i / 32 := B.SetBit(binmap[i / 32], i % 32)];
      ghost var h' := SoundPlaced(h, O(), victim, i, j);
      mem := mem[victim + 12 := bck];
      mem := mem[victim + 8 := fwd];
      mem := mem[fwd + 12 := victim];
      mem := mem[bck + 8 := victim];
      cs, bins := h'.cs, h'.bins;
      assert H() == h';
    }

    /** The unsorted chunk just unlinked, into its bin. */
    method SortOne(victim: int, size: int, ghost h: Heap)
      requires Ahead(h) && |bins| == NBINS && bins[1] != [] && victim == bins[1][|bins[1]| - 1] && mem == Unlinked(h.mem, victim)
      requires victim in cs && size == cs[victim].size && size % 8 == 0 && MINSIZE <= size < ADDRESSES
      requires Stands(h, victim, 1, |bins[1]| - 1)
      modifies this`mem, this`cs, this`bins, this`binmap
      ensures Core({}) && Same(h, H()) && |bins| == NBINS && bins[1] == old(bins)[1][..|old(bins)[1]| - 1]
      ensures Resorted(h, H()) && SameLines(h, H())
      ensures forall m :: 2 <= m < NBINS && m != B.BinIndex(size) ==> bins[m] == old(bins)[m]
    {
      hide Sound, Same, Loner, Ready, Unlinked, Stands, B.BinIndex, Resorted, SameLines;
      ListsFree(h, O(), {});
      ghost var h1 := DetachedLoner(h, O(), victim, 1, |bins[1]| - 1);
      DetachedBins(h, victim, |bins[1]| - 1);
      ghost var c := cs[victim];
      cs, bins := h1.cs, h1.bins;
      assert H() == h1;
      ghost var j := PlaceInBin(victim, size);
      SameAfter(h, h1, H());
      assert cs == h.cs[victim := c.(st := Binned(B.BinIndex(size)))];
      ResortedOne(h, H(), victim, B.BinIndex(size));
      LinesSorted(h, H(), victim, B.BinIndex(size), j);
    }

    /** One unsorted chunk: used if it is right for the request, else put into its bin. */
    method OneUnsorted(nb: int, victim: int) returns (r: int)
      requires Core({}) && nb % 8 == 0 && MINSIZE <= nb
      requires |bins| == NBINS && bins[1] != [] && victim == bins[1][|bins[1]| - 1]
      requires !FastFit(H(), nb) && (B.InSmallBinRange(nb) ==> bins[nb / 8] == [])
      modifies this`mem, this`cs, this`bins, this`binmap, this`lastRemainder
      ensures Core({}) && Gives(old(H()), H(), r, nb)
      ensures r != 0 ==> Picked(old(H()), r - 8, nb, old(lastRemainder)) && CutFrom(old(H()), H(), r - 8)
      ensures r != 0 ==> LeavesRest(old(H()), H(), r - 8, nb, old(lastRemainder), lastRemainder)
      ensures r == 0 ==> Kept(old(H()), H(), nb, lastRemainder) && lastRemainder == old(lastRemainder)
      ensures r == 0 ==> |bins| == NBINS && bins[1] == old(bins)[1][..|old(bins)[1]| - 1]
      ensures r == 0 && B.InSmallBinRange(nb) ==> bins[nb / 8] == old(bins)[nb / 8]
    {
      hide Picked, Sound, Gives, Inv, Same, Best, RestServes, FastFit, Loner, Ready, Unlinked, Stands, B.BinIndex, CutFrom, Resorted, LeavesRest, Kept;
      ghost var h, o, k := H(), O(), |bins[1]| - 1;
      UnsortedStart(h, o, nb);
      var bck := Rd(mem, victim + 12);
      var size := ChunkSize(victim);
      if B.InSmallBinRange(nb) && bck == UNSORTED && victim == lastRemainder && size > nb + MINSIZE {
        PickedRest(h, nb, lastRemainder);
        lastRemainder := SplitOff(victim, size, nb, h, 1, k);
        RestLeft(h, H(), victim, nb, victim);
        return victim + 8;
      }
      UnlinkLast(UNSORTED, victim);
      if size == nb {
        if B.InSmallBinRange(nb) {
          NextOutOf(h, o, victim, nb);
        }
        PickedExact(h, victim, nb, lastRemainder);
        Exhaust(victim, size, nb, h, 1, k);
        NoRest(h, H(), victim, nb, lastRemainder);
        return victim + 8;
      }
      SortOne(victim, size, h);
      if B.InSmallBinRange(nb) {
        OtherBin(nb, size);
      }
      NotTheRest(h, victim, nb, lastRemainder, bck);
      KeptOne(h, o, H(), O(), nb, lastRemainder);
      SameRefl(h);
      GivesNothing(h, h, H(), nb);
      r := 0;
    }

    /** The unsorted list, from its end: until a chunk is right for the request or none is left. */
    method ProcessUnsorted(nb: int) returns (r: int, ghost seen: Heap)
      requires Core({}) && nb % 8 == 0 && MINSIZE <= nb && |bins| == NBINS
      requires !FastFit(H(), nb) && (B.InSmallBinRange(nb) ==> bins[nb / 8] == [])
      modifies this`mem, this`cs, this`bins, this`binmap, this`lastRemainder
      ensures Core({}) && Gives(old(H()), H(), r, nb)
      ensures r != 0 ==> Served(old(H()), seen, H(), r - 8, nb, old(lastRemainder), lastRemainder) && Kept(old(H()), seen, nb, old(lastRemainder))
      ensures r == 0 ==> Kept(old(H()), H(), nb, lastRemainder) && lastRemainder == old(lastRemainder)
      ensures r == 0 ==> |bins| == NBINS && bins[1] == [] && (B.InSmallBinRange(nb) ==> bins[nb / 8] == [])
    {
      ghost var h0 := H();
      hide Sound, Inv, Gives, Same, Picked, Stands, CutFrom, Resorted, Served, Kept, RestServes, LeavesRest, FastFit;
      SameRefl(h0);
      KeptSame(h0, nb, lastRemainder);
      LastLinks(H(), O(), 1);
      r, seen := 0, h0;
      var victim := Rd(mem, UNSORTED + 12);
      while victim != UNSORTED
        invariant Core({}) && |bins| == NBINS && Same(h0, H()) && (B.InSmallBinRange(nb) ==> bins[nb / 8] == [])
        invariant victim == Rd(mem, UNSORTED + 12) && Kept(h0, H(), nb, lastRemainder) && lastRemainder == old(lastRemainder)
        invariant !FastFit(H(), nb)
        decreases |bins[1]|
      {
        seen := H();
        LastLinks(seen, O(), 1);
        ghost var lastRemainder0 := lastRemainder;
        r := OneUnsorted(nb, victim);
        GivesAfter(h0, seen, H(), r, nb);
        if r != 0 {
          ServedHere(seen, H(), r - 8, nb, lastRemainder0, lastRemainder);
          ServedAfter(h0, seen, seen, H(), r - 8, nb, lastRemainder0, lastRemainder);
          return;
        }
        NothingGiven(h0, H(), nb);
        KeptThen(h0, seen, H(), nb, lastRemainder);
        SameFast(seen, H(), nb);
        victim := Rd(mem, UNSORTED + 12);
      }
      LastLinks(H(), O(), 1);
      GivesNothing(h0, h0, H(), nb);
    }

    /** The chunk found, off its bin: whole, or cut. */
    method TakeLarge(victim: int, size: int, nb: int, ghost i: int, ghost k: nat)
      requires Core({}) && |bins| == NBINS && bins[1] == [] && nb % 8 == 0 && MINSIZE <= nb <= size && !B.InSmallBinRange(nb)
      requires 2 <= i < NBINS && Stands(H(), victim, i, k) && victim in cs && size == cs[victim].size
      modifies this`mem, this`cs, this`bins
      ensures Core({}) && Gives(old(H()), H(), victim + 8, nb) && CutFrom(old(H()), H(), victim)
      ensures LeavesRest(old(H()), H(), victim, nb, lastRemainder, lastRemainder)
    {
      hide Sound, Gives, Unlinked, Stands, CutFrom, B.InSmallBinRange;
      ghost var h := H();
      var remainderSize := size - nb;
      Unlink(victim);
      if remainderSize < MINSIZE {
        Exhaust(victim, size, nb, h, i, k);
        NoRest(h, H(), victim, nb, lastRemainder);
      } else {
        var _ := SplitOff(victim, size, nb, h, i, k);
      }
    }

    /** The bin of a large request, from its smallest chunk: the first that is big enough. */
    method ScanLarge(nb: int, idx: int) returns (r: int)
      requires Core({}) && |bins| == NBINS && bins[1] == [] && !B.InSmallBinRange(nb)
      requires nb % 8 == 0 && MINSIZE <= nb < WORD && idx == B.BinIndex(nb) && 2 <= idx < NBINS
      modifies this`mem, this`cs, this`bins
      ensures Core({}) && Gives(old(H()), H(), r, nb)
      ensures r != 0 ==> Best(old(H()), r - 8, nb) && NextOut(old(H()), r - 8) && CutFrom(old(H()), H(), r - 8)
      ensures r != 0 ==> LeavesRest(old(H()), H(), r - 8, nb, lastRemainder, lastRemainder)
      ensures r == 0 ==> H() == old(H()) && NoFitUpTo(cs, idx, nb)
    {
      hide CutFrom, LeavesRest, NextOut, Sound, Gives, Best, Unlinked, Stands, Same, B.BinIndex, Books, NoFitUpTo, B.InSmallBinRange;
      ghost var h, o, k := H(), O(), |bins[idx]|;
      var bin := BinAt(idx);
      var victim := Rd(mem, bin + 12);
      LastLinks(h, o, idx);
      while victim != bin
        invariant Core({}) && H() == h && O() == o
        invariant |bins| == NBINS && 0 <= k <= |bins[idx]| && victim == Before(bin, bins[idx], k)
        invariant forall j :: k <= j < |bins[idx]| && bins[idx][j] in cs ==> cs[bins[idx][j]].size < nb
        decreases k
      {
        BinEntry(h, o, idx, k - 1);
        var size := ChunkSize(victim);
        if size >= nb {
          BestInBin(h, o, idx, k - 1, nb);
          NextOutIn(h, o, victim, idx, k - 1, nb);
          TakeLarge(victim, size, nb, idx, k - 1);
          return victim + 8;
        }
        victim := Rd(mem, victim + 12);
        k := k - 1;
      }
      if k > 0 {
        BinEntry(h, o, idx, k - 1);
      }
      NoFitInBin(h, o, idx, nb);
      SameRefl(h);
      GivesNothing(h, h, h, nb);
      r := 0;
    }

    /** The next word of the bitmap that is not 0: `do ... while ((map = av->binmap[block]) == 0)`. */
    method NextBlock(block0: int, ghost lo: int) returns (more: bool, block: int, map_: nat)
      requires Core({}) && 0 <= block0 < 4 && lo >= 1 && Hollow(bins, lo, 32 * (block0 + 1))
      ensures !more ==> Hollow(bins, lo, NBINS)
      ensures more ==> block0 < block < 3 && |binmap| == 4 && map_ == binmap[block] && map_ != 0 && Hollow(bins, lo, 32 * block)
    {
      hide Hollow, Inv, ArenaOk, FastSized, LimboIn, Sized;
      block := block0 + 1;
      if block >= 3 {
        HollowWhole(bins, lo, 32 * block);
        return false, block, 0;
      }
      map_ := binmap[block];
      while map_ == 0
        invariant block0 < block < 3 && map_ == binmap[block] && Hollow(bins, lo, 32 * block)
        decreases 3 - block
      {
        RestOfBlock(bins, binmap, block, 0, lo);
        block := block + 1;
        if block >= 3 {
          HollowWhole(bins, lo, 32 * block);
          return false, block, 0;
        }
        map_ := binmap[block];
      }
      more := true;
    }

    /** "Advance to bin with set bit": `while ((bit & map) == 0)`. */
    method NextBit(block: int, e0: nat, bin0: int, ghost lo: int) returns (e: nat, bin: int)
      requires Core({}) && 0 <= block < 4 && e0 <= 32 && lo >= 1 && lo < 32 * block + e0 && Hollow(bins, lo, 32 * block + e0)
      requires |binmap| == 4 && !(Bit(e0) > binmap[block] || Bit(e0) == 0)
      ensures e0 <= e < 32 && block < 3 && bin == bin0 + 8 * (e - e0) && Hollow(bins, lo, 32 * block + e)
    {
      ghost var j := BitToFind(bins, binmap, block, e0);
      hide Inv, ArenaOk, FastSized, LimboIn, Sized, Bit;
      e, bin := e0, bin0;
      while !B.TestBit(binmap[block], e)
        invariant e0 <= e <= j && bin == bin0 + 8 * (e - e0) && Hollow(bins, lo, 32 * block + e)
        decreases j - e
      {
        NotMarked(bins, binmap, block, e);
        bin := bin + 8;
        e := e + 1;
      }
    }

    /** The bins after that of the request, by the bitmap; e stands for the C variable `bit`, which is 1 << e. */
    method ScanBinmap(nb: int, idx0: int) returns (r: int)
      requires Core({}) && |bins| == NBINS && bins[1] == [] && |binmap| == 4
      requires nb % 8 == 0 && MINSIZE <= nb < WORD && idx0 == B.BinIndex(nb) && 2 <= idx0 < NBINS && NoFitUpTo(cs, idx0, nb)
      modifies this`mem, this`cs, this`bins, this`binmap, this`lastRemainder
      ensures Core({}) && Gives(old(H()), H(), r, nb)
      ensures r != 0 ==> Best(old(H()), r - 8, nb) && NextOut(old(H()), r - 8) && CutFrom(old(H()), H(), r - 8)
      ensures r != 0 ==> LeavesRest(old(H()), H(), r - 8, nb, old(lastRemainder), lastRemainder)
      ensures r == 0 ==> H() == old(H()) && NoFit(cs, nb) && lastRemainder == old(lastRemainder)
    {
      ghost var h := H();
      hide CutFrom, LeavesRest, NextOut, Sound, Gives, Best, Unlinked, Stands, Same, NoFit, NoFitUpTo, Hollow, B.BinIndex, Bit, B.TestBit, B.ClearBit;
      var idx := idx0 + 1;
      var bin := BinAt(idx);
      var block := idx / 32;
      var map_ := binmap[block];
      var e := idx % 32;
      HollowStart(h, O(), idx0);
      SameRefl(h);
      GivesNothing(h, h, h, nb);
      while true
        invariant Core({}) && H() == h && |binmap| == 4 && lastRemainder == old(lastRemainder)
        invariant 0 <= block < 4 && 0 <= e <= 32 && idx == 32 * block + e && idx0 < idx <= NBINS
        invariant bin == BinAt(idx) && map_ == binmap[block] && Hollow(bins, idx0, idx)
        decreases NBINS - idx
      {
        if Bit(e) > map_ || Bit(e) == 0 {
          var more;
          RestOfBlockSound(h, O(), block, e, idx0);
          more, block, map_ := NextBlock(block, idx0);
          if !more {
            NoFitAtAll(h, O(), idx0, nb);
            return 0;
          }
          bin := BinAt(32 * block);
          e := 0;
          BitOne();
        }
        e, bin := NextBit(block, e, bin, idx0);
        idx := 32 * block + e;
        LastLinks(h, O(), idx);
        var victim := Rd(mem, bin + 12);
        if victim == bin {
          SoundUnmarked(h, O(), block, e);
          map_ := B.ClearBit(map_, e);
          binmap := binmap[block := map_];
          HollowNext(bins, idx0, idx);
          bin := bin + 8;
          e := e + 1;
          idx := idx + 1;
        } else {
          ghost var k := |bins[idx]| - 1;
          BestAbove(h, O(), idx0, idx, nb);
          BinEntry(h, O(), idx, k);
          NextOutIn(h, O(), victim, idx, k, nb);
          TakeFirst(nb, idx, victim, k);
          return victim + 8;
        }
      }
    }

    /** The last chunk of the bin found, whole or cut. */
    method TakeFirst(nb: int, idx: int, victim: int, ghost k: nat)
      requires Core({}) && Stands(H(), victim, idx, k) && idx >= 2 && |bins| == NBINS && bins[1] == []
      requires nb % 8 == 0 && MINSIZE <= nb && victim in cs && cs[victim].size >= nb && IsFree(cs[victim])
      requires Rd(mem, victim + 8) == BinAt(idx) && ChunkSize(victim) == cs[victim].size && cs[victim].size % 8 == 0
      modifies this`mem, this`cs, this`bins, this`lastRemainder
      ensures Core({}) && Gives(old(H()), H(), victim + 8, nb) && CutFrom(old(H()), H(), victim)
      ensures LeavesRest(old(H()), H(), victim, nb, old(lastRemainder), lastRemainder)
    {
      ghost var h := H();
      hide Sound, Gives, Unlinked, Stands, CutFrom, B.InSmallBinRange;
      var size := ChunkSize(victim);
      var remainderSize := size - nb;
      UnlinkLast(BinAt(idx), victim);
      if remainderSize < MINSIZE {
        Exhaust(victim, size, nb, h, idx, k);
        NoRest(h, H(), victim, nb, lastRemainder);
      } else {
        var remainder := SplitOff(victim, size, nb, h, idx, k);
        RestLeft(h, H(), victim, nb, lastRemainder);
        if B.InSmallBinRange(nb) {
          lastRemainder := remainder;
        }
      }
    }

    /** nb bytes off the low end of top. */
    method CutTop(nb: int, size: int) returns (r: int)
      requires Core({}) && Cuts(H(), top, nb) && size == cs[top].size
      modifies this`mem, this`cs, this`top
      ensures Core({}) && Gives(old(H()), H(), r, nb) && r == old(top) + 8 && r != 0 && CutFrom(old(H()), H(), r - 8)
      ensures LeavesRest(old(H()), H(), r - 8, nb, lastRemainder, lastRemainder)
      ensures NothingFreed(old(cs)) ==> NothingFreed(cs)
    {
      ghost var h := H();
      hide Sound, Gives, Same, CutFrom, LeavesRest;
      ghost var h' := SoundTopPart(h, O(), nb);
      var victim := top;
      var remainderSize := size - nb;
      var remainder := victim + nb;
      top := remainder;
      mem := mem[victim + 4 := nb + 1];
      mem := mem[remainder + 4 := remainderSize + 1];
      cs := h'.cs;
      assert H() == h';
      NoRest(h, h', victim, nb, lastRemainder);
      r := victim + 8;
    }

    /** Where the first chunk can begin, and the second `sbrk` that would end it on a page. */
    method AskAligned(brk: int, size: int) returns (alignedBrk: int, topSize: int, correction: int)
      requires 0 <= brk == heapStart && Bounded() && size >= PAGE && size % PAGE == 0 && curptr == brk + size && curptr <= heapEnd
      modifies this`curptr
      ensures alignedBrk % 8 == 0 && brk <= alignedBrk < brk + 8 && topSize >= MINSIZE && topSize % 4 == 0
      ensures old(curptr) <= curptr == alignedBrk + topSize && curptr <= heapEnd && 0 <= correction == curptr - old(curptr) < PAGE + 8
      ensures topSize < size ==> heapEnd - brk < size + PAGE + 8
    {
      FirstAlign(brk, size);
      if brk % 4 != 0 {
        SecondGranted(brk, size, heapEnd);
      }
      hide Correction;
      alignedBrk := brk;
      var frontMisalign := (brk + 8) % 8;
      var front := if frontMisalign > 0 then 8 - frontMisalign else 0;
      alignedBrk := alignedBrk + front;
      correction := front + Correction(brk + size + front);
      var sndBrk := Sbrk(correction);
      if sndBrk == FAILURE {
        correction := 0;
        sndBrk := Sbrk(0);
      }
      topSize := sndBrk - alignedBrk + correction;
    }

    /** The first memory from the system: aligned, and extended to a page boundary if that can be had. */
    method FirstMemory(brk: int, size: int)
      requires Sound(H(), O().(brk := brk), {}) && cs == map[] && brk == heapStart && curptr == brk + size && curptr <= heapEnd < ADDRESSES
      requires maxFast in {72, 73, 75} && sbrked == size && size >= PAGE && size % PAGE == 0 && Bounded()
      modifies this`mem, this`cs, this`top, this`base, this`curptr, this`sbrked
      ensures Core({}) && Same(old(H()), H()) && top in cs && NothingFreed(cs) && bins == old(bins)
      ensures curptr >= old(curptr) && heapStart <= top < heapStart + 8 && top + cs[top].size == curptr
      ensures curptr < brk + size + PAGE + 8
      ensures cs[top].size < size ==> heapEnd - heapStart < size + PAGE + 8
      ensures forall a :: a in cs ==> a == top
    {
      ghost var h, o := H(), O().(brk := brk);
      assert brk >= HEAP_FLOOR;
      hide Sound, Same, NothingFreed, WellPlaced;
      var alignedBrk, topSize, correction := AskAligned(brk, size);
      ghost var h' := FirstMove(h, o, alignedBrk, topSize);
      top := alignedBrk;
      mem := mem[top + 4 := OrInuse(topSize)];
      sbrked := sbrked + correction;
      cs, base := h'.cs, h'.base;
      assert H() == h';
    }

    /** Memory that continues the arena: top grows. */
    method GrowTop(brk: int, size: int, oldSize: int, ghost nb: int)
      requires Sound(H(), O().(brk := brk), {}) && curptr == brk + size && curptr <= heapEnd < ADDRESSES
      requires maxFast in {72, 73, 75} && sbrked == curptr - heapStart && size >= PAGE && size % PAGE == 0 && NoFit(cs, nb) && Bounded()
      requires top in cs && cs[top].st == Top && oldSize == cs[top].size && brk == top + oldSize
      modifies this`mem, this`cs
      ensures Core({}) && Same(old(H()), H()) && top in cs && NoFit(cs, nb) && Resorted(old(H()), H())
      ensures (NothingFreed(old(cs)) ==> NothingFreed(cs)) && cs[top].size == oldSize + size
    {
      hide Sound, Same, NothingFreed, NoFit, Resorted, WellPlaced;
      ghost var h, o := H(), O().(brk := brk);
      PagesAreWords(size);
      ghost var h' := GrowMove(h, o, size);
      mem := mem[top + 4 := OrInuse(size + oldSize)];
      cs := h'.cs;
      assert H() == h';
      NoFitGrown(h, h', nb);
      ResortedGrown(h, h');
    }

    /** What `sYSMALLOc` does with the memory it was given: it becomes top, or top's continuation. */
    method NewMemory(brk: int, size: int, ghost nb: int)
      requires Sound(H(), O().(brk := brk), {}) && curptr == brk + size && curptr <= heapEnd < ADDRESSES
      requires maxFast in {72, 73, 75} && sbrked == brk - heapStart && size >= PAGE && size % PAGE == 0 && NoFit(cs, nb) && Bounded()
      modifies this`mem, this`cs, this`top, this`base, this`curptr, this`sbrked
      ensures Core({}) && Same(old(H()), H()) && top in cs && curptr >= old(curptr) && NoFit(cs, nb)
      ensures (NothingFreed(old(cs)) ==> NothingFreed(cs)) && Resorted(old(H()), H())
      ensures curptr < brk + size + PAGE + 8 && (old(cs) != map[] ==> curptr == brk + size)
      ensures cs[top].size < (if old(cs) == map[] then 0 else old(cs)[old(top)].size) + size ==> heapEnd - brk < size + PAGE + 8
    {
      hide Sound, Same, NothingFreed, NoFit, Resorted, WellPlaced;
      ghost var h, o := H(), O().(brk := brk);
      TopSize(h, o);
      var oldSize := ChunkSize(top);
      sbrked := sbrked + size;
      if brk == top + oldSize {
        GrowTop(brk, size, oldSize, nb);
      } else {
        FirstMemory(brk, size);
        ResortedFirst(h, H());
        NoFitTop(cs, top, nb);
      }
    }

    /** `sYSMALLOc`: empty the fastbins and try again, or get more memory. */
    method SysMalloc(nb: int) returns (r: int, ghost seen: Heap)
      requires Valid() && maxFast != 0 && nb % 8 == 0 && MINSIZE <= nb && nb + MINSIZE < WORD && NoFit(cs, nb) && !FastFit(H(), nb)
      requires top in cs ==> cs[top].size < nb + MINSIZE
      requires HaveFast() ==> B.InSmallBinRange(nb)
      modifies this
      ensures Valid() && Gives(old(H()), H(), r, nb)
      ensures r != 0 ==> Served(old(H()), seen, H(), r - 8, nb, old(lastRemainder), lastRemainder)
      ensures r != 0 && (old(HaveFast()) ==> HaveFast()) ==> Kept(old(H()), seen, nb, old(lastRemainder)) && OffTop(seen, r - 8)
      ensures HaveFast() ==> old(HaveFast())
      ensures r == 0 ==> heapEnd - old(curptr) < nb + SLACK && lastRemainder == old(lastRemainder)
      ensures 0 <= curptr - old(curptr) < nb + SLACK && (r == 0 || curptr != old(curptr) ==> !HaveFast())
      decreases if HaveFast() then 1 else 0, 0
    {
      hide Sound, Gives, Same, Picked, B.Request2Size, Served, Kept, OffTop, NoFit, FastFit, LeavesRest;
      ghost var h := H();
      if HaveFast() {
        Consolidate();
        ghost var h1 := H();
        RequestAgain(nb);
        r, seen := MAlloc(nb - 7);
        GivesAfter(h, h1, H(), r, nb);
        if r != 0 {
          ServedAfter(h, h1, seen, H(), r - 8, nb, old(lastRemainder), lastRemainder);
        }
        return;
      }
      r, seen := FromSystem(nb);
    }

    method FromSystem(nb: int) returns (r: int, ghost seen: Heap)
      requires Valid() && maxFast != 0 && nb % 8 == 0 && MINSIZE <= nb && nb + MINSIZE < WORD && NoFit(cs, nb) && !FastFit(H(), nb)
      requires !HaveFast() && (top in cs ==> cs[top].size < nb + MINSIZE)
      modifies this`mem, this`cs, this`top, this`base, this`curptr, this`sbrked
      ensures Valid() && Gives(old(H()), H(), r, nb)
      ensures r != 0 ==> Served(old(H()), seen, H(), r - 8, nb, lastRemainder, lastRemainder) && Kept(old(H()), seen, nb, lastRemainder) && OffTop(seen, r - 8)
      ensures r == 0 ==> heapEnd - old(curptr) < nb + SLACK
      ensures 0 <= curptr - old(curptr) < nb + SLACK && !HaveFast()
      ensures curptr != old(curptr) && old(cs) != map[] ==>
                var grown := curptr - old(curptr);
                old(top) in old(cs) && grown % PAGE == 0 && nb + MINSIZE <= old(cs)[old(top)].size + grown < nb + MINSIZE + PAGE
    {
      ghost var h, o := H(), O();
      hide Sound, Gives, Same, Picked, NoFit, NothingFreed, AskFor, Best, Served, CutFrom, Resorted, WellPlaced, FastFit, LeavesRest, Kept;
      TopSize(h, O());
      seen := h;
      SameRefl(h);
      var oldSize := ChunkSize(top);
      var size := AskFor(nb + MINSIZE - oldSize);
      AskForEnough(nb + MINSIZE - oldSize);
      var brk := FAILURE;
      if size > 0 {
        brk := Sbrk(size);
      }
      if brk != FAILURE {
        NewMemory(brk, size, nb);
        TopSize(H(), O());
        seen := H();
        var topSize := ChunkSize(top);
        if topSize >= nb + MINSIZE {
          SameFast(h, seen, nb);
          LinesGrown(h, o, seen);
          KeptNoFit(h, seen, nb, lastRemainder);
          PickedTop(seen, nb, lastRemainder);
          r := CutTop(nb, topSize);
          GivesAfter(h, seen, H(), r, nb);
          ServedHere(seen, H(), r - 8, nb, lastRemainder, lastRemainder);
          ServedAfter(h, seen, seen, H(), r - 8, nb, lastRemainder, lastRemainder);
          return;
        }
      }
      GivesNothing(h, h, H(), nb);
      r := 0;
    }

    /** `use_top` */
    method UseTop(nb: int) returns (r: int, ghost seen: Heap)
      requires Valid() && maxFast != 0 && nb % 8 == 0 && MINSIZE <= nb && nb + MINSIZE < WORD && NoFit(cs, nb) && !FastFit(H(), nb)
      requires HaveFast() ==> B.InSmallBinRange(nb)
      modifies this
      ensures Valid() && Gives(old(H()), H(), r, nb)
      ensures r != 0 ==> Served(old(H()), seen, H(), r - 8, nb, old(lastRemainder), lastRemainder)
      ensures r != 0 && (old(HaveFast()) ==> HaveFast()) ==> Kept(old(H()), seen, nb, old(lastRemainder)) && OffTop(seen, r - 8)
      ensures HaveFast() ==> old(HaveFast())
      ensures r == 0 ==> heapEnd - old(curptr) < nb + SLACK && lastRemainder == old(lastRemainder)
      ensures 0 <= curptr - old(curptr) < nb + SLACK && (r == 0 || curptr != old(curptr) ==> !HaveFast())
      decreases if HaveFast() then 1 else 0, 1
    {
      seen := H();
      hide Sound, Gives, Same, Picked, NoFit, NothingFreed, Best, Served, CutFrom, Kept, FastFit, LeavesRest;
      TopSize(seen, O());
      SameRefl(seen);
      var size := ChunkSize(top);
      if size >= nb + MINSIZE {
        PickedTop(seen, nb, lastRemainder);
        r := CutTop(nb, size);
        ServedHere(seen, H(), r - 8, nb, lastRemainder, lastRemainder);
      } else {
        r, seen := SysMalloc(nb);
      }
    }

    /** The fastbin of the request, which holds chunks of just that size. */
    method FromFastbin(nb: int) returns (r: int)
      requires Valid() && HaveAny() && nb % 8 == 0 && MINSIZE <= nb <= maxFast
      modifies this`fastbins, this`cs, this`fast
      ensures Valid() && Gives(old(H()), H(), r, nb)
      ensures r == 0 ==> H() == old(H()) && !FastFit(H(), nb)
      ensures r != 0 ==> Served(old(H()), old(H()), H(), r - 8, nb, lastRemainder, lastRemainder)
    {
      hide Sound, Gives, Same, Picked, CutFrom, Served, LeavesRest;
      ghost var h := H();
      var i := nb / 8 - 2;
      var victim := fastbins[i];
      if victim != 0 {
        ghost var h' := FastMove(h, O(), i, nb, lastRemainder);
        fastbins := fastbins[i := Rd(mem, victim + 8)];
        cs, fast := h'.cs, h'.fast;
        assert H() == h';
        NoRest(h, h', victim, nb, lastRemainder);
        ServedHere(h, h', victim, nb, lastRemainder, lastRemainder);
        return victim + 8;
      }
      if fast[i] != [] {
        FastPositive(h, O(), i);
      }
      SameRefl(h);
      GivesNothing(h, h, h, nb);
      r := 0;
    }

    /** The free chunks, when the quick ways have failed: unsorted ones, the request's own bin, larger bins, top. */
    method Search(nb: int) returns (r: int, ghost seen: Heap)
      requires Valid() && HaveAny() && nb % 8 == 0 && MINSIZE <= nb && nb + MINSIZE < WORD
      requires !FastFit(H(), nb)
      modifies this
      ensures Valid() && Gives(old(H()), H(), r, nb)
      ensures r != 0 ==> Served(old(H()), seen, H(), r - 8, nb, old(lastRemainder), lastRemainder)
      ensures r != 0 && (old(HaveFast()) ==> HaveFast()) ==> Kept(old(H()), seen, nb, old(lastRemainder))
      ensures HaveFast() ==> old(HaveFast())
      ensures r == 0 ==> heapEnd - old(curptr) < nb + SLACK && lastRemainder == old(lastRemainder)
      ensures B.InSmallBinRange(nb) && (r == 0 || (old(HaveFast()) && !HaveFast())) ==> NoFit(old(cs), nb)
      ensures 0 <= curptr - old(curptr) < nb + SLACK && (r == 0 || curptr != old(curptr) ==> !HaveFast())
      decreases if HaveFast() then 1 else 0, 3
    {
      ghost var h0 := H();
      hide Sound, Gives, Same, Picked, Best, NoFit, NoFitUpTo, B.BinIndex, B.LargeBinIndex, Served, CutFrom, Kept, FastFit, LeavesRest, NextOut;
      SameRefl(h0);
      KeptSame(h0, nb, lastRemainder);
      var idx := BinOf(nb);
      if !B.InSmallBinRange(nb) {
        if HaveFast() {
          Consolidate();
          NoFastAbove(H(), O(), nb);
        }
      } else {
        seen := h0;
        r := FromSmallBin(nb);
        if r != 0 {
          PickedExact(seen, r - 8, nb, lastRemainder);
          ServedHere(seen, H(), r - 8, nb, lastRemainder, lastRemainder);
          return;
        }
      }
      ghost var h1 := H();
      MapLength(h1, O());
      r, seen := SearchUnsorted(nb, idx);
      GivesAfter(h0, h1, H(), r, nb);
      if r != 0 {
        ServedAfter(h0, h1, seen, H(), r - 8, nb, old(lastRemainder), lastRemainder);
      }
    }

    /** The unsorted chunks, and then the bins. */
    method SearchUnsorted(nb: int, idx: int) returns (r: int, ghost seen: Heap)
      requires Valid() && HaveAny() && nb % 8 == 0 && MINSIZE <= nb && nb + MINSIZE < WORD && |bins| == NBINS
      requires idx == B.BinIndex(nb) && 2 <= idx < NBINS
      requires B.InSmallBinRange(nb) ==> bins[nb / 8] == []
      requires HaveFast() ==> B.InSmallBinRange(nb)
      requires !FastFit(H(), nb)
      modifies this
      ensures Valid() && Gives(old(H()), H(), r, nb)
      ensures r != 0 ==> Served(old(H()), seen, H(), r - 8, nb, old(lastRemainder), lastRemainder)
      ensures r != 0 && (old(HaveFast()) ==> HaveFast()) ==> Kept(old(H()), seen, nb, old(lastRemainder))
      ensures HaveFast() ==> old(HaveFast())
      ensures r == 0 ==> heapEnd - old(curptr) < nb + SLACK && lastRemainder == old(lastRemainder)
      ensures B.InSmallBinRange(nb) && (r == 0 || (old(HaveFast()) && !HaveFast())) ==> NoFit(old(cs), nb)
      ensures 0 <= curptr - old(curptr) < nb + SLACK && (r == 0 || curptr != old(curptr) ==> !HaveFast())
      decreases if HaveFast() then 1 else 0, 3, 0
    {
      hide Sound, Gives, Same, Picked, Best, NoFit, NoFitUpTo, B.BinIndex, B.LargeBinIndex, Served, CutFrom, Kept, FastFit, LeavesRest, Resorted;
      ghost var h1 := H();
      r, seen := ProcessUnsorted(nb);
      if r != 0 {
        return;
      }
      ghost var h2 := H();
      NothingGiven(h1, h2, nb);
      SameFast(h1, h2, nb);
      KeptTells(h1, h2, nb, lastRemainder);
      r, seen := SearchBins(nb, idx);
      GivesAfter(h1, h2, H(), r, nb);
      if r != 0 {
        ServedAfter(h1, h2, seen, H(), r - 8, nb, old(lastRemainder), lastRemainder);
        if old(HaveFast()) ==> HaveFast() {
          KeptThen(h1, h2, seen, nb, old(lastRemainder));
        }
      }
    }

    function BinOf(nb: int): (idx: int)
      requires MINSIZE <= nb < WORD
      ensures idx == B.BinIndex(nb) && 2 <= idx < NBINS
    {
      B.BinIndexMonotone(nb, nb);
      if B.InSmallBinRange(nb) then nb / 8 else B.LargeBinIndex(nb)
    }

    /** The bin of the request and the bins after it. */
    method ScanBins(nb: int, idx: int) returns (r: int)
      requires Core({}) && nb % 8 == 0 && MINSIZE <= nb < WORD
      requires idx == B.BinIndex(nb) && 2 <= idx < NBINS && |bins| == NBINS && bins[1] == []
      requires B.InSmallBinRange(nb) ==> bins[nb / 8] == []
      modifies this`mem, this`cs, this`bins, this`binmap, this`lastRemainder
      ensures Core({}) && Gives(old(H()), H(), r, nb)
      ensures r != 0 ==> Best(old(H()), r - 8, nb) && NextOut(old(H()), r - 8) && CutFrom(old(H()), H(), r - 8)
      ensures r != 0 ==> LeavesRest(old(H()), H(), r - 8, nb, old(lastRemainder), lastRemainder)
      ensures r == 0 ==> H() == old(H()) && NoFit(cs, nb) && lastRemainder == old(lastRemainder)
    {
      hide Sound, Gives, Best, NoFit, NoFitUpTo, B.BinIndex, CutFrom, Same, Books, LeavesRest, NextOut, B.InSmallBinRange;
      ghost var h := H();
      SmallBinIs(nb);
      MapLength(h, O());
      if !B.InSmallBinRange(nb) {
        r := ScanLarge(nb, idx);
        if r != 0 {
          return;
        }
      } else {
        NoFitInBin(h, O(), idx, nb);
      }
      r := ScanBinmap(nb, idx);
    }

    method SearchBins(nb: int, idx: int) returns (r: int, ghost seen: Heap)
      requires Valid() && HaveAny() && nb % 8 == 0 && MINSIZE <= nb && nb + MINSIZE < WORD
      requires idx == B.BinIndex(nb) && 2 <= idx < NBINS && |bins| == NBINS && bins[1] == []
      requires B.InSmallBinRange(nb) ==> bins[nb / 8] == []
      requires HaveFast() ==> B.InSmallBinRange(nb)
      requires !FastFit(H(), nb)
      modifies this
      ensures Valid() && Gives(old(H()), H(), r, nb)
      ensures r != 0 ==> Served(old(H()), seen, H(), r - 8, nb, old(lastRemainder), lastRemainder)
      ensures r != 0 && (old(HaveFast()) ==> HaveFast()) ==> Kept(old(H()), seen, nb, old(lastRemainder))
      ensures HaveFast() ==> old(HaveFast())
      ensures r == 0 ==> heapEnd - old(curptr) < nb + SLACK && lastRemainder == old(lastRemainder)
      ensures B.InSmallBinRange(nb) && (r == 0 || (old(HaveFast()) && !HaveFast())) ==> NoFit(old(cs), nb)
      ensures 0 <= curptr - old(curptr) < nb + SLACK && (r == 0 || curptr != old(curptr) ==> !HaveFast())
      decreases if HaveFast() then 1 else 0, 2
    {
      seen := H();
      hide Sound, Gives, Same, Picked, Best, NoFit, B.BinIndex, Served, CutFrom, Kept, FastFit, LeavesRest, NextOut;
      r := ScanBins(nb, idx);
      if r != 0 {
        PickedSorted(seen, r - 8, nb, old(lastRemainder));
        ServedHere(seen, H(), r - 8, nb, old(lastRemainder), lastRemainder);
      } else {
        r, seen := UseTop(nb);
      }
    }

    /**
     `mALLOc`: null, with nothing changed for the client, or a block of at least `bytes` usable bytes.
     The block is the chunk `Picked` says, whole or its low end, of the heap `seen` when it was taken:
     the old one with its unsorted chunks sorted, or the one `malloc_consolidate` made of it.  `LeavesRest`
     says what becomes of the rest and of `last_remainder`; a small request with no exact fit is served
     from there, when that is the first unsorted chunk and more than big enough.
     */
    method MAlloc(bytes: nat) returns (r: int, ghost seen: Heap)
      requires Valid() && bytes < WORD
      modifies this
      ensures Valid() && curptr >= old(curptr)
      ensures !B.OutOfRange(bytes) ==> curptr - old(curptr) < B.Request2Size(bytes) + SLACK && (r == 0 || curptr != old(curptr) ==> !HaveFast())
      ensures B.OutOfRange(bytes) ==> r == 0 && H() == old(H()) && curptr == old(curptr)
      ensures !B.OutOfRange(bytes) ==> Gives(old(H()), H(), r, B.Request2Size(bytes))
      ensures !B.OutOfRange(bytes) && r == 0 ==> heapEnd - old(curptr) < B.Request2Size(bytes) + SLACK
      ensures r == 0 ==> lastRemainder == old(lastRemainder)
      ensures r != 0 ==> !B.OutOfRange(bytes) && Served(old(H()), seen, H(), r - 8, B.Request2Size(bytes), old(lastRemainder), lastRemainder)
      ensures r != 0 && (old(HaveFast()) ==> HaveFast()) && old(cs) != map[] ==>
                && Picked(old(H()), r - 8, B.Request2Size(bytes), old(lastRemainder))
                && LeavesRest(old(H()), H(), r - 8, B.Request2Size(bytes), old(lastRemainder), lastRemainder)
      ensures HaveFast() ==> old(HaveFast())
      ensures !B.OutOfRange(bytes) && B.InSmallBinRange(B.Request2Size(bytes)) && (r == 0 || (old(HaveFast()) && !HaveFast())) ==>
                NoFit(old(cs), B.Request2Size(bytes))
      ensures r != 0 && (old(HaveFast()) ==> HaveFast()) ==> Kept(old(H()), seen, B.Request2Size(bytes), old(lastRemainder))
      ensures !B.OutOfRange(bytes) && ServedByRest(old(H()), B.Request2Size(bytes), old(lastRemainder)) ==>
                && r == old(lastRemainder) + 8 && lastRemainder == old(lastRemainder) + B.Request2Size(bytes)
                && |bins| == NBINS && bins[1] == [lastRemainder] && Shrunk(old(H()), H(), old(lastRemainder), B.Request2Size(bytes))
      decreases if HaveFast() then 1 else 0, 4
    {
      hide Valid, Sound, Gives, Same, Picked, NoFit, B.Request2Size, Served, Kept, LeavesRest, ServedByRest, CutFrom;
      seen := H();
      if B.OutOfRange(bytes) {
        return 0, seen;
      }
      var nb := B.Request2Size(bytes);
      Padded(bytes);
      r, seen := Serve(nb);
      if r != 0 && (old(HaveFast()) ==> HaveFast()) && old(cs) != map[] {
        PickedOf(old(H()), seen, H(), r - 8, nb, old(lastRemainder), lastRemainder);
        PickedBefore(old(H()), seen, r - 8, nb, old(lastRemainder));
        KeptTells(old(H()), seen, nb, old(lastRemainder));
        RestBefore(old(H()), seen, H(), r - 8, nb, old(lastRemainder), lastRemainder);
      }
      if ServedByRest(old(H()), nb, old(lastRemainder)) {
        RestIsFit(old(H()), nb, old(lastRemainder));
        RestLaw(old(H()), seen, H(), r, nb, old(lastRemainder), lastRemainder);
      }
    }

    method Serve(nb: int) returns (r: int, ghost seen: Heap)
      requires Valid() && nb % 8 == 0 && MINSIZE <= nb && nb + MINSIZE < WORD
      modifies this
      ensures Valid() && Gives(old(H()), H(), r, nb)
      ensures r != 0 ==> Served(old(H()), seen, H(), r - 8, nb, old(lastRemainder), lastRemainder)
      ensures r != 0 && (old(HaveFast()) ==> HaveFast()) ==> Kept(old(H()), seen, nb, old(lastRemainder))
      ensures HaveFast() ==> old(HaveFast())
      ensures r == 0 ==> heapEnd - old(curptr) < nb + SLACK && lastRemainder == old(lastRemainder)
      ensures B.InSmallBinRange(nb) && (r == 0 || (old(HaveFast()) && !HaveFast())) ==> NoFit(old(cs), nb)
      ensures 0 <= curptr - old(curptr) < nb + SLACK && (r == 0 || curptr != old(curptr) ==> !HaveFast())
      decreases if HaveFast() then 1 else 0, 4, 0
    {
      seen := H();
      hide Sound, Gives, Same, Picked, NoFit, Served, Kept, FastFit, LeavesRest;
      SameRefl(seen);
      KeptSame(seen, nb, lastRemainder);
      if !HaveAny() {
        ghost var h0 := seen;
        if maxFast == 0 {
          Consolidate();
        } else {
          EmptyLists(h0, O());
        }
        NoFitTop(cs, top, nb);
        ghost var h1 := H();
        EmptyLists(h1, O());
        NoLines(h0, h1);
        KeptStart(h0, h1, nb, lastRemainder);
        NoFast(h1, O(), nb);
        r, seen := UseTop(nb);
        GivesAfter(h0, h1, H(), r, nb);
        if r != 0 {
          ServedAfter(h0, h1, seen, H(), r - 8, nb, old(lastRemainder), lastRemainder);
          if old(HaveFast()) ==> HaveFast() {
            KeptThen(h0, h1, seen, nb, old(lastRemainder));
          }
        }
        return;
      }
      if nb <= maxFast {
        r := FromFastbin(nb);
        if r != 0 {
          return;
        }
      }
      if nb > maxFast {
        NoFastAbove(H(), O(), nb);
      }
      r, seen := Search(nb);
    }
  }
}
