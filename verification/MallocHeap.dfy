/**
 What a correct heap of shared/malloc.c is: chunks with boundary tags in word-addressed
 memory, doubly linked bins, singly linked fastbins.

 Memory is flat: chunk headers, list links, footers and client data are words of one map, as
 in the C code, and nothing but the invariant keeps them apart.  A word never written reads 0.
 */
module MallocHeap {

  const NBINS: nat := 96
  const NFASTBINS: nat := 10
  const MINSIZE: int := 16

  /** Address of bins[0] in the static `malloc_state`; the heap lies above the 96 pairs of links. */
  const BINS: int := 0x1000
  const HEAP_FLOOR: int := 0x2000

  type Memory = map<int, int>

  function Rd(mem: Memory, a: int): int {
    if a in mem then mem[a] else 0
  }

  /** `bin_at(m, i)`: the bin header, placed so that its fd and bk are bins[2i] and bins[2i+1]. */
  function BinAt(i: int): int {
    BINS + 8 * i - 8
  }

  /**
   What a chunk is for.  `Limbo` is a chunk in the hands of malloc or free: on no list, its
   own header not yet right; `shown` is what the next chunk's PREV_INUSE bit says of it.
   */
  datatype Status = InUse | Fast(i: int) | Binned(i: int) | Limbo(shown: bool) | Top

  datatype Chunk = Chunk(size: int, prev: int, st: Status)

  type Chunks = map<int, Chunk>

  /** Memory together with what the invariant says is in it. */
  datatype Heap = Heap(
    mem: Memory,
    cs: Chunks,              // chunks by address
    bins: seq<seq<int>>,     // bins[i]: addresses from the fd end to the bk end
    fast: seq<seq<int>>,     // fast[i]: addresses from the head
    base: int,               // first chunk
    top: int)

  const NOWHERE: int := -1

  // ----- chunks tile the arena

  ghost predicate ChunkOk(cs: Chunks, base: int, top: int, a: int)
    requires a in cs
  {
    var c := cs[a];
    && a % 8 == 0 && HEAP_FLOOR <= base <= a <= top && c.size >= MINSIZE
    && (c.st == Top <==> a == top)
    && (a != top ==> c.size % 8 == 0 && a + c.size in cs && cs[a + c.size].prev == a)
    && (a == top ==> c.size % 4 == 0)
    && (c.prev == NOWHERE <==> a == base)
    && (c.prev != NOWHERE ==> c.prev in cs && c.prev != top && c.prev + cs[c.prev].size == a)
  }

  /** A chunk ends before the next one starts. */
  ghost predicate Apart(cs: Chunks, a: int, b: int)
    requires a in cs && b in cs
  {
    a < b ==> a + cs[a].size <= b
  }

  ghost predicate Tiled(cs: Chunks, base: int, top: int) {
    && (cs != map[] ==> base in cs && top in cs)
    && (forall a {:trigger ChunkOk(cs, base, top, a)} :: a in cs ==> ChunkOk(cs, base, top, a))
    && (forall a, b {:trigger Apart(cs, a, b)} :: a in cs && b in cs ==> Apart(cs, a, b))
  }

  // ----- boundary tags

  predicate IsFree(c: Chunk) { c.st.Binned? }

  /** What the next chunk's PREV_INUSE bit must say of a chunk. */
  predicate Shown(c: Chunk) {
    match c.st
    case Binned(_) => false
    case Limbo(shown) => shown
    case _ => true
  }

  ghost predicate PrevShown(cs: Chunks, a: int)
    requires a in cs
  {
    cs[a].prev in cs ==> Shown(cs[cs[a].prev])
  }

  /** Size and PREV_INUSE bit of every chunk that is not in limbo. */
  ghost predicate HeadOk(mem: Memory, cs: Chunks, a: int)
    requires a in cs
  {
    !cs[a].st.Limbo? ==> Rd(mem, a + 4) == cs[a].size + (if PrevShown(cs, a) then 1 else 0)
  }

  /** A free chunk has its size at its end, and no free neighbour after it. */
  ghost predicate FootOk(mem: Memory, cs: Chunks, top: int, a: int)
    requires a in cs
  {
    IsFree(cs[a]) ==>
      && Rd(mem, a + cs[a].size) == cs[a].size
      && a + cs[a].size != top
      && (a + cs[a].size in cs ==> !IsFree(cs[a + cs[a].size]))
  }

  ghost predicate Tagged(mem: Memory, cs: Chunks, top: int) {
    && (forall a {:trigger HeadOk(mem, cs, a)} :: a in cs ==> HeadOk(mem, cs, a))
    && (forall a {:trigger FootOk(mem, cs, top, a)} :: a in cs ==> FootOk(mem, cs, top, a))
  }

  // ----- bins

  function NextIn(h: int, l: seq<int>, k: int): int
    requires 0 <= k < |l|
  {
    if k + 1 < |l| then l[k + 1] else h
  }

  function PrevIn(h: int, l: seq<int>, k: int): int
    requires 0 <= k < |l|
  {
    if k > 0 then l[k - 1] else h
  }

  function FirstOf(h: int, l: seq<int>): int { if l == [] then h else l[0] }
  function LastOf(h: int, l: seq<int>): int { if l == [] then h else l[|l| - 1] }

  predicate LinkAt(mem: Memory, h: int, l: seq<int>, k: int)
    requires 0 <= k < |l|
  {
    Rd(mem, l[k] + 8) == NextIn(h, l, k) && Rd(mem, l[k] + 12) == PrevIn(h, l, k)
  }

  /** The circular list with header h holds exactly l, linked both ways. */
  ghost predicate Linked(mem: Memory, h: int, l: seq<int>) {
    && Rd(mem, h + 8) == FirstOf(h, l)
    && Rd(mem, h + 12) == LastOf(h, l)
    && forall k {:trigger LinkAt(mem, h, l, k)} :: 0 <= k < |l| ==> LinkAt(mem, h, l, k)
  }

  ghost predicate NoDup(l: seq<int>) {
    forall j, k :: 0 <= j < k < |l| ==> l[j] != l[k]
  }

  ghost predicate BinOk(mem: Memory, cs: Chunks, bins: seq<seq<int>>, i: int)
    requires 0 <= i < |bins|
  {
    && Linked(mem, BinAt(i), bins[i])
    && NoDup(bins[i])
    && forall k :: 0 <= k < |bins[i]| ==> bins[i][k] in cs && cs[bins[i][k]].st == Binned(i)
  }

  ghost predicate Binning(mem: Memory, cs: Chunks, bins: seq<seq<int>>) {
    && |bins| == NBINS
    && (forall i {:trigger BinOk(mem, cs, bins, i)} :: 1 <= i < NBINS ==> BinOk(mem, cs, bins, i))
    && (forall a :: a in cs && cs[a].st.Binned? ==> 1 <= cs[a].st.i < NBINS && a in bins[cs[a].st.i])
  }

  // ----- fastbins

  predicate FastLinkAt(mem: Memory, l: seq<int>, k: int)
    requires 0 <= k < |l|
  {
    Rd(mem, l[k] + 8) == if k + 1 < |l| then l[k + 1] else 0
  }

  ghost predicate FastOk(mem: Memory, cs: Chunks, fast: seq<seq<int>>, i: int)
    requires 0 <= i < |fast|
  {
    && NoDup(fast[i])
    && (forall k {:trigger FastLinkAt(mem, fast[i], k)} :: 0 <= k < |fast[i]| ==> FastLinkAt(mem, fast[i], k))
    && (forall k :: 0 <= k < |fast[i]| ==> fast[i][k] in cs && cs[fast[i][k]].st == Fast(i) && cs[fast[i][k]].size == 8 * (i + 2))
  }

  ghost predicate FastBinning(mem: Memory, cs: Chunks, fast: seq<seq<int>>) {
    && |fast| == NFASTBINS
    && (forall i {:trigger FastOk(mem, cs, fast, i)} :: 0 <= i < NFASTBINS ==> FastOk(mem, cs, fast, i))
    && (forall a :: a in cs && cs[a].st.Fast? ==> 0 <= cs[a].st.i < NFASTBINS && a in fast[cs[a].st.i])
  }

  ghost predicate Inv(h: Heap) {
    && Tiled(h.cs, h.base, h.top)
    && Tagged(h.mem, h.cs, h.top)
    && Binning(h.mem, h.cs, h.bins)
    && FastBinning(h.mem, h.cs, h.fast)
  }

  /** Only live blocks and top: no block has been given back yet. */
  ghost predicate NothingFreed(cs: Chunks) {
    forall a :: a in cs ==> cs[a].st == InUse || cs[a].st == Top
  }

  /** w | PREV_INUSE */
  function OrInuse(w: int): int { if w % 2 == 0 then w + 1 else w }
}
