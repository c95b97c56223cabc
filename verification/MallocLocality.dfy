/** Runs of small requests in shared/malloc.c: they are served one behind the other, out of the last remainder. */
module MallocLocality {
  import B = MallocBins
  import opened Arith
  import opened MallocHeap
  import opened MallocSound
  import opened MallocTakes
  import opened Malloc

  /** No chunk on a list, but perhaps the one left over, has just nb bytes. */
  ghost predicate NoExact(cs: Chunks, rest: int, nb: int) {
    forall a :: a in cs && a != rest && Listed(cs[a]) ==> cs[a].size != nb
  }

  predicate Small(bytes: nat) { !B.OutOfRange(bytes) && B.InSmallBinRange(B.Request2Size(bytes)) }

  /** The bytes the chunks of such requests take. */
  function Total(sizes: seq<u32>): (t: nat)
    requires forall n :: n in sizes ==> Small(n)
  {
    if sizes == [] then 0
    else
      assert Small(sizes[|sizes| - 1]);
      B.Request2SizeLeast(sizes[|sizes| - 1]);
      Total(sizes[..|sizes| - 1]) + B.Request2Size(sizes[|sizes| - 1])
  }

  /** The lone unsorted chunk is what was left over, and can serve nb bytes. */
  ghost predicate CanServe(h: Heap, rest: int, nb: int) {
    && |h.bins| == NBINS && h.bins[1] == [rest] && rest in h.cs && h.cs[rest].size > nb + MINSIZE
    && NoExact(h.cs, rest, nb)
  }

  lemma RestCanServe(h: Heap, o: Outside, rest: int, bytes: nat)
    requires Sound(h, o, {}) && Small(bytes) && CanServe(h, rest, B.Request2Size(bytes))
    ensures ServedByRest(h, B.Request2Size(bytes), rest)
  {
    var nb := B.Request2Size(bytes);
    Padded(bytes);
    assert h.cs[rest].st == Binned(1) by {
      assert BinOk(h.mem, h.cs, h.bins, 1);
      assert h.bins[1][0] == rest;
    }
    if FastFit(h, nb) {
      var a := FastFirst(h, o, nb);
    }
    hide Sound, FastFit, B.Request2Size;
  }

  lemma SoundWhenUnsorted(a: Allocator)
    requires a.Valid() && |a.bins| == NBINS && a.bins[1] != []
    ensures Sound(a.H(), a.O(), {})
  {
  }

  /** One small request out of the last remainder. */
  method Next(a: Allocator, bytes: u32) returns (r: int)
    requires a.Valid() && Small(bytes) && CanServe(a.H(), a.lastRemainder, B.Request2Size(bytes))
    modifies a
    ensures a.Valid() && r == old(a.lastRemainder) + 8 && a.lastRemainder == old(a.lastRemainder) + B.Request2Size(bytes)
    ensures |a.bins| == NBINS && a.bins[1] == [a.lastRemainder]
    ensures Shrunk(old(a.H()), a.H(), old(a.lastRemainder), B.Request2Size(bytes))
  {
    hide a.Valid, Sound, Served, Picked, Kept, LeavesRest, Gives, ServedByRest, Shrunk, NoFit, B.Request2Size;
    SoundWhenUnsorted(a);
    RestCanServe(a.H(), a.O(), a.lastRemainder, bytes);
    ghost var seen;
    r, seen := a.MAlloc(bytes);
  }

  /**
   A small request that was cut from a free chunk, and a second small one with no exact fit for which the rest is
   more than big enough: the second block begins where the first chunk ends.
   */
  method CutAndNext(a: Allocator, first: u32, second: u32) returns (r1: int, r2: int, ghost seen: Heap, ghost between: Heap)
    requires a.Valid()
    modifies a
    ensures a.Valid()
    ensures r1 != 0 ==>
              && !B.OutOfRange(first) && r1 - 8 in seen.cs && r1 - 8 in between.cs
              && Served(old(a.H()), seen, between, r1 - 8, B.Request2Size(first), old(a.lastRemainder),
                        if Small(first) && IsFree(seen.cs[r1 - 8]) && between.cs[r1 - 8].size < seen.cs[r1 - 8].size
                        then r1 - 8 + B.Request2Size(first) else old(a.lastRemainder))
    ensures r1 != 0 && Small(first) && Small(second) && IsFree(seen.cs[r1 - 8]) && between.cs[r1 - 8].size < seen.cs[r1 - 8].size
            && seen.cs[r1 - 8].size - B.Request2Size(first) > B.Request2Size(second) + MINSIZE
            && NoExact(between.cs, r1 - 8 + B.Request2Size(first), B.Request2Size(second)) ==>
              && r2 == r1 + B.Request2Size(first)
              && a.lastRemainder == r2 - 8 + B.Request2Size(second) && |a.bins| == NBINS && a.bins[1] == [a.lastRemainder]
  {
    hide a.Valid, Sound, Gives, Kept, Picked, ServedByRest, Shrunk, NoFit, B.Request2Size, NoExact;
    r1, seen := a.MAlloc(first);
    between := a.H();
    ghost var lr := a.lastRemainder;
    if r1 != 0 {
      CutCanServe(seen, between, r1 - 8, B.Request2Size(first));
    }
    hide CutFrom;
    if |a.bins| == NBINS && a.bins[1] == [lr] {
      SoundWhenUnsorted(a);
      if Small(second) && CanServe(between, lr, B.Request2Size(second)) {
        RestCanServe(between, a.O(), lr, second);
      }
    }
    ghost var seen2;
    r2, seen2 := a.MAlloc(second);
  }

  /** What a cut leaves has the bytes the block has not. */
  lemma CutCanServe(h: Heap, h': Heap, p: int, nb: int)
    requires CutFrom(h, h', p)
    ensures p in h.cs && p in h'.cs
    ensures IsFree(h.cs[p]) && h'.cs[p].size == nb < h.cs[p].size ==> p + nb in h'.cs && h'.cs[p + nb].size == h.cs[p].size - nb
  {
  }

  /** Any number of small requests with no exact fit, together smaller than the last remainder: one block behind the other. */
  method SmallRun(a: Allocator, sizes: seq<u32>) returns (blocks: seq<int>)
    requires a.Valid() && |a.bins| == NBINS && a.bins[1] == [a.lastRemainder] && a.lastRemainder in a.cs
    requires forall n :: n in sizes ==> Small(n) && NoExact(a.cs, a.lastRemainder, B.Request2Size(n))
    requires a.cs[a.lastRemainder].size > Total(sizes) + MINSIZE
    modifies a
    ensures a.Valid() && |blocks| == |sizes|
    ensures forall i :: 0 <= i < |sizes| ==> blocks[i] == old(a.lastRemainder) + 8 + Total(sizes[..i])
    ensures a.lastRemainder == old(a.lastRemainder) + Total(sizes)
  {
    hide a.Valid, B.Request2Size, B.InSmallBinRange, B.OutOfRange, Listed;
    blocks := [];
    assert sizes[..0] == [];
    for i := 0 to |sizes|
      invariant a.Valid() && |a.bins| == NBINS && a.bins[1] == [a.lastRemainder] && a.lastRemainder in a.cs
      invariant forall n :: n in sizes ==> NoExact(a.cs, a.lastRemainder, B.Request2Size(n))
      invariant a.lastRemainder == old(a.lastRemainder) + Total(sizes[..i])
      invariant a.cs[a.lastRemainder].size == old(a.cs[a.lastRemainder].size) - Total(sizes[..i])
      invariant |blocks| == i && forall j :: 0 <= j < i ==> blocks[j] == old(a.lastRemainder) + 8 + Total(sizes[..j])
    {
      TotalNext(sizes, i);
      var r := Next(a, sizes[i]);
      blocks := blocks + [r];
    }
    assert sizes[..|sizes|] == sizes;
  }

  lemma TotalNext(sizes: seq<u32>, i: nat)
    requires i < |sizes| && forall n :: n in sizes ==> Small(n)
    ensures Small(sizes[i]) && Total(sizes[..i + 1]) == Total(sizes[..i]) + B.Request2Size(sizes[i]) <= Total(sizes)
  {
    hide B.Request2Size, Small;
    assert sizes[..i + 1][..i] == sizes[..i];
    TotalGrows(sizes, i + 1);
  }

  lemma {:induction false} TotalGrows(sizes: seq<u32>, i: nat)
    requires i <= |sizes| && forall n :: n in sizes ==> Small(n)
    ensures Total(sizes[..i]) <= Total(sizes)
  {
    if i == |sizes| {
      assert sizes[..i] == sizes;
    } else {
      var s := sizes[..|sizes| - 1];
      assert s[..i] == sizes[..i];
      TotalGrows(s, i);
      assert Small(sizes[|sizes| - 1]);
      B.Request2SizeLeast(sizes[|sizes| - 1]);
    }
  }
}
