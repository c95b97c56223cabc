/**
 Whole runs: a client that asks for blocks, writes in them and gives them back, in any order, against
 the allocator of shared/malloc.c.  What the client may expect is said by the trace of its own calls.
 */
module MallocRuns {
  import B = MallocBins
  import opened Arith
  import opened MallocHeap
  import opened MallocSteps
  import opened MallocOrder
  import opened MallocSound
  import opened MallocJoins
  import opened MallocTakes
  import opened MallocChecks
  import opened Malloc

  datatype Call = Ask(bytes: u32) | Return(block: int) | Write(block: int, offset: nat, value: int)

  /** What came of the calls; a call that breaks the rules for clients leaves no event. */
  datatype Event = Given(block: int, bytes: nat) | Refused(bytes: nat) | Returned(block: int) | Wrote(block: int, offset: nat, value: int)

  /** The blocks the client holds, with the sizes it asked for. */
  function Blocks(trace: seq<Event>): map<int, nat> {
    if trace == [] then map[]
    else
      var before := Blocks(trace[..|trace| - 1]);
      match trace[|trace| - 1]
      case Given(m, n) => before[m := n]
      case Returned(m) => before - {m}
      case _ => before
  }

  /** The last value written at each block and offset the client holds. */
  function Values(trace: seq<Event>): map<(int, nat), int> {
    if trace == [] then map[]
    else
      var before := Values(trace[..|trace| - 1]);
      match trace[|trace| - 1]
      case Returned(m) => map x | x in before && x.0 != m :: before[x]
      case Wrote(m, k, v) => before[(m, k) := v]
      case _ => before
  }

  /** The trace answers the calls one by one, and leaves out those that break the rules. */
  ghost predicate Follows(calls: seq<Call>, trace: seq<Event>) {
    if calls == [] then trace == []
    else
      var earlier := calls[..|calls| - 1];
      match calls[|calls| - 1]
      case Ask(n) => trace != [] && Answers(trace[|trace| - 1], n) && Follows(earlier, trace[..|trace| - 1])
      case Return(m) =>
        || (Follows(earlier, trace) && m !in Blocks(trace))
        || (trace != [] && Follows(earlier, trace[..|trace| - 1]) && m in Blocks(trace[..|trace| - 1])
            && trace[|trace| - 1] == Returned(m))
      case Write(m, k, v) =>
        || (Follows(earlier, trace) && !(m in Blocks(trace) && k < Blocks(trace)[m]))
        || (trace != [] && Follows(earlier, trace[..|trace| - 1]) && m in Blocks(trace[..|trace| - 1])
            && k < Blocks(trace[..|trace| - 1])[m] && trace[|trace| - 1] == Wrote(m, k, v))
  }

  predicate Answers(e: Event, n: nat) {
    e == Refused(n) || (e.Given? && e.bytes == n)
  }

  /** A block of the client: aligned, and its bytes are inside a live chunk. */
  ghost predicate Held(h: Heap, m: int, bytes: nat) {
    m % 8 == 0 && m - 8 in Live(h) && m + bytes <= m - 8 + h.cs[m - 8].size + 4
  }

  /** The heap is what the trace says: exactly these blocks are live, and they hold what was written last. */
  ghost predicate Faithful(h: Heap, trace: seq<Event>) {
    && (forall m :: m in Blocks(trace) ==> Held(h, m, Blocks(trace)[m]))
    && (forall a :: a in Live(h) ==> a + 8 in Blocks(trace))
    && (forall x :: x in Values(trace) ==> x.0 in Blocks(trace) && x.1 < Blocks(trace)[x.0] && Rd(h.mem, x.0 + x.1) == Values(trace)[x])
  }

  /** Blocks held at the same time share no byte. */
  lemma BlocksApart(h: Heap, o: Outside, trace: seq<Event>, m: int, n: int)
    requires Faithful(h, trace) && Sound(h, o, {}) && m in Blocks(trace) && n in Blocks(trace) && m < n
    ensures m + Blocks(trace)[m] <= n
  {
    assert Held(h, m, Blocks(trace)[m]) && Held(h, n, Blocks(trace)[n]);
    assert Apart(h.cs, m - 8, n - 8);
  }

  /** Block m of n bytes is still there with the same contents. */
  ghost predicate Stays(h: Heap, h': Heap, m: int, n: nat) {
    Held(h', m, n) && forall w :: m <= w < m + n ==> Rd(h'.mem, w) == Rd(h.mem, w)
  }

  ghost predicate AllStay(h: Heap, h': Heap, trace: seq<Event>, but: int) {
    forall m: int :: m in Blocks(trace) && m != but ==> Stays(h, h', m, Blocks(trace)[m])
  }

  lemma HeldStays(h: Heap, h': Heap, m: int, n: nat)
    requires Held(h, m, n) && LiveKept(h, h', m - 8)
    ensures Stays(h, h', m, n)
  {
    forall w | m <= w < m + n
      ensures Rd(h'.mem, w) == Rd(h.mem, w)
    {
      assert InPayload(h.cs, m - 8, w);
    }
  }

  lemma KeptAllStay(h: Heap, h': Heap, trace: seq<Event>, but: int)
    requires Faithful(h, trace)
    requires forall a :: a in Live(h) && a != but - 8 ==> LiveKept(h, h', a)
    ensures AllStay(h, h', trace, but)
  {
    forall m: int | m in Blocks(trace) && m != but
      ensures Stays(h, h', m, Blocks(trace)[m])
    {
      assert Held(h, m, Blocks(trace)[m]);
      HeldStays(h, h', m, Blocks(trace)[m]);
    }
  }

  lemma AfterGiven(h: Heap, h': Heap, trace: seq<Event>, r: int, bytes: nat)
    requires Faithful(h, trace) && AllStay(h, h', trace, r)
    requires r - 8 !in Live(h) && Live(h') == Live(h) + {r - 8} && Held(h', r, bytes)
    ensures Faithful(h', trace + [Given(r, bytes)])
  {
    hide Live;
    assert (trace + [Given(r, bytes)])[..|trace|] == trace;
    assert r !in Blocks(trace) by {
      assert forall m :: m in Blocks(trace) ==> Held(h, m, Blocks(trace)[m]);
    }
    hide Held;
  }

  lemma AfterRefused(h: Heap, h': Heap, trace: seq<Event>, bytes: nat)
    requires Faithful(h, trace) && AllStay(h, h', trace, 0) && 0 !in Blocks(trace) && Live(h') == Live(h)
    ensures Faithful(h', trace + [Refused(bytes)])
  {
    hide Held, Live;
    assert (trace + [Refused(bytes)])[..|trace|] == trace;
  }

  lemma AfterReturned(h: Heap, h': Heap, trace: seq<Event>, m: int)
    requires Faithful(h, trace) && AllStay(h, h', trace, m) && Live(h') == Live(h) - {m - 8}
    ensures Faithful(h', trace + [Returned(m)])
  {
    hide Held, Live;
    assert (trace + [Returned(m)])[..|trace|] == trace;
  }

  lemma AfterWrote(h: Heap, trace: seq<Event>, m: int, k: nat, v: int)
    requires m in Blocks(trace) && k < Blocks(trace)[m]
    requires var h' := Poked(h, m + k, v); Faithful(h, trace) && AllStay(h, h', trace, m) && Live(h') == Live(h)
    ensures Faithful(Poked(h, m + k, v), trace + [Wrote(m, k, v)])
  {
    hide Live;
    var h' := Poked(h, m + k, v);
    assert (trace + [Wrote(m, k, v)])[..|trace|] == trace;
    assert Held(h, m, Blocks(trace)[m]) && Held(h', m, Blocks(trace)[m]);
    hide Held;
  }

  /** What `do_check_malloc_state` asserts of the heads of the fastbins and the flag: they are the lists', and none hides a chunk from it. */
  lemma FlagChecked(a: Allocator)
    requires a.Valid() && a.maxFast != 0
    ensures |a.fastbins| == |a.fast| == NFASTBINS && forall i :: 0 <= i < NFASTBINS ==> a.fastbins[i] == FirstFast(a.fast[i])
    ensures (exists i :: 0 <= i < NFASTBINS && a.fastbins[i] != 0) ==> a.HaveFast()
  {
  }

  /** Every request refused was out of range, or for more than the system had left but for a little. */
  ghost predicate ShortOnly(a: Allocator, trace: seq<Event>)
    reads a
  {
    forall i :: 0 <= i < |trace| && trace[i].Refused? ==>
                  B.OutOfRange(trace[i].bytes) || a.heapEnd - a.curptr < B.Request2Size(trace[i].bytes) + SLACK
  }

  /** Any calls in any order, from the first on: the heap stays sound and faithful to the trace. */
  method Run(a: Allocator, calls: seq<Call>) returns (trace: seq<Event>)
    requires a.Valid() && Live(a.H()) == {}
    modifies a
    ensures a.Valid() && Faithful(a.H(), trace)
    ensures Follows(calls, trace) && ShortOnly(a, trace)
  {
    hide a.Valid;
    trace := [];
    var blocks: map<int, nat> := map[];
    for i := 0 to |calls|
      invariant a.Valid() && Faithful(a.H(), trace) && blocks == Blocks(trace) && Follows(calls[..i], trace) && ShortOnly(a, trace)
    {
      assert calls[..i + 1][..i] == calls[..i];
      ghost var before := trace;
      match calls[i]
      case Ask(bytes) =>
        var r := AskOne(a, bytes, trace);
        if r != 0 {
          trace, blocks := trace + [Given(r, bytes)], blocks[r := bytes];
        } else {
          trace := trace + [Refused(bytes)];
        }
      case Return(m) =>
        if m in blocks {
          ReturnOne(a, m, trace);
          trace, blocks := trace + [Returned(m)], blocks - {m};
        }
      case Write(m, k, v) =>
        if m in blocks && k < blocks[m] {
          WriteOne(a, m, k, v, trace);
          trace := trace + [Wrote(m, k, v)];
        }
      assert trace != before ==> trace[..|trace| - 1] == before;
    }
    assert calls[..|calls|] == calls;
  }

  method AskOne(a: Allocator, bytes: u32, ghost trace: seq<Event>) returns (r: int)
    requires a.Valid() && Faithful(a.H(), trace)
    modifies a
    ensures a.Valid()
    ensures r != 0 ==> Faithful(a.H(), trace + [Given(r, bytes)])
    ensures r == 0 ==> Faithful(a.H(), trace + [Refused(bytes)])
    ensures a.curptr >= old(a.curptr)
    ensures r == 0 ==> B.OutOfRange(bytes) || a.heapEnd - a.curptr < B.Request2Size(bytes) + SLACK
  {
    ghost var h := a.H();
    ghost var seen;
    NullIsNoBlock(a, trace);
    r, seen := a.MAlloc(bytes);
    Answered(h, a.H(), trace, r, bytes);
    hide Faithful, a.Valid, Gives, Picked;
  }

  lemma NullIsNoBlock(a: Allocator, trace: seq<Event>)
    requires a.Valid() && Faithful(a.H(), trace)
    ensures 0 !in Blocks(trace)
  {
    if 0 in Blocks(trace) {
      assert Held(a.H(), 0, Blocks(trace)[0]);
      LiveAbove(a, -8);
    }
  }

  lemma LiveAbove(a: Allocator, p: int)
    requires a.Valid() && p in Live(a.H())
    ensures p >= HEAP_FLOOR
  {
    SoundWhenLive(a, p);
    assert ChunkOk(a.cs, a.base, a.top, p);
  }

  lemma Answered(h: Heap, h': Heap, trace: seq<Event>, r: int, bytes: u32)
    requires Faithful(h, trace) && 0 !in Blocks(trace)
    requires if B.OutOfRange(bytes) then r == 0 && h' == h else Gives(h, h', r, B.Request2Size(bytes))
    ensures Faithful(h', trace + [if r != 0 then Given(r, bytes) else Refused(bytes)])
  {
    if r != 0 {
      B.Request2SizeLeast(bytes);
      KeptAllStay(h, h', trace, r);
      assert Held(h', r, bytes);
      hide Faithful, Gives, Held, B.Request2Size;
      AfterGiven(h, h', trace, r, bytes);
    } else {
      SameRefl(h);
      KeptAllStay(h, h', trace, 0);
      hide Faithful;
      AfterRefused(h, h', trace, bytes);
    }
  }

  /** A heap with a live block has been initialised. */
  lemma SoundWhenLive(a: Allocator, p: int)
    requires a.Valid() && p in Live(a.H())
    ensures Sound(a.H(), a.O(), {}) && a.maxFast != 0
  {
  }

  method ReturnOne(a: Allocator, m: int, ghost trace: seq<Event>)
    requires a.Valid() && Faithful(a.H(), trace) && m in Blocks(trace)
    modifies a
    ensures a.Valid() && Faithful(a.H(), trace + [Returned(m)]) && a.curptr == old(a.curptr)
  {
    ghost var h := a.H();
    assert Held(h, m, Blocks(trace)[m]);
    NullIsNoBlock(a, trace);
    a.Free(m);
    KeptAllStay(h, a.H(), trace, m);
    hide Faithful, a.Valid, AllStay;
    AfterReturned(h, a.H(), trace, m);
  }

  method WriteOne(a: Allocator, m: int, k: nat, v: int, ghost trace: seq<Event>)
    requires a.Valid() && Faithful(a.H(), trace) && m in Blocks(trace) && k < Blocks(trace)[m]
    modifies a
    ensures a.Valid() && Faithful(a.H(), trace + [Wrote(m, k, v)]) && a.curptr == old(a.curptr)
  {
    ghost var h := a.H();
    assert Held(h, m, Blocks(trace)[m]);
    SoundWhenLive(a, m - 8);
    ClientWrites(h, a.O(), m, m + k, v);
    a.mem := a.mem[m + k := v];
    assert a.H() == Poked(h, m + k, v);
    hide Sound;
    KeptAllStay(h, a.H(), trace, m);
    hide Faithful, AllStay;
    AfterWrote(h, trace, m, k, v);
  }
}
