/** Reading and writing the client's memory for the debugger: kernel/gdb_serial_support.c. */
module DebuggerCopy {
  import opened Arith
  import opened PagedMemory
  import opened Wrappers

  /** The client's bytes written one by one, each where its own address leads, until one is not mapped. */
  function ByteOut(mem: Memory, cr0: u32, cr3: u32, va: nat, src: seq<byte>): (Memory, bool)
    requires va + |src| <= WORD
    decreases |src|
  {
    if src == [] then (mem, true)
    else
      match Translate(mem, cr0, cr3, va)
      case None => (mem, false)
      case Some(pa) => ByteOut(mem[pa := src[0]], cr0, cr3, va + 1, src[1..])
  }

  /** v is as far after pa in memory as after va for the client. */
  ghost predicate LeadsHere(mem: Memory, cr0: u32, cr3: u32, va: nat, pa: nat, v: u32) {
    Translate(mem, cr0, cr3, v).Some? && Translate(mem, cr0, cr3, v).value == pa + (v - va)
  }

  ghost predicate LeadsOne(mem: Memory, cr0: u32, cr3: u32, va: nat, pa: nat, v: u32) {
    && LeadsHere(mem, cr0, cr3, va, pa, v)
    && (PagingOn(cr0) ==> !InTables(mem, cr3, Translate(mem, cr0, cr3, v).value))
  }

  /** The bytes from va on go, one after the other, to pa and the addresses after it, and to no table. */
  ghost predicate LeadsTo(mem: Memory, cr0: u32, cr3: u32, va: nat, pa: nat, n: nat) {
    forall v: u32 :: va <= v < va + n ==> LeadsOne(mem, cr0, cr3, va, pa, v)
  }

  /** n bytes from va on reach just to the end of its page. */
  predicate EndsPage(mem: Memory, cr3: u32, va: u32, n: nat) {
    var page := if Super(DirectoryEntry(mem, cr3, va)) then SUPERPAGE else PAGE;
    n <= page && (va + n) % page == 0
  }

  lemma RestOfPage(va: u32, page: nat)
    requires page > 0
    ensures (va + (page - va % page)) % page == 0
  {
    var q := va / page;
    assert va == q * page + va % page;
    Distribute(q, -1, page);
    ModUnique(va + (page - va % page), q + 1, page, 0);
  }

  /** Nothing that the walk reads has changed. */
  ghost predicate SameWalk(mem: Memory, mem': Memory, cr0: u32, cr3: u32) {
    PagingOn(cr0) ==> KeepsTables(mem, mem', cr3)
  }

  lemma SameWalkThrough(a: Memory, b: Memory, c: Memory, cr0: u32, cr3: u32)
    requires SameWalk(a, b, cr0, cr3) && SameWalk(b, c, cr0, cr3)
    ensures SameWalk(a, c, cr0, cr3)
  {
    if PagingOn(cr0) {
      KeepsThrough(a, b, c, cr3);
    }
  }

  lemma SameTranslation(a: Memory, b: Memory, cr0: u32, cr3: u32, va: u32)
    requires SameWalk(a, b, cr0, cr3)
    ensures Translate(b, cr0, cr3, va) == Translate(a, cr0, cr3, va)
  {
    if PagingOn(cr0) {
      SameTables(a, b, cr0, cr3, va);
    }
  }

  /** The bytes from va on do not lie in the tables that translate them. */
  ghost predicate SafeTarget(mem: Memory, cr0: u32, cr3: u32, va: u32, size: nat) {
    PagingOn(cr0) ==>
      forall v: u32 :: va <= v < va + size && Translate(mem, cr0, cr3, v).Some? ==> !InTables(mem, cr3, Translate(mem, cr0, cr3, v).value)
  }

  lemma Leads(m0: Memory, m1: Memory, cr0: u32, cr3: u32, from: u32, size: nat, va: u32, pa: nat, n: nat)
    requires from + size <= WORD && SameWalk(m0, m1, cr0, cr3) && from <= va && va + n <= from + size
    requires SafeTarget(m0, cr0, cr3, from, size)
    requires forall v: u32 :: va <= v < va + n ==> LeadsHere(m1, cr0, cr3, va, pa, v)
    ensures LeadsTo(m1, cr0, cr3, va, pa, n)
  {
    hide Translate, InTables;
    forall v: u32 | va <= v < va + n
      ensures LeadsOne(m1, cr0, cr3, va, pa, v)
    {
      assert LeadsHere(m1, cr0, cr3, va, pa, v);
      SameTranslation(m0, m1, cr0, cr3, v);
    }
  }

  lemma OneWhere(m0: Memory, m: Memory, cr0: u32, cr3: u32, va: nat, pa: nat, n: nat, i: nat)
    requires LeadsTo(m0, cr0, cr3, va, pa, n) && SameWalk(m0, m, cr0, cr3) && i < n && va + i < WORD
    ensures Translate(m, cr0, cr3, va + i).Some? && Translate(m, cr0, cr3, va + i).value == pa + i
    ensures PagingOn(cr0) ==> !InTables(m, cr3, pa + i)
  {
    var v: u32 := va + i;
    assert LeadsOne(m0, cr0, cr3, va, pa, v);
    hide Translate, InTables;
    SameTranslation(m0, m, cr0, cr3, v);
  }

  lemma OneOut(m: Memory, cr0: u32, cr3: u32, va: u32, pa: nat, src: seq<byte>)
    requires src != [] && va + |src| <= WORD && Translate(m, cr0, cr3, va).Some? && Translate(m, cr0, cr3, va).value == pa
    ensures ByteOut(m, cr0, cr3, va, src) == ByteOut(m[pa := src[0]], cr0, cr3, va + 1, src[1..])
  {
    hide Translate;
  }

  /** One byte of a run: it goes where the walk says, and the walk stays as it is. */
  lemma OneByte(m0: Memory, m: Memory, cr0: u32, cr3: u32, va: nat, pa: nat, n: nat, i: nat, src: seq<byte>)
    requires LeadsTo(m0, cr0, cr3, va, pa, n) && SameWalk(m0, m, cr0, cr3) && i < n && src != [] && va + i + |src| <= WORD
    ensures SameWalk(m0, m[pa + i := src[0]], cr0, cr3)
    ensures ByteOut(m, cr0, cr3, va + i, src) == ByteOut(m[pa + i := src[0]], cr0, cr3, va + i + 1, src[1..])
  {
    hide Translate, InTables, LeadsTo, KeepsTables, ByteOut;
    OneWhere(m0, m, cr0, cr3, va, pa, n, i);
    OneOut(m, cr0, cr3, va + i, pa + i, src);
    if PagingOn(cr0) {
      WriteOutside(m, cr3, pa + i, src[0]);
      KeepsThrough(m0, m, m[pa + i := src[0]], cr3);
    }
  }

  lemma SameWalkStart(m: Memory, cr0: u32, cr3: u32)
    ensures SameWalk(m, m, cr0, cr3)
  {
  }

  lemma StopsAt(m: Memory, cr0: u32, cr3: u32, va: u32, src: seq<byte>)
    requires va + |src| <= WORD && src != [] && Translate(m, cr0, cr3, va) == None
    ensures ByteOut(m, cr0, cr3, va, src) == (m, false)
  {
  }

  lemma AllOut(m: Memory, cr0: u32, cr3: u32, va: nat)
    requires va <= WORD
    ensures ByteOut(m, cr0, cr3, va, []) == (m, true)
  {
  }

  lemma InRun(va: nat, v: nat, page: nat)
    requires page > 0 && va <= v < va + page - va % page
    ensures v / page == va / page && v % page == va % page + (v - va)
  {
    ModUnique(v, va / page, page, va % page + (v - va));
  }

  /** The bytes of a 4K page from va on. */
  lemma SmallRun(mem: Memory, cr0: u32, cr3: u32, va: u32, v: u32)
    requires PagingOn(cr0) && va <= v < va + PAGE - va % PAGE
    ensures v / SUPERPAGE == va / SUPERPAGE && v / PAGE == va / PAGE && v % PAGE == va % PAGE + (v - va)
    ensures DirectoryEntry(mem, cr3, v) == DirectoryEntry(mem, cr3, va)
    ensures forall pde: u32 :: TableEntry(mem, pde, v) == TableEntry(mem, pde, va)
  {
    InRun(va, v, PAGE);
    Coarser(va);
    Coarser(v);
  }

  /** The first n bytes of d are those the client has from va on, each fetched where its own address leads. */
  ghost predicate CopiedIn(mem: Memory, cr0: u32, cr3: u32, va: u32, n: nat, d: seq<byte>) {
    n <= |d| && forall v: u32 :: va <= v < va + n ==>
                                   Translate(mem, cr0, cr3, v).Some? && d[v - va] == At(mem, Translate(mem, cr0, cr3, v).value)
  }

  lemma CopiedMore(mem: Memory, cr0: u32, cr3: u32, va: u32, n: nat, d: seq<byte>, d': seq<byte>, from: u32, pa: nat, sz: nat)
    requires CopiedIn(mem, cr0, cr3, va, n, d) && |d'| == |d| && n + sz <= |d| && from == va + n
    requires d'[..n] == d[..n] && forall i :: n <= i < n + sz ==> d'[i] == At(mem, pa + (i - n))
    requires forall v: u32 :: from <= v < from + sz ==> LeadsHere(mem, cr0, cr3, from, pa, v)
    ensures CopiedIn(mem, cr0, cr3, va, n + sz, d')
  {
    hide Translate;
    forall v: u32 | va <= v < va + n + sz
      ensures Translate(mem, cr0, cr3, v).Some? && d'[v - va] == At(mem, Translate(mem, cr0, cr3, v).value)
    {
      if v < va + n {
        assert d'[..n][v - va] == d[..n][v - va];
      } else {
        assert LeadsHere(mem, cr0, cr3, from, pa, v);
      }
    }
  }

  class Debugger {
    var mem: Memory
    var clientCr0: u32
    var clientCr3: u32

    /** `phys_addr_lookup`: where va is, and how many bytes from there belong to the same page; 0 if it is not mapped. */
    method PhysAddrLookup(va: u32) returns (paddr: u32, len: nat)
      ensures len == 0 <==> Translate(mem, clientCr0, clientCr3, va) == None
      ensures forall v: u32 :: va <= v < va + len ==> LeadsHere(mem, clientCr0, clientCr3, va, paddr, v)
      ensures len > 0 && PagingOn(clientCr0) ==> EndsPage(mem, clientCr3, va, len)
      ensures !PagingOn(clientCr0) ==> len == WORD - 1
    {
      paddr, len := 0, 0;
      hide TableEntry, DirectoryEntry, Frame, SuperFrame;
      var pde := DirectoryEntry(mem, clientCr3, va);
      if !PagingOn(clientCr0) {
        return va, 0xffff_ffff;
      }
      if !Valid(pde) {
        return;
      }
      if !Super(pde) {
        var pte := TableEntry(mem, pde, va);
        var offs := va % PAGE;
        if !Valid(pte) {
          return;
        }
        paddr := Frame(pte) + offs;
        len := PAGE - offs;
        RestOfPage(va, PAGE);
        forall v: u32 | va <= v < va + len
          ensures LeadsHere(mem, clientCr0, clientCr3, va, paddr, v)
        {
          SmallRun(mem, clientCr0, clientCr3, va, v);
        }
      } else {
        var offs := va % SUPERPAGE;
        paddr := SuperFrame(pde) + offs;
        len := SUPERPAGE - offs;
        RestOfPage(va, SUPERPAGE);
        forall v: u32 | va <= v < va + len
          ensures LeadsHere(mem, clientCr0, clientCr3, va, paddr, v)
        {
          InRun(va, v, SUPERPAGE);
          SameDirectory(mem, clientCr3, va, v);
        }
      }
    }

    /** `gdb_copyin`: the bytes up to the first that is not mapped; 0 when there is none, else -1. */
    method CopyIn(srcVa: u32, dest: array<byte>, size: nat) returns (r: int, ghost k: nat)
      requires srcVa + size <= WORD && size <= dest.Length
      modifies dest
      ensures k <= size && r == (if k == size then 0 else -1)
      ensures CopiedIn(mem, clientCr0, clientCr3, srcVa, k, dest[..])
      ensures k < size ==> Translate(mem, clientCr0, clientCr3, srcVa + k) == None
      ensures dest[k..] == old(dest[k..])
    {
      var va, left, n := srcVa, size, 0;
      ghost var d0 := dest[..];
      k := 0;
      hide Translate;
      while left > 0
        invariant 0 <= left && n == size - left && (left > 0 ==> va == srcVa + n)
        invariant CopiedIn(mem, clientCr0, clientCr3, srcVa, n, dest[..])
        invariant dest[n..] == d0[n..]
        decreases left
      {
        var pa, sz := PhysAddrLookup(va);
        if sz == 0 {
          return -1, n;
        }
        if sz > left {
          sz := left;
        }
        ghost var d := dest[..];
        MemcpyIn(dest, n, pa, sz);
        CopiedMore(mem, clientCr0, clientCr3, srcVa, n, d, dest[..], va, pa, sz);
        assert d[n + sz..] == dest[n + sz..] && d[n + sz..] == d[n..][sz..] && d0[n + sz..] == d0[n..][sz..];
        left := left - sz;
        va := (va + sz) % WORD;
        n := n + sz;
      }
      r, k := 0, size;
    }

    method MemcpyIn(dest: array<byte>, at: nat, pa: nat, n: nat)
      requires at + n <= dest.Length
      modifies dest
      ensures forall i :: at <= i < at + n ==> dest[i] == At(mem, pa + (i - at))
      ensures dest[..at] == old(dest[..at]) && dest[at + n..] == old(dest[at + n..])
    {
      for i := 0 to n
        invariant forall j :: at <= j < at + i ==> dest[j] == At(mem, pa + (j - at))
        invariant dest[..at] == old(dest[..at]) && dest[at + i..] == old(dest[at + i..])
      {
        dest[at + i] := At(mem, pa + i);
      }
    }

    /**
     `gdb_copyout` does what copying byte by byte would do, and reports a page that is not mapped.
     The bytes must not go over the tables that say where they go.
     */
    method CopyOut(src: array<byte>, destVa: u32, size: nat) returns (r: int)
      requires destVa + size <= WORD && size <= src.Length
      requires SafeTarget(mem, clientCr0, clientCr3, destVa, size)
      modifies this`mem
      ensures (mem, r == 0) == ByteOut(old(mem), clientCr0, clientCr3, destVa, src[..size]) && (r == 0 || r == -1)
    {
      hide Translate, InTables, ByteOut, SameWalk, LeadsTo;
      var va, left, n := destVa, size, 0;
      ghost var m0 := mem;
      assert src[..size] == src[0..size];
      SameWalkStart(mem, clientCr0, clientCr3);
      while left > 0
        invariant 0 <= left && n == size - left && (left > 0 ==> va == destVa + n) && SameWalk(m0, mem, clientCr0, clientCr3)
        invariant ByteOut(m0, clientCr0, clientCr3, destVa, src[..size]) == ByteOut(mem, clientCr0, clientCr3, destVa + n, src[n..size])
        decreases left
      {
        var pa, sz := PhysAddrLookup(va);
        if sz == 0 {
          StopsAt(mem, clientCr0, clientCr3, destVa + n, src[n..size]);
          return -1;
        }
        if sz > left {
          sz := left;
        }
        ghost var m1 := mem;
        Leads(m0, m1, clientCr0, clientCr3, destVa, size, destVa + n, pa, sz);
        MemcpyOut(pa, src, n, sz, destVa + n, size);
        SameWalkThrough(m0, m1, mem, clientCr0, clientCr3);
        left := left - sz;
        va := (va + sz) % WORD;
        n := n + sz;
      }
      r := 0;
      assert src[n..size] == [];
      AllOut(mem, clientCr0, clientCr3, destVa + n);
    }

    method MemcpyOut(pa: nat, src: array<byte>, at: nat, n: nat, ghost va: nat, ghost end: nat)
      requires at + n <= end <= src.Length && va + (end - at) <= WORD && LeadsTo(mem, clientCr0, clientCr3, va, pa, n)
      modifies this`mem
      ensures ByteOut(old(mem), clientCr0, clientCr3, va, src[at..end]) == ByteOut(mem, clientCr0, clientCr3, va + n, src[at + n..end])
      ensures SameWalk(old(mem), mem, clientCr0, clientCr3)
    {
      ghost var m0 := mem;
      for i := 0 to n
        invariant SameWalk(m0, mem, clientCr0, clientCr3)
        invariant ByteOut(m0, clientCr0, clientCr3, va, src[at..end]) == ByteOut(mem, clientCr0, clientCr3, va + i, src[at + i..end])
      {
        OneByte(m0, mem, clientCr0, clientCr3, va, pa, n, i, src[at + i..end]);
        assert src[at + i..end][1..] == src[at + i + 1..end];
        mem := mem[pa + i := src[at + i]];
      }
    }
  }

  lemma SameDirectory(mem: Memory, cr3: u32, va: u32, v: u32)
    requires v / SUPERPAGE == va / SUPERPAGE
    ensures DirectoryEntry(mem, cr3, v) == DirectoryEntry(mem, cr3, va)
  {
  }
}
