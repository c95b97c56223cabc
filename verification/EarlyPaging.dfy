/**
 The paging structures the kernel builds at boot: kernel/boot/early_mm.c.  The symbols of the linker
 script are parameters; `early_mm_check`, which halts on bad ones, is left to the preconditions.
 */
module EarlyPaging {
  import opened Arith
  import opened PagedMemory
  import opened Wrappers

  const MAPPED_END: int := 0x1000_0000    // mem_end, 256 MB
  const TABLES: int := 64
  const RO: u32 := 1
  const RW: u32 := 3

  datatype Region = Region(start: u32, end: u32, flags: u32)

  /** The loop of `early_mm_map_region` passes through page p. */
  predicate Covers(r: Region, p: int) {
    p >= r.start / PAGE && PAGE * p + r.start % PAGE < r.end
  }

  /** The table entry of page p after the regions of rs were mapped in order. */
  function EntryAfter(rs: seq<Region>, p: nat): int {
    if rs == [] then 0
    else if Covers(rs[|rs| - 1], p) then PAGE * p + rs[|rs| - 1].flags
    else EntryAfter(rs[..|rs| - 1], p)
  }

  predicate Mappable(r: Region) {
    PAGE <= r.start <= MAPPED_END && r.end <= MAPPED_END && r.flags in {RO, RW}
  }

  /** The last region i that covers the page decides; with no such region, i is -1 and the page is not mapped. */
  lemma {:induction false} EntryIs(rs: seq<Region>, p: nat, i: int)
    requires -1 <= i < |rs| && (i >= 0 ==> Covers(rs[i], p)) && forall j :: i < j < |rs| ==> !Covers(rs[j], p)
    ensures EntryAfter(rs, p) == if i < 0 then 0 else PAGE * p + rs[i].flags
  {
    hide Covers;
    if i < |rs| - 1 {
      EntryIs(rs[..|rs| - 1], p, i);
    }
  }

  /** Page 0 and the pages past 256 MB belong to no region. */
  lemma {:induction false} EntryRange(rs: seq<Region>, p: nat)
    requires forall i :: 0 <= i < |rs| ==> Mappable(rs[i])
    ensures EntryAfter(rs, p) == 0 || EntryAfter(rs, p) in {PAGE * p + RO, PAGE * p + RW}
    ensures p == 0 || PAGE * p >= MAPPED_END ==> EntryAfter(rs, p) == 0
  {
    hide Covers, Mappable;
    if rs != [] {
      EntryRange(rs[..|rs| - 1], p);
      if Covers(rs[|rs| - 1], p) {
        CoveredPages(rs[|rs| - 1], p);
      }
    }
  }

  lemma CoveredPages(r: Region, p: nat)
    requires Mappable(r) && Covers(r, p)
    ensures 0 < p && PAGE * p < MAPPED_END && r.flags in {RO, RW}
  {
  }

  /** The addresses of the linker script, in the order the code uses them. */
  datatype Symbols = Symbols(
    start: u32, textStart: u32, textEnd: u32, multibootStart: u32, multibootEnd: u32, rodataStart: u32, rodataEnd: u32,
    stackStart: u32, stackEnd: u32, dataStart: u32, dataEnd: u32, bssStart: u32, bssEnd: u32, end: u32)

  function Regions(s: Symbols): seq<Region> {
    [Region(PAGE, s.start, RW), Region(s.start, s.textStart, RW), Region(s.textStart, s.textEnd, RO),
     Region(s.multibootStart, s.multibootEnd, RO), Region(s.rodataStart, s.rodataEnd, RO), Region(s.stackStart, s.stackEnd, RW),
     Region(s.dataStart, s.dataEnd, RW), Region(s.bssStart, s.bssEnd, RW), Region(s.end, MAPPED_END, RW)]
  }

  // ----- which bytes may be written, by the addresses of the linker script

  /** Text, multiboot header and constants. */
  predicate ReadOnly(s: Symbols, va: u32) {
    || s.textStart <= va < s.textEnd
    || s.multibootStart <= va < s.multibootEnd
    || s.rodataStart <= va < s.rodataEnd
  }

  /** All up to the text but the first page, stack, data, bss, and all from the page of `_end` on. */
  predicate Writable(s: Symbols, va: u32) {
    || 4096 <= va < s.textStart
    || s.stackStart <= va < s.stackEnd
    || s.dataStart <= va < s.dataEnd
    || s.bssStart <= va < s.bssEnd
    || s.end - s.end % PAGE <= va < 0x1000_0000
  }

  /** Sections begin and end on pages; `_end` need not, and the linker script does not see to it. */
  predicate PageAligned(s: Symbols) {
    && s.start % PAGE == 0 && s.textStart % PAGE == 0 && s.textEnd % PAGE == 0
    && s.multibootStart % PAGE == 0 && s.multibootEnd % PAGE == 0 && s.rodataStart % PAGE == 0 && s.rodataEnd % PAGE == 0
    && s.stackStart % PAGE == 0 && s.stackEnd % PAGE == 0 && s.dataStart % PAGE == 0 && s.dataEnd % PAGE == 0
    && s.bssStart % PAGE == 0 && s.bssEnd % PAGE == 0
  }

  /** Nothing read-only lies where something is to be written. */
  ghost predicate SectionsApart(s: Symbols) {
    s.start <= s.textStart && forall va: u32 :: !(ReadOnly(s, va) && Writable(s, va))
  }

  /** In the order of the linker script the sections are apart. */
  lemma LinkerOrder(s: Symbols)
    requires PageAligned(s) && PAGE <= s.start <= s.textStart <= s.textEnd <= s.multibootStart <= s.multibootEnd <= s.stackStart
    requires s.stackStart <= s.stackEnd <= s.rodataStart <= s.rodataEnd <= s.dataStart <= s.dataEnd <= s.bssStart <= s.end
    ensures SectionsApart(s)
  {
    var a, b := s.bssStart / PAGE, s.end / PAGE;
    assert s.bssStart == PAGE * a && s.end == PAGE * b + s.end % PAGE;
    assert s.bssStart <= s.end - s.end % PAGE;
  }

  /** The R/W bit of an entry. */
  predicate MayWrite(entry: u32) { entry / 2 % 2 == 1 }

  /** What the walk must find at an address: the same address, to be written just where that is meant; or nothing. */
  ghost predicate MappedAs(mem: Memory, pgdir: u32, s: Symbols, cr0: u32, va: u32) {
    var pde := DirectoryEntry(mem, pgdir, va);
    if ReadOnly(s, va) then Translate(mem, cr0, pgdir, va) == Some(va) && !MayWrite(TableEntry(mem, pde, va))
    else if Writable(s, va) then Translate(mem, cr0, pgdir, va) == Some(va) && MayWrite(pde) && MayWrite(TableEntry(mem, pde, va))
    else Translate(mem, cr0, pgdir, va) == None
  }

  lemma CoversAligned(r: Region, va: u32)
    requires r.start % PAGE == 0 && r.end % PAGE == 0
    ensures Covers(r, va / PAGE) <==> r.start <= va < r.end
  {
    var a, b, p := r.start / PAGE, r.end / PAGE, va / PAGE;
    assert r.start == PAGE * a && r.end == PAGE * b && va == PAGE * p + va % PAGE;
  }

  lemma CoversRest(start: u32, va: u32)
    requires PAGE <= start <= MAPPED_END
    ensures Covers(Region(start, MAPPED_END, RW), va / PAGE) <==> start - start % PAGE <= va < MAPPED_END
  {
    var a, p := start / PAGE, va / PAGE;
    assert start == PAGE * a + start % PAGE && va == PAGE * p + va % PAGE;
  }

  /** Where the regions that cover a page agree on the flags, these are the flags of the page. */
  lemma {:induction false} EntryAgreed(rs: seq<Region>, p: nat, flags: u32)
    requires forall i :: 0 <= i < |rs| && Covers(rs[i], p) ==> rs[i].flags == flags
    ensures EntryAfter(rs, p) == if exists i :: 0 <= i < |rs| && Covers(rs[i], p) then PAGE * p + flags else 0
  {
    hide Covers;
    if rs != [] {
      var n := |rs| - 1;
      EntryAgreed(rs[..n], p, flags);
      if Covers(rs[n], p) {
      } else if i :| 0 <= i < |rs| && Covers(rs[i], p) {
        assert Covers(rs[..n][i], p);
      }
    }
  }

  /** Which of the nine regions cover an address. */
  lemma Coverage(s: Symbols, va: u32)
    requires PageAligned(s) && s.start <= s.textStart && forall r :: r in Regions(s) ==> Mappable(r)
    ensures var rs, p := Regions(s), va / PAGE;
            && (ReadOnly(s, va) <==> Covers(rs[2], p) || Covers(rs[3], p) || Covers(rs[4], p))
            && (Writable(s, va) <==> Covers(rs[0], p) || Covers(rs[1], p) || Covers(rs[5], p) || Covers(rs[6], p) || Covers(rs[7], p) || Covers(rs[8], p))
  {
    hide Covers, Mappable;
    var rs := Regions(s);
    assert Mappable(rs[1]) && Mappable(rs[8]) by {
      assert rs[1] in rs && rs[8] in rs;
    }
    for i := 0 to 8
      invariant forall j :: 0 <= j < i ==> (Covers(rs[j], va / PAGE) <==> rs[j].start <= va < rs[j].end)
    {
      CoversAligned(rs[i], va);
    }
    StartsLow(rs[1]);
    StartsLow(rs[8]);
    CoversRest(s.end, va);
    hide Regions, PageAligned;
  }

  lemma StartsLow(r: Region)
    requires Mappable(r)
    ensures PAGE <= r.start <= MAPPED_END
  {
  }

  /** The flags of the tables are those the sections are to have. */
  lemma EntryProtects(s: Symbols, va: u32)
    requires PageAligned(s) && SectionsApart(s) && forall r :: r in Regions(s) ==> Mappable(r)
    ensures EntryAfter(Regions(s), va / PAGE) ==
            if ReadOnly(s, va) then PAGE * (va / PAGE) + RO else if Writable(s, va) then PAGE * (va / PAGE) + RW else 0
  {
    var rs, p := Regions(s), va / PAGE;
    var flags := if ReadOnly(s, va) then RO else RW;
    Coverage(s, va);
    assert !(ReadOnly(s, va) && Writable(s, va));
    hide Covers, Mappable, EntryAfter, ReadOnly, Writable;
    forall i | 0 <= i < |rs| && Covers(rs[i], p)
      ensures rs[i].flags == flags
    {
      assert i in {0, 1, 2, 3, 4, 5, 6, 7, 8};
    }
    EntryAgreed(rs, p, flags);
  }

  class BootPaging {
    var mem: Memory
    const pgdir: u32
    const pgtab: u32

    /** Directory and tables are page aligned and apart. */
    predicate Layout() {
      && pgdir % PAGE == 0 && pgtab % PAGE == 0 && pgdir + PAGE <= WORD && pgtab + TABLES * PAGE <= WORD
      && (pgdir + PAGE <= pgtab || pgtab + TABLES * PAGE <= pgdir)
    }

    ghost predicate DirectoryDone()
      reads this
    {
      && (forall i :: 0 <= i < TABLES ==> Word(mem, pgdir + 4 * i) == pgtab + PAGE * i + 3)
      && (forall i :: TABLES <= i < 1024 ==> Word(mem, pgdir + 4 * i) == 0)
    }

    function Entry(p: nat): u32
      reads this
    {
      Word(mem, pgtab + 4 * p)
    }

    constructor (mem: Memory, pgdir: u32, pgtab: u32)
      ensures this.mem == mem && this.pgdir == pgdir && this.pgtab == pgtab
    {
      this.mem, this.pgdir, this.pgtab := mem, pgdir, pgtab;
    }

    method Put(a: int, v: u32)
      modifies this`mem
      ensures Word(mem, a) == v
      ensures forall b :: b + 4 <= a || a + 4 <= b ==> Word(mem, b) == Word(old(mem), b)
    {
      WordWritten(mem, a, v);
      mem := WithWord(mem, a, v);
    }

    /** `early_mm_fill_pgdir` */
    method FillPgdir(count: nat)
      requires Layout() && count == TABLES
      modifies this`mem
      ensures DirectoryDone()
      ensures forall p :: 0 <= p < TABLES * 1024 ==> Entry(p) == old(Entry(p))
    {
      hide Word, WithWord;
      for i := 0 to count
        invariant forall j :: 0 <= j < i ==> Word(mem, pgdir + 4 * j) == pgtab + PAGE * j + 3
        invariant forall p :: 0 <= p < TABLES * 1024 ==> Entry(p) == old(Entry(p))
      {
        Put(pgdir + 4 * i, pgtab + PAGE * i + 3);
      }
      for i := count to 1024
        invariant forall j :: 0 <= j < TABLES ==> Word(mem, pgdir + 4 * j) == pgtab + PAGE * j + 3
        invariant forall j :: TABLES <= j < i ==> Word(mem, pgdir + 4 * j) == 0
        invariant forall p :: 0 <= p < TABLES * 1024 ==> Entry(p) == old(Entry(p))
      {
        Put(pgdir + 4 * i, 0);
      }
    }

    /** `memset` of the page tables. */
    method ClearTables()
      requires Layout()
      modifies this`mem
      ensures forall p :: 0 <= p < TABLES * 1024 ==> Entry(p) == 0
    {
      for i := 0 to PAGE * TABLES
        invariant forall a :: pgtab <= a < pgtab + i ==> At(mem, a) == 0
      {
        ByteWritten(mem, pgtab + i, 0);
        mem := mem[pgtab + i := 0];
      }
    }

    /** `early_mm_map_region`: exactly the pages the region covers get their identity entry. */
    method MapRegion(r: Region)
      requires Layout() && DirectoryDone() && Mappable(r)
      modifies this`mem
      ensures DirectoryDone()
      ensures forall p :: 0 <= p < TABLES * 1024 ==> Entry(p) == if Covers(r, p) then PAGE * p + r.flags else old(Entry(p))
    {
      var address := r.start;
      ghost var p0 := r.start / PAGE;
      ghost var n := 0;
      while address < r.end
        invariant n >= 0 && address == r.start + PAGE * n && DirectoryDone()
        invariant forall p :: 0 <= p < TABLES * 1024 ==>
                                Entry(p) == if p0 <= p < p0 + n then PAGE * p + r.flags else old(Entry(p))
        invariant n > 0 ==> address - PAGE < r.end
        decreases r.end - address
      {
        MapPage(address, r.flags, p0 + n);
        address := address + PAGE;
        n := n + 1;
      }
    }

    method MapPage(address: u32, flags: u32, ghost p: nat)
      requires Layout() && DirectoryDone() && address < MAPPED_END && flags in {RO, RW} && p == address / PAGE
      modifies this`mem
      ensures DirectoryDone() && p < TABLES * 1024 && Entry(p) == PAGE * p + flags
      ensures forall q :: 0 <= q < TABLES * 1024 && q != p ==> Entry(q) == old(Entry(q))
    {
      hide Word, WithWord, Frame;
      PageIndices(address, p);
      var pdIndex := address / SUPERPAGE;
      var ptIndex := address / PAGE % 1024;
      var ptable := Frame(Word(mem, pgdir + 4 * pdIndex));
      TableOf(pdIndex);
      Put(ptable + 4 * ptIndex, Frame(address) + flags);
    }

    /** The tables are those of the regions mapped so far. */
    ghost predicate Holds(rs: seq<Region>)
      reads this
    {
      DirectoryDone() && forall p :: 0 <= p < TABLES * 1024 ==> Entry(p) == EntryAfter(rs, p)
    }

    method MapNext(ghost rs: seq<Region>, r: Region)
      requires Layout() && Holds(rs) && Mappable(r)
      modifies this`mem
      ensures Holds(rs + [r])
    {
      assert (rs + [r])[..|rs|] == rs;
      hide Covers;
      MapRegion(r);
    }

    /** Empty tables, and the directory that names them. */
    method StartTables()
      requires Layout()
      modifies this`mem
      ensures Holds([])
    {
      hide Word;
      ClearTables();
      FillPgdir(TABLES);
      assert forall p :: 0 <= p < TABLES * 1024 ==> Entry(p) == 0;
      ghost var m := mem;
      label before:
      Put(pgtab, 0);
      forall i | 0 <= i < 1024
        ensures Word(mem, pgdir + 4 * i) == Word(m, pgdir + 4 * i)
      {
        assert pgdir + 4 * i + 4 <= pgtab || pgtab + 4 <= pgdir + 4 * i;
      }
      forall p | 0 <= p < TABLES * 1024
        ensures Entry(p) == 0
      {
        assert old@before(Entry(p)) == 0;
        StillZero(m, p);
      }
    }

    lemma StillZero(m: Memory, p: nat)
      requires Word(m, pgtab + 4 * p) == 0 && Word(mem, pgtab) == 0
      requires forall b :: b + 4 <= pgtab || pgtab + 4 <= b ==> Word(mem, b) == Word(m, b)
      ensures Entry(p) == 0
    {
      hide Word;
      if p > 0 {
        assert pgtab + 4 <= pgtab + 4 * p;
      }
    }

    /** `early_mm_map_kernel` */
    method MapKernel(s: Symbols)
      requires Layout() && forall r :: r in Regions(s) ==> Mappable(r)
      modifies this`mem
      ensures Holds(Regions(s))
      ensures PageAligned(s) && SectionsApart(s) ==> forall cr0: u32, va: u32 :: PagingOn(cr0) ==> MappedAs(mem, pgdir, s, cr0, va)
    {
      MapRegions(s);
      forall cr0: u32, va: u32 | PageAligned(s) && SectionsApart(s) && PagingOn(cr0)
        ensures MappedAs(mem, pgdir, s, cr0, va)
      {
        Protected(s, cr0, va);
      }
    }

    method MapRegions(s: Symbols)
      requires Layout() && forall r :: r in Regions(s) ==> Mappable(r)
      modifies this`mem
      ensures Holds(Regions(s))
    {
      hide Holds, Mappable;
      StartTables();
      var rs := Regions(s);
      MapNext([], Region(PAGE, s.start, RW));
      assert [] + [rs[0]] == rs[..1];
      MapNext(rs[..1], Region(s.start, s.textStart, RW));
      assert rs[..1] + [rs[1]] == rs[..2];
      MapNext(rs[..2], Region(s.textStart, s.textEnd, RO));
      assert rs[..2] + [rs[2]] == rs[..3];
      MapNext(rs[..3], Region(s.multibootStart, s.multibootEnd, RO));
      assert rs[..3] + [rs[3]] == rs[..4];
      MapNext(rs[..4], Region(s.rodataStart, s.rodataEnd, RO));
      assert rs[..4] + [rs[4]] == rs[..5];
      MapNext(rs[..5], Region(s.stackStart, s.stackEnd, RW));
      assert rs[..5] + [rs[5]] == rs[..6];
      MapNext(rs[..6], Region(s.dataStart, s.dataEnd, RW));
      assert rs[..6] + [rs[6]] == rs[..7];
      MapNext(rs[..7], Region(s.bssStart, s.bssEnd, RW));
      assert rs[..7] + [rs[7]] == rs[..8];
      MapNext(rs[..8], Region(s.end, MAPPED_END, RW));
      assert rs[..8] + [rs[8]] == rs;
    }

    /** The directory leads every address below 256 MB to its table, and no other anywhere. */
    lemma DirectoryLeads(va: u32)
      requires Layout() && DirectoryDone()
      ensures var pde := DirectoryEntry(mem, pgdir, va);
              if va < MAPPED_END then
                Valid(pde) && !Super(pde) && MayWrite(pde) && va / PAGE < TABLES * 1024 && TableEntry(mem, pde, va) == Entry(va / PAGE)
              else !Valid(pde)
    {
      hide Word;
      ModUnique(pgdir, pgdir / PAGE, PAGE, 0);
      assert Frame(pgdir) == pgdir;
      if va < MAPPED_END {
        PageIndices(va, va / PAGE);
        TableOf(va / SUPERPAGE);
        DirectoryFlags(va / SUPERPAGE);
      } else {
        assert TABLES <= va / SUPERPAGE < 1024;
      }
      hide Valid, Super, Frame;
    }

    /** The walk through the tables: the identity for the pages of some region, with the flags of the last; nothing else. */
    lemma WalkIs(rs: seq<Region>, cr0: u32, va: u32)
      requires Layout() && Holds(rs) && PagingOn(cr0) && forall i :: 0 <= i < |rs| ==> Mappable(rs[i])
      ensures Translate(mem, cr0, pgdir, va) == if va < MAPPED_END && EntryAfter(rs, va / PAGE) != 0 then Some(va) else None
      ensures va < MAPPED_END ==> TableEntry(mem, DirectoryEntry(mem, pgdir, va), va) == EntryAfter(rs, va / PAGE)
    {
      hide Word, Frame, EntryAfter, SuperFrame, Super, Valid, DirectoryEntry, TableEntry, Entry, Mappable, DirectoryDone;
      var p := va / PAGE;
      DirectoryLeads(va);
      EntryRange(rs, p);
      if va < MAPPED_END {
        assert Entry(p) == EntryAfter(rs, p);
        EntryFlags(p, RO);
        EntryFlags(p, RW);
      }
    }

    /** The kernel's text and constants cannot be written, the rest of its memory can, and nothing else is there. */
    lemma Protected(s: Symbols, cr0: u32, va: u32)
      requires Layout() && Holds(Regions(s)) && PagingOn(cr0) && forall r :: r in Regions(s) ==> Mappable(r)
      requires PageAligned(s) && SectionsApart(s)
      ensures MappedAs(mem, pgdir, s, cr0, va)
    {
      hide Word, Frame, Mappable, Translate, EntryAfter, DirectoryEntry, TableEntry, Valid, Super, MayWrite, PagingOn;
      hide Entry, Covers, Regions, PageAligned, SectionsApart;
      var p := va / PAGE;
      WalkIs(Regions(s), cr0, va);
      EntryProtects(s, va);
      EntryRange(Regions(s), p);
      DirectoryLeads(va);
      hide Holds, DirectoryDone;
      if va < MAPPED_END {
        BitOfFlags(p, RO);
        BitOfFlags(p, RW);
      }
    }

    lemma TableOf(i: nat)
      requires Layout() && DirectoryDone() && i < TABLES
      ensures Frame(Word(mem, pgdir + 4 * i)) == pgtab + PAGE * i
    {
      hide Word;
      var e := Word(mem, pgdir + 4 * i);
      ModUnique(e, pgtab / PAGE + i, PAGE, 3);
    }

    lemma DirectoryFlags(i: nat)
      requires Layout() && DirectoryDone() && i < TABLES
      ensures Valid(Word(mem, pgdir + 4 * i)) && !Super(Word(mem, pgdir + 4 * i)) && MayWrite(Word(mem, pgdir + 4 * i))
    {
      hide Word;
      BitOfFlags(pgtab / PAGE + i, RW);
      var e, q := Word(mem, pgdir + 4 * i), pgtab / PAGE + i;
      ModUnique(e, PAGE / 2 * q + 1, 2, 1);
      ModUnique(e, 32 * q, 0x80, 3);
      ModUnique(32 * q, 16 * q, 2, 0);
    }
  }

  lemma BitOfFlags(p: nat, flags: u32)
    requires flags in {RO, RW} && PAGE * p + flags < WORD
    ensures MayWrite(PAGE * p + flags) <==> flags == RW
  {
    ModUnique(PAGE * p + flags, PAGE / 2 * p + flags / 2, 2, 1);
    ModUnique(PAGE / 2 * p + flags / 2, PAGE / 4 * p, 2, flags / 2);
  }

  lemma EntryFlags(p: nat, flags: u32)
    requires flags in {RO, RW} && p < TABLES * 1024
    ensures Valid(PAGE * p + flags) && Frame(PAGE * p + flags) == PAGE * p && !Valid(0)
  {
    ModUnique(PAGE * p + flags, PAGE / 2 * p + flags / 2, 2, 1);
    ModUnique(PAGE * p + flags, p, PAGE, flags);
  }

  lemma PageIndices(address: u32, p: nat)
    requires address < MAPPED_END && p == address / PAGE
    ensures address / SUPERPAGE == p / 1024 && p == 1024 * (p / 1024) + p % 1024 && p / 1024 < TABLES && Frame(address) == PAGE * p
  {
    Coarser(address);
  }
}
