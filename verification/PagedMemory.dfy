/**
 Physical memory and the 32-bit page walk: what both the table builder of kernel/boot/early_mm.c
 and the debugger of kernel/gdb_serial_support.c must agree on.
 */
module PagedMemory {
  import opened Arith
  import opened Wrappers

  /** Bytes by address; one never written is 0. */
  type Memory = map<int, byte>

  function At(mem: Memory, a: int): byte { if a in mem then mem[a] else 0 }

  /** The little-endian word at a. */
  function Word(mem: Memory, a: int): u32 {
    At(mem, a) + 0x100 * At(mem, a + 1) + 0x1_0000 * At(mem, a + 2) + 0x100_0000 * At(mem, a + 3)
  }

  function WithWord(mem: Memory, a: int, v: u32): Memory {
    mem[a := v % 0x100][a + 1 := v / 0x100 % 0x100][a + 2 := v / 0x1_0000 % 0x100][a + 3 := v / 0x100_0000]
  }

  lemma WordWritten(mem: Memory, a: int, v: u32)
    ensures Word(WithWord(mem, a, v), a) == v
    ensures forall b :: b + 4 <= a || a + 4 <= b ==> Word(WithWord(mem, a, v), b) == Word(mem, b)
    ensures forall b :: b < a || a + 4 <= b ==> At(WithWord(mem, a, v), b) == At(mem, b)
  {
    assert v == v % 0x100 + 0x100 * (v / 0x100);
    var v1 := v / 0x100;
    assert v1 == v1 % 0x100 + 0x100 * (v1 / 0x100);
    var v2 := v1 / 0x100;
    assert v2 == v2 % 0x100 + 0x100 * (v2 / 0x100);
    assert v1 / 0x100 == v / 0x1_0000 && v2 / 0x100 == v / 0x100_0000;
  }

  lemma ByteWritten(mem: Memory, a: int, v: byte)
    ensures At(mem[a := v], a) == v
    ensures forall b {:trigger At(mem[a := v], b)} :: b != a ==> At(mem[a := v], b) == At(mem, b)
  {
  }

  const PAGE: int := 0x1000
  const SUPERPAGE: int := 0x40_0000

  predicate PagingOn(cr0: u32) { cr0 / 0x8000_0000 == 1 }
  predicate Valid(entry: u32) { entry % 2 == 1 }
  predicate Super(entry: u32) { entry / 0x80 % 2 == 1 }

  /** The 4K frame and the 4M frame an entry names. */
  function Frame(entry: u32): (f: u32)
    ensures f + PAGE <= WORD
  {
    assert entry - entry % PAGE == PAGE * (entry / PAGE);
    entry - entry % PAGE
  }

  function SuperFrame(entry: u32): (f: u32)
    ensures f + SUPERPAGE <= WORD
  {
    assert entry - entry % SUPERPAGE == SUPERPAGE * (entry / SUPERPAGE);
    entry - entry % SUPERPAGE
  }

  function DirectoryEntry(mem: Memory, cr3: u32, va: u32): u32 {
    Word(mem, Frame(cr3) + 4 * (va / SUPERPAGE))
  }

  function TableEntry(mem: Memory, pde: u32, va: u32): u32 {
    Word(mem, Frame(pde) + 4 * (va / PAGE % 1024))
  }

  /** The physical address of one byte, as the processor finds it. */
  function Translate(mem: Memory, cr0: u32, cr3: u32, va: u32): Option<u32> {
    if !PagingOn(cr0) then Some(va)
    else
      var pde := DirectoryEntry(mem, cr3, va);
      if !Valid(pde) then None
      else if Super(pde) then Some(SuperFrame(pde) + va % SUPERPAGE)
      else
        var pte := TableEntry(mem, pde, va);
        if !Valid(pte) then None else Some(Frame(pte) + va % PAGE)
  }

  /** A 4M page, number f, present and writable: all its addresses lead into that frame. */
  lemma SuperPageWalk(mem: Memory, cr3: u32, va: u32, f: nat)
    requires f < 1024 && DirectoryEntry(mem, cr3, va) == 0x40_0000 * f + 0x83
    ensures Translate(mem, 0x8000_0001, cr3, va) == Some(0x40_0000 * f + va % 0x40_0000)
  {
    var pde := DirectoryEntry(mem, cr3, va);
    ModUnique(pde, 0x20_0000 * f + 0x41, 2, 1);
    ModUnique(pde, 0x8000 * f + 1, 0x80, 3);
    ModUnique(0x8000 * f + 1, 0x4000 * f, 2, 1);
    ModUnique(pde, f, 0x40_0000, 0x83);
  }

  /** The bytes the walk can read: the directory, and the tables it names. */
  ghost predicate InTables(mem: Memory, cr3: u32, a: int) {
    || Frame(cr3) <= a < Frame(cr3) + PAGE
    || exists j :: 0 <= j < 1024 && InTable(Word(mem, Frame(cr3) + 4 * j), a)
  }

  predicate InTable(pde: u32, a: int) {
    Valid(pde) && !Super(pde) && Frame(pde) <= a < Frame(pde) + PAGE
  }

  lemma SameDirectoryEntry(mem: Memory, mem': Memory, cr3: u32, va: u32)
    requires forall a :: InTables(mem, cr3, a) ==> At(mem', a) == At(mem, a)
    ensures DirectoryEntry(mem', cr3, va) == DirectoryEntry(mem, cr3, va)
  {
    var d := Frame(cr3) + 4 * (va / SUPERPAGE);
    assert InTables(mem, cr3, d) && InTables(mem, cr3, d + 1) && InTables(mem, cr3, d + 2) && InTables(mem, cr3, d + 3);
    hide InTables, Frame;
  }

  lemma SameTableEntry(mem: Memory, mem': Memory, cr3: u32, va: u32, pde: u32)
    requires forall a :: InTables(mem, cr3, a) ==> At(mem', a) == At(mem, a)
    requires pde == DirectoryEntry(mem, cr3, va) && Valid(pde) && !Super(pde)
    ensures TableEntry(mem', pde, va) == TableEntry(mem, pde, va)
  {
    var t := Frame(pde) + 4 * (va / PAGE % 1024);
    assert 0 <= va / SUPERPAGE < 1024 && pde == Word(mem, Frame(cr3) + 4 * (va / SUPERPAGE));
    assert InTable(pde, t) && InTable(pde, t + 1) && InTable(pde, t + 2) && InTable(pde, t + 3);
    hide InTable, Frame, Word, Valid, Super;
    assert InTables(mem, cr3, t) && InTables(mem, cr3, t + 1) && InTables(mem, cr3, t + 2) && InTables(mem, cr3, t + 3);
    hide InTables;
    SameWord(mem, mem', t);
  }

  lemma SameWord(mem: Memory, mem': Memory, a: int)
    requires At(mem', a) == At(mem, a) && At(mem', a + 1) == At(mem, a + 1) && At(mem', a + 2) == At(mem, a + 2) && At(mem', a + 3) == At(mem, a + 3)
    ensures Word(mem', a) == Word(mem, a)
  {
  }

  /** Memories with the same tables translate alike. */
  lemma SameTables(mem: Memory, mem': Memory, cr0: u32, cr3: u32, va: u32)
    requires forall a :: InTables(mem, cr3, a) ==> At(mem', a) == At(mem, a)
    ensures Translate(mem', cr0, cr3, va) == Translate(mem, cr0, cr3, va)
  {
    hide InTables, DirectoryEntry, TableEntry, Frame, SuperFrame;
    SameDirectoryEntry(mem, mem', cr3, va);
    var pde := DirectoryEntry(mem, cr3, va);
    if Valid(pde) && !Super(pde) {
      SameTableEntry(mem, mem', cr3, va, pde);
    }
  }

  /** mem' has the tables of mem. */
  ghost predicate KeepsTables(mem: Memory, mem': Memory, cr3: u32) {
    && (forall a :: InTables(mem, cr3, a) ==> At(mem', a) == At(mem, a))
    && (forall a :: InTables(mem', cr3, a) ==> InTables(mem, cr3, a))
  }

  /** A byte written outside the tables leaves them where they are. */
  lemma WriteOutside(mem: Memory, cr3: u32, pa: int, v: byte)
    requires !InTables(mem, cr3, pa)
    ensures KeepsTables(mem, mem[pa := v], cr3)
  {
    var mem' := mem[pa := v];
    forall a | InTables(mem', cr3, a)
      ensures InTables(mem, cr3, a)
    {
      if !(Frame(cr3) <= a < Frame(cr3) + PAGE) {
        var j :| 0 <= j < 1024 && InTable(Word(mem', Frame(cr3) + 4 * j), a);
        DirectoryKept(mem, mem', cr3, j);
      }
    }
  }

  lemma DirectoryKept(mem: Memory, mem': Memory, cr3: u32, j: int)
    requires 0 <= j < 1024
    requires forall a :: InTables(mem, cr3, a) ==> At(mem', a) == At(mem, a)
    ensures Word(mem', Frame(cr3) + 4 * j) == Word(mem, Frame(cr3) + 4 * j)
  {
    var d := Frame(cr3) + 4 * j;
    assert InTables(mem, cr3, d) && InTables(mem, cr3, d + 1) && InTables(mem, cr3, d + 2) && InTables(mem, cr3, d + 3);
    hide InTables, Frame;
  }

  lemma KeepsThrough(a: Memory, b: Memory, c: Memory, cr3: u32)
    requires KeepsTables(a, b, cr3) && KeepsTables(b, c, cr3)
    ensures KeepsTables(a, c, cr3)
  {
    forall x | InTables(a, cr3, x)
      ensures At(c, x) == At(a, x)
    {
      KeptIn(a, b, cr3, x);
    }
  }

  lemma KeptIn(a: Memory, b: Memory, cr3: u32, x: int)
    requires KeepsTables(a, b, cr3) && InTables(a, cr3, x)
    ensures InTables(b, cr3, x)
  {
    if !(Frame(cr3) <= x < Frame(cr3) + PAGE) {
      var j :| 0 <= j < 1024 && InTable(Word(a, Frame(cr3) + 4 * j), x);
      DirectoryKept(a, b, cr3, j);
    }
  }

  /** Directory and table index of an address, from its page number. */
  lemma Coarser(va: u32)
    ensures va / PAGE / 1024 == va / SUPERPAGE
  {
    var q, r := va / SUPERPAGE, va % SUPERPAGE;
    assert va == q * SUPERPAGE + r;
    ModAddMultiple(r, q * 1024, PAGE);
    assert 0 <= r / PAGE < 1024;
    ModUnique(va / PAGE, q, 1024, r / PAGE);
  }
}
