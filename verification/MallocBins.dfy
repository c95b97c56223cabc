/** Sizes, bin numbers and the bitmap of shared/malloc.c, in 32-bit arithmetic. */
module MallocBins {
  import opened Arith
  import opened MallocHeap

  // ----- request2size

  predicate OutOfRange(req: int) { req >= WORD - 32 }

  function Request2Size(req: nat): int
    requires !OutOfRange(req)
  {
    if req + 4 + 7 < 16 then 16 else (req + 4 + 7) - (req + 4 + 7) % 8
  }

  /** The padded size is the least legal chunk size that leaves `req` usable bytes. */
  lemma Request2SizeLeast(req: nat)
    requires !OutOfRange(req)
    ensures var nb := Request2Size(req);
            && nb % 8 == 0 && nb >= 16 && nb - 4 >= req && nb + 16 < WORD
            && forall s :: s % 8 == 0 && s >= 16 && s - 4 >= req ==> nb <= s
  {
  }

  // ----- bin_index

  /** a - b and a << k in a 32-bit word. */
  function Sub32(a: u32, b: u32): u32 { (a - b) % WORD }
  function Shl32(a: u32, k: nat): u32 { (a * Pow2(k)) % WORD }

  /** v & 2^k */
  function AndBit(v: nat, k: nat): (b: nat) { if (v / Pow2(k)) % 2 == 1 then Pow2(k) else 0 }

  /** The branch-free code that finds the highest set bit of x, for 0 < x < 2^16. */
  function Highest(x: u32): int
  {
    var n0 := AndBit(Sub32(x, 0x100) / 0x1_0000, 3);
    var x1 := Shl32(x, n0);
    var m1 := AndBit(Sub32(x1, 0x1000) / 0x1_0000, 2);
    var x2 := Shl32(x1, m1);
    var m2 := AndBit(Sub32(x2, 0x4000) / 0x1_0000, 1);
    var x3 := Shl32(x2, m2) / 0x4000;
    // x & ~(x >> 1), for a number of two bits
    13 - (n0 + m1 + m2) + (if x3 >= 2 then 2 else x3)
  }

  function Msb(x: nat): nat { if x < 2 then 0 else 1 + Msb(x / 2) }

  lemma Pow2Table()
    ensures Pow2(0) == 1 && Pow2(1) == 2 && Pow2(2) == 4 && Pow2(3) == 8 && Pow2(4) == 16
    ensures Pow2(5) == 32 && Pow2(6) == 64 && Pow2(7) == 128 && Pow2(8) == 256
  {
  }

  lemma {:induction false} MsbBounds(x: nat, k: nat)
    requires Pow2(k) <= x < Pow2(k + 1)
    ensures Msb(x) == k
  {
    if k > 0 {
      MsbBounds(x / 2, k - 1);
    }
  }

  /** One stage: x moved up by k bits when it lies below the bound. */
  lemma Stage(x: u32, bound: u32, k: nat, j: nat)
    requires (bound, k, j) in {(0x100, 8, 3), (0x1000, 4, 2), (0x4000, 2, 1)}
    requires bound / Pow2(k) <= x < 0x1_0000
    ensures AndBit(Sub32(x, bound) / 0x1_0000, j) == if x < bound then k else 0
    ensures Shl32(x, AndBit(Sub32(x, bound) / 0x1_0000, j)) == if x < bound then x * Pow2(k) else x
    ensures bound <= Shl32(x, AndBit(Sub32(x, bound) / 0x1_0000, j)) < 0x1_0000
  {
    Pow2Table();
    var v := Sub32(x, bound) / 0x1_0000;
    if x < bound {
      assert v == 0xFFFF;
    } else {
      assert v == 0;
    }
  }

  lemma HighestIsMsb(x: u32)
    requires 1 <= x < 0x1_0000
    ensures Highest(x) == Msb(x) && Msb(x) <= 15
  {
    Pow2Table();
    Stage(x, 0x100, 8, 3);
    var x1 := if x < 0x100 then x * 256 else x;
    Stage(x1, 0x1000, 4, 2);
    var x2 := if x1 < 0x1000 then x1 * 16 else x1;
    Stage(x2, 0x4000, 2, 1);
    var x3 := if x2 < 0x4000 then x2 * 4 else x2;
    var n := (if x < 0x100 then 8 else 0) + (if x1 < 0x1000 then 4 else 0) + (if x2 < 0x4000 then 2 else 0);
    var r := if x3 < 0x8000 then 14 - n else 15 - n;
    assert Highest(x) == r;
    if r >= 8 {
      Pow2Add(8, r - 8);
      if r < 15 {
        Pow2Add(8, r + 1 - 8);
      } else {
        Pow2Add(8, 8);
      }
    }
    MsbBounds(x, r);
  }

  const NSMALLBINS: int := 32
  const MIN_LARGE_SIZE: int := 256

  function LargeBinIndex(sz: u32): int {
    var x := sz / 256;
    if x >= 0x1_0000 then NBINS - 1
    else
      var m := Highest(x);
      NSMALLBINS + 4 * m + (sz / Pow2(if m + 6 >= 0 then m + 6 else 0)) % 4
  }

  predicate InSmallBinRange(sz: int) { sz < MIN_LARGE_SIZE }

  function BinIndex(sz: u32): int {
    if InSmallBinRange(sz) then sz / 8 else LargeBinIndex(sz)
  }

  /** Each power-of-two range of sizes is cut into four bins. */
  lemma LargeBinIndexIs(sz: u32)
    requires MIN_LARGE_SIZE <= sz < 0x100_0000
    ensures var m := Msb(sz / 256);
            && m <= 15
            && LargeBinIndex(sz) == NSMALLBINS + 4 * m - 4 + sz / Pow2(m + 6)
            && 4 <= sz / Pow2(m + 6) < 8
  {
    var x := sz / 256;
    HighestIsMsb(x);
    var m := Msb(x);
    MsbRange(x);
    Pow2Add(m, 6);
    SizeRange(sz, Pow2(m), Pow2(m + 6));
    QuotientBetween(sz, Pow2(m + 6));
    IndexFromQuotient(sz, m, sz / Pow2(m + 6));
  }

  lemma IndexFromQuotient(sz: u32, m: nat, q: nat)
    requires sz < 0x100_0000 && Highest(sz / 256) == m && q == sz / Pow2(m + 6) && 4 <= q < 8
    ensures LargeBinIndex(sz) == NSMALLBINS + 4 * m - 4 + q
  {
    hide Highest, Pow2;
  }

  lemma SizeRange(sz: nat, p: nat, q: nat)
    requires p <= sz / 256 < 2 * p && q == p * Pow2(6)
    ensures 4 * q <= sz < 8 * q
  {
    assert Pow2(6) == 64;
  }

  lemma QuotientBetween(sz: nat, p: nat)
    requires p > 0 && 4 * p <= sz < 8 * p
    ensures 4 <= sz / p < 8
  {
    var q, r := sz / p, sz % p;
    assert sz == q * p + r;
    if q < 4 {
      MulAtMost(q, 3, p);
    } else if q >= 8 {
      MulAtMost(8, q, p);
    }
  }

  lemma {:induction false} MsbRange(x: nat)
    requires x >= 1
    ensures Pow2(Msb(x)) <= x < 2 * Pow2(Msb(x))
  {
    if x >= 2 {
      MsbRange(x / 2);
    }
  }

  lemma {:induction false} MsbMonotone(x: nat, y: nat)
    requires x <= y
    ensures Msb(x) <= Msb(y)
  {
    if y >= 2 {
      MsbMonotone(x / 2, y / 2);
    }
  }

  lemma QuotientMonotone(a: nat, b: nat, p: nat)
    requires p > 0 && a <= b
    ensures a / p <= b / p
  {
    var q, s := a / p, b / p;
    assert a == q * p + a % p && b == s * p + b % p;
    if q > s {
      MulAtMost(s + 1, q, p);
      Distribute(s, 1, p);
    }
  }

  /** Bin numbers stay below 96 and grow with the size. */
  lemma BinIndexMonotone(a: u32, b: u32)
    requires 16 <= a <= b
    ensures 2 <= BinIndex(a) <= BinIndex(b) < NBINS
    ensures InSmallBinRange(a) <==> BinIndex(a) < NSMALLBINS
  {
    if MIN_LARGE_SIZE <= a < 0x100_0000 {
      LargeBinIndexIs(a);
    }
    if MIN_LARGE_SIZE <= b < 0x100_0000 {
      LargeBinIndexIs(b);
    }
    if MIN_LARGE_SIZE <= a && b < 0x100_0000 {
      MsbMonotone(a / 256, b / 256);
      if Msb(a / 256) == Msb(b / 256) {
        QuotientMonotone(a, b, Pow2(Msb(a / 256) + 6));
      }
    }
  }

  // ----- one word of the binmap

  /** map & (1 << i) */
  predicate TestBit(map_: nat, i: nat) {
    if i == 0 then map_ % 2 == 1 else TestBit(map_ / 2, i - 1)
  }

  /** map | (1 << i) and map & ~(1 << i) */
  function SetBit(map_: nat, i: nat): nat {
    if TestBit(map_, i) then map_ else map_ + Pow2(i)
  }

  function ClearBit(map_: nat, i: nat): nat {
    if TestBit(map_, i) then BitBelow(map_, i); map_ - Pow2(i) else map_
  }

  lemma {:induction false} BitBelow(map_: nat, i: nat)
    requires TestBit(map_, i)
    ensures Pow2(i) <= map_
  {
    if i > 0 {
      BitBelow(map_ / 2, i - 1);
    }
  }

  lemma {:induction false} SetBitTest(map_: nat, i: nat, j: nat)
    ensures TestBit(SetBit(map_, i), j) <==> i == j || TestBit(map_, j)
  {
    if i > 0 && j > 0 {
      SetBitTest(map_ / 2, i - 1, j - 1);
    }
  }

  lemma {:induction false} ClearBitTest(map_: nat, i: nat, j: nat)
    ensures TestBit(ClearBit(map_, i), j) <==> i != j && TestBit(map_, j)
  {
    if i > 0 && j > 0 {
      ClearBitTest(map_ / 2, i - 1, j - 1);
    }
  }

  /** `bit > map` says that no bit of the map is left at or above this one. */
  lemma {:induction false} NoBitAbove(map_: nat, b: nat, j: nat)
    requires Pow2(b) > map_ && j >= b
    ensures !TestBit(map_, j)
  {
    if b > 0 {
      NoBitAbove(map_ / 2, b - 1, j - 1);
    } else if j > 0 {
      NoBitAbove(0, 0, j - 1);
    }
  }

  /** Otherwise there is one, in a map of n bits. */
  lemma {:induction false} SomeBitAbove(map_: nat, b: nat, n: nat) returns (j: nat)
    requires Pow2(b) <= map_ < Pow2(n)
    ensures b <= j < n && TestBit(map_, j)
  {
    if map_ == 1 {
      j := 0;
    } else {
      j := SomeBitAbove(map_ / 2, if b > 0 then b - 1 else 0, n - 1);
      j := j + 1;
    }
  }

  lemma {:induction false} AddBitFits(map_: nat, i: nat, n: nat)
    requires map_ < Pow2(n) && i < n && !TestBit(map_, i)
    ensures map_ + Pow2(i) < Pow2(n)
  {
    var h := map_ / 2;
    assert Pow2(n) == 2 * Pow2(n - 1);
    if i == 0 {
      assert map_ % 2 == 0 && Pow2(0) == 1;
      hide TestBit, Pow2;
    } else {
      AddBitFits(h, i - 1, n - 1);
      assert Pow2(i) == 2 * Pow2(i - 1);
      hide TestBit, Pow2;
    }
  }

  lemma SetBitFits(map_: nat, i: nat, n: nat)
    requires map_ < Pow2(n) && i < n
    ensures SetBit(map_, i) < Pow2(n)
  {
    if !TestBit(map_, i) {
      AddBitFits(map_, i, n);
    }
  }
}
