/**
 The probe sequence of `hash_lookup` (kernel/hash.c:54-81), on its own.

 A probe starts at `hash & mask` and moves by `index = 5*index + perturb + 1` in 32-bit
 arithmetic, while `perturb` loses five bits a step.  The table size is a power of two, so
 `& mask` is written `% size`.  The lookup loop has no bound of its own: it ends because
 `perturb` is 0 after seven steps and `i -> 5*i + 1` then runs through every residue of the
 size.  `ProbeHits` proves exactly that.
 */
module HashProbe {
  import opened Arith

  /** Sizes a table can have: a power of two that fits 32 bits, at least 8. */
  ghost predicate TableSize(size: nat) {
    exists k: nat :: 3 <= k <= 32 && size == Pow2(k)
  }

  /** The value of `perturb` at the n-th probe. */
  function Perturb(hash: u32, n: nat): u32 {
    if n == 0 then hash else Perturb(hash, n - 1) / 32
  }

  /** The value of `index` at the n-th probe, with its 32-bit wrap-around. */
  function Index(hash: u32, size: nat, n: nat): u32
    requires 1 <= size <= WORD
  {
    if n == 0 then hash % size
    else (5 * Index(hash, size, n - 1) + Perturb(hash, n - 1) + 1) % WORD
  }

  /** The slot looked at by the n-th probe. */
  function Probe(hash: u32, size: nat, n: nat): (p: nat)
    requires 1 <= size <= WORD
    ensures p < size
  {
    Index(hash, size, n) % size
  }

  lemma TableSizeFits(size: nat) returns (q: nat)
    requires TableSize(size)
    ensures 8 <= size <= WORD && WORD == q * size
  {
    var k: nat :| 3 <= k <= 32 && size == Pow2(k);
    Pow2Of32();
    q := Pow2Divides(k, 32);
    var r := Pow2Divides(3, k);
    assert Pow2(3) == 8;
    MulAtLeast(q, size);
  }

  /** `perturb` is a 32-bit value, so it is 0 from the seventh shift by 5 on. */
  lemma PerturbDies(hash: u32, n: nat)
    requires n >= 7
    ensures Perturb(hash, n) == 0
  {
    if n > 7 {
      PerturbDies(hash, n - 1);
    } else {
      var p1 := Perturb(hash, 1);
      assert p1 < 0x800_0000;
      var p2 := Perturb(hash, 2);
      assert p2 == p1 / 32 && p2 < 0x40_0000;
      var p3 := Perturb(hash, 3);
      assert p3 == p2 / 32 && p3 < 0x2_0000;
      var p4 := Perturb(hash, 4);
      assert p4 == p3 / 32 && p4 < 0x1000;
      var p5 := Perturb(hash, 5);
      assert p5 == p4 / 32 && p5 < 0x80;
      var p6 := Perturb(hash, 6);
      assert p6 == p5 / 32 && p6 < 4;
      assert Perturb(hash, 7) == p6 / 32;
    }
  }

  // ----- the affine map i -> 5*i + 1, without any wrap-around

  function Iter(x: nat, n: nat): nat {
    if n == 0 then x else 5 * Iter(x, n - 1) + 1
  }

  function Five(n: nat): nat { if n == 0 then 1 else 5 * Five(n - 1) }

  function Ones(n: nat): nat { if n == 0 then 0 else 5 * Ones(n - 1) + 1 }

  lemma {:induction false} IterClosed(x: nat, n: nat)
    ensures Iter(x, n) == Five(n) * x + Ones(n)
  {
    if n > 0 {
      IterClosed(x, n - 1);
    }
  }

  lemma {:induction false} IterAdd(x: nat, m: nat, n: nat)
    ensures Iter(x, m + n) == Iter(Iter(x, m), n)
  {
    if n > 0 {
      IterAdd(x, m, n - 1);
    }
  }

  lemma {:induction false} FiveOnesAdd(m: nat, n: nat)
    ensures Five(m + n) == Five(m) * Five(n)
    ensures Ones(m + n) == Five(n) * Ones(m) + Ones(n)
  {
    if n > 0 {
      FiveOnesAdd(m, n - 1);
      assert m + n - 1 == m + (n - 1);
      Assoc(5, Five(n - 1), Ones(m));
      Assoc(Five(m), 5, Five(n - 1));
      Assoc(5, Five(m), Five(n - 1));
    }
  }

  /** 5^(2^k) is 1 modulo 2^(k+2), and 1 + 5 + ... + 5^(2^k - 1) is an odd multiple of 2^k. */
  lemma {:induction false} PowerOfTwoSteps(k: nat) returns (a: nat, s: nat)
    ensures Five(Pow2(k)) == 1 + 4 * Pow2(k) * a
    ensures Ones(Pow2(k)) == Pow2(k) * (2 * s + 1)
  {
    if k == 0 {
      a, s := 1, 0;
      assert Pow2(0) == 1 && Five(1) == 5 && Ones(1) == 1;
    } else {
      var a', s' := PowerOfTwoSteps(k - 1);
      var p := Pow2(k - 1);
      FiveOnesAdd(p, p);
      a := a' + 2 * p * a' * a';
      s := s' + p * a' * (2 * s' + 1);
      SquareStep(p, a', s');
    }
  }

  lemma SquareStep(p: nat, a: nat, s: nat)
    ensures (1 + 4 * p * a) * (1 + 4 * p * a) == 1 + 4 * (2 * p) * (a + 2 * p * a * a)
    ensures (1 + 4 * p * a) * (p * (2 * s + 1)) + p * (2 * s + 1)
         == (2 * p) * (2 * (s + p * a * (2 * s + 1)) + 1)
  {
    var w := p * a;
    assert 4 * p * a == 4 * w;
    assert (1 + 4 * w) * (1 + 4 * w) == 1 + 8 * w + 16 * (w * w);
    assert 2 * p * a * a == 2 * (w * a);
    assert (2 * p) * (a + 2 * (w * a)) == 2 * w + 4 * (p * (w * a));
    assert p * (w * a) == w * w;
    var o := 2 * s + 1;
    assert (1 + 4 * w) * (p * o) == p * o + 4 * (w * (p * o));
    assert p * a * o == w * o;
    assert (2 * p) * (2 * (s + w * o) + 1) == (2 * p) * o + 4 * (p * (w * o));
    assert w * (p * o) == p * (w * o);
  }

  /** 2^k steps of i -> 5*i + 1 add 2^k modulo 2^(k+1). */
  lemma JumpHalf(z: nat, k: nat)
    ensures Iter(z, Pow2(k)) % Pow2(k + 1) == (z + Pow2(k)) % Pow2(k + 1)
  {
    var p := Pow2(k);
    var a, s := PowerOfTwoSteps(k);
    IterClosed(z, p);
    var c := 2 * (a * z) + s;
    JumpArith(z, p, a, s);
    ModAddMultiple(z + p, c, 2 * p);
  }

  lemma JumpArith(z: nat, p: nat, a: nat, s: nat)
    ensures (1 + 4 * p * a) * z + p * (2 * s + 1) == z + p + (2 * (a * z) + s) * (2 * p)
  {
    assert 4 * p * a == 4 * (p * a);
    Distribute(1, 4 * (p * a), z);
    assert (4 * (p * a)) * z == 4 * (p * (a * z)) by { Assoc(p, a, z); Assoc(4, p * a, z); }
    Distribute(2 * (a * z), s, 2 * p);
    assert (2 * (a * z)) * (2 * p) == 4 * (p * (a * z));
    assert p * (2 * s + 1) == 2 * (p * s) + p;
    assert s * (2 * p) == 2 * (p * s);
  }

  /** Full cycle: from any x, 2^k steps visit every residue modulo 2^k. */
  lemma {:induction false} FullCycle(x: nat, k: nat, y: nat) returns (n: nat)
    requires y < Pow2(k)
    ensures n < Pow2(k) && Iter(x, n) % Pow2(k) == y
  {
    if k == 0 {
      n := 0;
    } else {
      var n' := FullCycle(x, k - 1, y % Pow2(k - 1));
      n := DoubleCycle(x, k - 1, y, n');
    }
  }

  lemma DoubleCycle(x: nat, k: nat, y: nat, n: nat) returns (n': nat)
    requires n < Pow2(k) && Iter(x, n) % Pow2(k) == y % Pow2(k)
    requires y < Pow2(k + 1)
    ensures n' < Pow2(k + 1) && Iter(x, n') % Pow2(k + 1) == y
  {
    var p, z := Pow2(k), Iter(x, n);
    assert Pow2(k + 1) == 2 * p;
    CycleStep(z, y, p);
    if z % (2 * p) == y {
      n' := n;
    } else {
      n' := n + p;
      JumpHalf(z, k);
      IterAdd(x, n, p);
    }
  }

  lemma CycleStep(z: nat, y: nat, p: nat)
    requires p > 0 && y < 2 * p && z % p == y % p
    ensures z % (2 * p) == y || (z + p) % (2 * p) == y
  {
    SplitMod(z, p);
    SplitMod(y, p);
    ModUnique(y, 0, 2 * p, y);
    if z % (2 * p) != y {
      ModPlus(z, p, 2 * p);
      HalfTurn(z % (2 * p), y, p);
    }
  }

  lemma HalfTurn(v: nat, y: nat, p: nat)
    requires v < 2 * p && y < 2 * p && v != y
    requires v == y + p || y == v + p
    ensures (v + p) % (2 * p) == y
  {
    if y == v + p {
      ModUnique(v + p, 0, 2 * p, y);
    } else {
      ModUnique(v + p, 1, 2 * p, y);
    }
  }

  lemma SplitMod(z: nat, p: nat)
    requires p > 0
    ensures z % (2 * p) == z % p || z % (2 * p) == z % p + p
  {
    var q, r := z / (2 * p), z % (2 * p);
    assert z == q * (2 * p) + r;
    if r < p {
      assert q * (2 * p) == (2 * q) * p;
      ModUnique(z, 2 * q, p, r);
    } else {
      assert q * (2 * p) == (2 * q) * p;
      Distribute(2 * q, 1, p);
      ModUnique(z, 2 * q + 1, p, r - p);
    }
  }

  lemma ModTimes5(x: int, m: int)
    requires m > 0
    ensures (5 * x + 1) % m == (5 * (x % m) + 1) % m
  {
    var d, r := x / m, x % m;
    assert 5 * x + 1 == 5 * r + 1 + 5 * (d * m);
    Assoc(5, d, m);
    ModAddMultiple(5 * r + 1, 5 * d, m);
  }

  lemma StepModSize(i: nat, j: nat, q: nat, size: nat)
    requires size > 0 && q > 0 && WORD == q * size && i % size == j % size
    ensures ((5 * i + 1) % WORD) % size == (5 * j + 1) % size
  {
    ModOfMod(5 * i + 1, q, size);
    ModTimes5(i, size);
    ModTimes5(j, size);
  }

  /** Once `perturb` is 0, the masked index follows the affine map, wrap-around or not. */
  lemma {:induction false} ProbeIsIter(hash: u32, size: nat, n: nat)
    requires TableSize(size) && 1 <= size <= WORD
    ensures Probe(hash, size, 7 + n) == Iter(Probe(hash, size, 7), n) % size
  {
    var x := Probe(hash, size, 7);
    if n == 0 {
      ModUnique(x, 0, size, x);
    } else {
      ProbeIsIter(hash, size, n - 1);
      var q := TableSizeFits(size);
      PerturbDies(hash, 6 + n);
      var i := Index(hash, size, 6 + n);
      assert Index(hash, size, 7 + n) == (5 * i + 1) % WORD;
      assert Probe(hash, size, 6 + n) == i % size by { assert 7 + (n - 1) == 6 + n; }
      StepModSize(i, Iter(x, n - 1), q, size);
    }
  }

  /** Every slot of the table is looked at within the first size + 7 probes. */
  lemma ProbeHits(hash: u32, size: nat, y: nat) returns (n: nat)
    requires TableSize(size) && 1 <= size <= WORD
    requires y < size
    ensures n < size + 7 && Probe(hash, size, n) == y
  {
    var k: nat :| 3 <= k <= 32 && size == Pow2(k);
    var m := FullCycle(Probe(hash, size, 7), k, y);
    ProbeIsIter(hash, size, m);
    n := 7 + m;
  }
}
