/** Machine words, powers of two and facts of division the modules share; none of them is about the source. */
module Arith {

  const WORD: nat := 0x1_0000_0000

  type byte = x: int | 0 <= x < 256
  type u32 = x: int | 0 <= x < 0x1_0000_0000

  function Pow2(k: nat): (p: nat)
    ensures p >= 1
  {
    if k == 0 then 1 else 2 * Pow2(k - 1)
  }

  lemma MulAtLeast(c: int, m: int)
    requires c >= 1 && m >= 0
    ensures c * m >= m
  {
  }

  lemma Distribute(a: int, b: int, c: int)
    ensures (a + b) * c == a * c + b * c
    ensures (a - b) * c == a * c - b * c
  {
  }

  lemma Assoc(a: int, b: int, c: int)
    ensures a * (b * c) == (a * b) * c
  {
  }

  /** Quotient and remainder are the only numbers that divide x by m. */
  lemma ModUnique(x: int, q: int, m: int, r: int)
    requires m > 0 && x == q * m + r && 0 <= r < m
    ensures x % m == r && x / m == q
  {
    var d, s := x / m, x % m;
    assert x == d * m + s;
    Distribute(q, d, m);
    if q > d {
      MulAtLeast(q - d, m);
    } else if q < d {
      Distribute(d, q, m);
      MulAtLeast(d - q, m);
    }
  }

  lemma ModAddMultiple(x: int, c: int, m: int)
    requires m > 0
    ensures (x + c * m) % m == x % m
    ensures (x + c * m) / m == x / m + c
  {
    Distribute(x / m, c, m);
    ModUnique(x + c * m, x / m + c, m, x % m);
  }

  lemma ModPlus(x: int, y: int, m: int)
    requires m > 0
    ensures (x + y) % m == (x % m + y) % m
  {
    ModAddMultiple(x % m + y, x / m, m);
  }

  lemma ModOfMod(x: int, q: int, m: int)
    requires m > 0 && q > 0
    ensures q * m > 0 && (x % (q * m)) % m == x % m
  {
    MulAtLeast(q, m);
    var c := x / (q * m);
    Assoc(c, q, m);
    ModAddMultiple(x % (q * m), c * q, m);
  }

  lemma Eights(x: int)
    requires x % 8 == 0
    ensures x % 4 == 0 && x % 2 == 0
  {
    var q := x / 8;
    ModUnique(x, 2 * q, 4, 0);
    ModUnique(x, 4 * q, 2, 0);
  }

  lemma MulAtMost(a: int, b: int, p: nat)
    requires a <= b
    ensures a * p <= b * p
  {
    Distribute(b, a, p);
    if b > a {
      MulAtLeast(b - a, p);
    }
  }

  lemma {:induction false} Pow2Divides(j: nat, k: nat) returns (q: nat)
    requires j <= k
    ensures Pow2(k) == q * Pow2(j)
  {
    if j == k {
      q := 1;
    } else {
      var r := Pow2Divides(j, k - 1);
      q := 2 * r;
    }
  }

  lemma Pow2Of32()
    ensures Pow2(32) == WORD
  {
    assert Pow2(8) == 256;
    assert Pow2(16) == 256 * 256 by { Pow2Add(8, 8); }
    Pow2Add(16, 16);
  }

  lemma {:induction false} Pow2Add(j: nat, k: nat)
    ensures Pow2(j + k) == Pow2(j) * Pow2(k)
  {
    if k > 0 {
      Pow2Add(j, k - 1);
    }
  }
}
