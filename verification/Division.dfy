/**
 64-bit arithmetic out of 32-bit instructions: `do_div64` of shared/div64.c, and `div64` and
 `mul64` of user/tests/lib/math.c.
 */
module Division {
  import opened Arith
  import B = MallocBins

  const WORD64: int := 0x1_0000_0000_0000_0000
  type u64 = x: int | 0 <= x < WORD64

  // ----- the three instructions

  /** `bsr`: the number of the highest set bit. */
  function Bsr(n: u32): nat { B.Msb(n) }

  /** `shrd`: lo shifted right by n mod 32, the free bits filled from hi. */
  function Shrd(hi: u32, lo: u32, n: nat): u32 {
    (lo / Pow2(n % 32) + hi * Pow2(32 - n % 32)) % WORD
  }

  datatype Divided = DivideError | Words(q: u32, r: u32)

  /** `divl`: hi:lo by d; an error when d is 0 or the quotient does not fit. */
  function Divl(hi: u32, lo: u32, d: u32): Divided {
    if d == 0 || (hi * WORD + lo) / d >= WORD then DivideError
    else Words((hi * WORD + lo) / d, (hi * WORD + lo) % d)
  }

  // ----- the shifts made of them

  /** The low word of hi:lo shifted right by n, for n up to 32. */
  function RShift64To32(hi: u32, lo: u32, n: nat): u32 {
    if (n / 32) % 2 == 1 then hi else Shrd(hi, lo, n)
  }

  lemma Pow2Half(n: nat)
    requires n <= 32
    ensures Pow2(n) > 0 && Pow2(32 - n) > 0 && Pow2(n) * Pow2(32 - n) == WORD
  {
    Pow2Of32();
    Pow2Add(n, 32 - n);
  }

  lemma ShiftWhole(hi: nat, lo: nat, p: nat, q: nat)
    requires p > 0 && p * q == WORD
    ensures (hi * WORD + lo) / p == hi * q + lo / p
  {
    Assoc(hi, q, p);
    ModAddMultiple(lo, hi * q, p);
  }

  lemma ShiftWords(hi: nat, lo: nat, p: nat, q: nat)
    requires p > 0 && q > 0 && p * q == WORD && lo < WORD
    ensures (hi * q + lo / p) / WORD == hi / p
  {
    var c, m, d := hi / p, hi % p, lo / p;
    assert hi == c * p + m;
    Distribute(c * p, m, q);
    Assoc(c, p, q);
    QuotientBelow(lo, p, q);
    MulAtMost(m, p - 1, q);
    MulAtMost(0, m, q);
    Distribute(p, 1, q);
    ModUnique(hi * q + d, c, WORD, m * q + d);
  }

  /** A 64-bit number shifted right, word by word. */
  lemma Shifted(hi: u32, lo: u32, n: nat)
    requires 1 <= n <= 32
    ensures Pow2(n) > 0
    ensures var X := (hi * WORD + lo) / Pow2(n);
            X == hi * Pow2(32 - n) + lo / Pow2(n) && X / WORD == hi / Pow2(n) && X % WORD == RShift64To32(hi, lo, n)
  {
    Pow2Half(n);
    var p, q := Pow2(n), Pow2(32 - n);
    assert n == 32 ==> q == 1 && p == WORD;
    hide RShift64To32, Pow2;
    ShiftWhole(hi, lo, p, q);
    ShiftWords(hi, lo, p, q);
    if n == 32 {
      ShiftedOut(hi, lo);
    } else {
      ShiftedIn(hi, lo, n);
    }
  }

  lemma ShiftedIn(hi: u32, lo: u32, n: nat)
    requires n < 32
    ensures RShift64To32(hi, lo, n) == (hi * Pow2(32 - n) + lo / Pow2(n)) % WORD
  {
    assert n / 32 == 0 && n % 32 == n;
  }

  lemma ShiftedOut(hi: u32, lo: u32)
    ensures (hi + lo / WORD) % WORD == hi && RShift64To32(hi, lo, 32) == hi
  {
    ModUnique(lo, 0, WORD, lo);
    ModUnique(hi, 0, WORD, hi);
  }

  lemma QuotientBelow(a: nat, p: nat, q: nat)
    requires p > 0 && q > 0 && a < p * q
    ensures 0 <= a / p < q
  {
    if a / p >= q {
      MulAtMost(q, a / p, p);
    }
  }

  // ----- the estimate by the leading 32 bits of the divisor

  /** The divisor cut to its leading 32 bits lies between 2^31 and 2^32. */
  lemma Leading(y: u64) returns (l: nat)
    requires y >= WORD
    ensures y / WORD < WORD && l == Bsr(y / WORD) + 1 && 1 <= l <= 32
    ensures 0x8000_0000 <= y / Pow2(l) < WORD
  {
    var y1 := y / WORD;
    B.MsbRange(y1);
    l := B.Msb(y1) + 1;
    if l > 32 {
      Pow2Of32();
      Pow2Monotone(32, l - 1);
    }
    var p := Pow2(l - 1);
    var Y := y / (2 * p);
    assert y >= p * WORD && y < 2 * p * WORD by {
      MulAtMost(p, y1, WORD);
      MulAtMost(y1 + 1, 2 * p, WORD);
    }
    LeadingRange(y, p);
  }

  lemma LeadingRange(y: nat, p: nat)
    requires p > 0 && p * WORD <= y < 2 * p * WORD
    ensures 0x8000_0000 <= y / (2 * p) < WORD
  {
    var Y := y / (2 * p);
    assert y == Y * (2 * p) + y % (2 * p);
    if Y < 0x8000_0000 {
      MulAtMost(Y + 1, 0x8000_0000, 2 * p);
      Distribute(Y, 1, 2 * p);
    }
    if Y >= WORD {
      MulAtMost(WORD, Y, 2 * p);
    }
  }

  lemma {:induction false} Pow2Monotone(j: nat, k: nat)
    requires j <= k
    ensures Pow2(j) <= Pow2(k)
  {
    if j < k {
      Pow2Monotone(j, k - 1);
    }
  }

  /** The estimate is never too big, and at most 2 too small. */
  lemma Estimate(x: u64, y: u64, p: nat, X: nat, Y: nat, e: nat)
    requires p >= 2 && X == x / p && Y == y / p && 0x8000_0000 <= Y && e == X / (Y + 1)
    ensures e * y <= x < (e + 3) * y
    ensures e < WORD && X < 0x8000_0000_0000_0000
  {
    assert x == X * p + x % p && y == Y * p + y % p && X == e * (Y + 1) + X % (Y + 1);
    MulAtMost(2, p, X);
    FactorBelow(e, Y + 1, WORD, 0x8000_0000, X);
    NotTooBig(x, y, p, X, Y, e);
    NotTooSmall(x, y, p, X, Y, e);
  }

  lemma Bigger(a: nat, a': nat, b: nat, b': nat)
    requires a <= a' && b <= b'
    ensures a * b <= a' * b'
  {
    MulAtMost(a, a', b);
    MulAtMost(b, b', a');
  }

  lemma FactorBelow(a: nat, b: nat, c: nat, d: nat, m: nat)
    requires a * b <= m < c * d && b >= d
    ensures a < c
  {
    if a >= c {
      Bigger(c, a, d, b);
    }
  }

  lemma NotTooBig(x: nat, y: nat, p: nat, X: nat, Y: nat, e: nat)
    requires p > 0 && x >= X * p && y < (Y + 1) * p && X >= e * (Y + 1)
    ensures e * y <= x
  {
    MulAtMost(y, (Y + 1) * p, e);
    Assoc(e, Y + 1, p);
    MulAtMost(e * (Y + 1), X, p);
  }

  lemma NotTooSmall(x: nat, y: nat, p: nat, X: nat, Y: nat, e: nat)
    requires p > 0 && x < (X + 1) * p && y >= Y * p && X + 1 <= (e + 1) * (Y + 1) && e + 1 <= 2 * Y
    ensures x < (e + 3) * y
  {
    assert (e + 1) * (Y + 1) == (e + 1) * Y + e + 1 && (e + 3) * Y == (e + 1) * Y + 2 * Y;
    MulAtMost(X + 1, (e + 3) * Y, p);
    Assoc(e + 3, Y, p);
    MulAtMost(Y * p, y, e + 3);
  }

  /** The leading 32 bits of a divisor of more than 32 bits are all ones. */
  ghost predicate LeadingOnes(y: u64) {
    exists k: nat :: 1 <= k <= 32 && Pow2(k) * (WORD - 1) <= y < Pow2(k) * WORD
  }

  lemma LeadingOnesAre(y: u64, l: nat)
    requires y >= WORD && l == Bsr(y / WORD) + 1 && 1 <= l <= 32 && y / Pow2(l) < WORD
    ensures y / Pow2(l) == WORD - 1 <==> LeadingOnes(y)
  {
    hide Bsr;
    if y / Pow2(l) == WORD - 1 {
      TopOnes(y, Pow2(l));
      assert Pow2(l) * (WORD - 1) <= y < Pow2(l) * WORD;
    } else if LeadingOnes(y) {
      var k: nat :| 1 <= k <= 32 && Pow2(k) * (WORD - 1) <= y < Pow2(k) * WORD;
      OnesShift(y, k);
    }
  }

  lemma TopOnes(y: nat, p: nat)
    requires p > 0 && y / p == WORD - 1
    ensures p * (WORD - 1) <= y < p * WORD
  {
    assert y == (y / p) * p + y % p;
  }

  lemma QuotientAtLeast(y: nat, m: nat, c: nat)
    requires m > 0 && y >= c * m
    ensures y / m >= c
  {
    if y / m < c {
      MulAtMost(y / m + 1, c, m);
      Distribute(y / m, 1, m);
    }
  }

  lemma OnesShift(y: u64, k: nat)
    requires 1 <= k <= 32 && Pow2(k) * (WORD - 1) <= y < Pow2(k) * WORD
    ensures Bsr(y / WORD) + 1 == k && y / Pow2(k) == WORD - 1
  {
    var p := Pow2(k);
    assert p == 2 * Pow2(k - 1);
    ModUnique(y, WORD - 1, p, y - p * (WORD - 1));
    var y1 := y / WORD;
    FactorBelow(y1, WORD, p, WORD, y);
    QuotientAtLeast(y, WORD, Pow2(k - 1));
    B.MsbBounds(y1, k - 1);
  }

  lemma NoOnes(y: u64)
    requires y < WORD
    ensures !LeadingOnes(y)
  {
    forall k: nat | 1 <= k <= 32
      ensures Pow2(k) * (WORD - 1) > y
    {
      MulAtMost(2, Pow2(k), WORD - 1);
    }
  }

  /** `divl` with the high word below the divisor does not fault. */
  lemma DivlExact(hi: u32, lo: u32, d: u32)
    requires hi < d
    ensures var n := hi * WORD + lo; n / d < WORD && Divl(hi, lo, d) == Words(n / d, n % d)
  {
    var n := hi * WORD + lo;
    MulAtMost(hi + 1, d, WORD);
    assert n == (n / d) * d + n % d;
    FactorBelow(n / d, d, WORD, d, n);
  }

  /** Long division with 32-bit digits. */
  lemma TwoSteps(x1: u32, x0: u32, d: u32)
    requires d != 0
    ensures var n := x1 * WORD + x0;
            && Divl(0, x1, d).Words? && Divl(Divl(0, x1, d).r, x0, d).Words?
            && n / d == Divl(0, x1, d).q * WORD + Divl(Divl(0, x1, d).r, x0, d).q
            && n % d == Divl(Divl(0, x1, d).r, x0, d).r
  {
    DivlExact(0, x1, d);
    var q1, r1 := x1 / d, x1 % d;
    DivlExact(r1, x0, d);
    var m := r1 * WORD + x0;
    var q0, r0 := m / d, m % d;
    assert m == q0 * d + r0;
    assert x1 == q1 * d + r1;
    calc {
      x1 * WORD + x0;
      (q1 * d + r1) * WORD + x0;
      { Distribute(q1 * d, r1, WORD); Assoc(q1, d, WORD); Assoc(q1, WORD, d); }
      (q1 * WORD) * d + m;
      { Distribute(q1 * WORD, q0, d); }
      (q1 * WORD + q0) * d + r0;
    }
    ModUnique(x1 * WORD + x0, q1 * WORD + q0, d, r0);
  }

  // ----- do_div64

  datatype Outcome = Fault | Quotient(q: int, r: int)

  /** The one divide for a long divisor: the leading 32 bits plus 1, into the dividend shifted as far. */
  function OneDivide(x: u64, y: u64): Divided
    requires y >= WORD
  {
    var l := Bsr(y / WORD) + 1;
    Divl(HighShifted(x / WORD, l), RShift64To32(x / WORD, x % WORD, l), (RShift64To32(y / WORD, y % WORD, l) + 1) % WORD)
  }

  /**
   Exact, but for divisors whose leading bits are all ones: there `y0 + 1` wraps to 0 and the
   processor faults.
   */
  method DoDiv64(x: u64, y: u64) returns (res: Outcome)
    ensures res.Fault? <==> LeadingOnes(y)
    ensures y == 0 ==> res == Quotient(0, x)
    ensures y != 0 && !LeadingOnes(y) ==> res == Quotient(x / y, x % y)
    ensures y >= WORD && !LeadingOnes(y) ==> OneDivide(x, y).Words? && OneDivide(x, y).q <= x / y <= OneDivide(x, y).q + 2
    ensures y >= WORD && LeadingOnes(y) ==> OneDivide(x, y) == DivideError
  {
    var y1, y0 := y / WORD, y % WORD;
    var x1, x0 := x / WORD, x % WORD;
    if y1 != 0 {
      res := LongDivisor(x, y);
      return;
    }
    NoOnes(y);
    if x1 < y0 {
      DivlExact(x1, x0, y0);
      match Divl(x1, x0, y0) {
        case DivideError => res := Fault;
        case Words(q, r) => res := Quotient(q, r);
      }
    } else if y0 != 0 {
      TwoSteps(x1, x0, y0);
      match Divl(0, x1, y0) {
        case DivideError => res := Fault;
        case Words(q1, r1) =>
          match Divl(r1, x0, y0) {
            case DivideError => res := Fault;
            case Words(q0, r0) => res := Quotient(q1 * WORD + q0, r0);
          }
      }
    } else {
      res := Quotient(0, x);
    }
  }

  /** Two such divisors. */
  lemma FaultAt()
    ensures LeadingOnes(0xFFFF_FFFF_0000_0000) && LeadingOnes(0x1_FFFF_FFFE)
  {
    Pow2Of32();
    assert Pow2(1) == 2;
    assert Pow2(32) * (WORD - 1) == 0xFFFF_FFFF_0000_0000;
  }

  method LongDivisor(x: u64, y: u64) returns (res: Outcome)
    requires y >= WORD
    ensures res.Fault? <==> LeadingOnes(y)
    ensures !LeadingOnes(y) ==>
              && res == Quotient(x / y, x % y) && OneDivide(x, y).Words? && OneDivide(x, y).q <= x / y <= OneDivide(x, y).q + 2
    ensures LeadingOnes(y) ==> OneDivide(x, y) == DivideError
  {
    hide LeadingOnes, RShift64To32, HighShifted, Bsr, Divl;
    var y1, y0 := y / WORD, y % WORD;
    var x1, x0 := x / WORD, x % WORD;
    var l := Bsr(y1) + 1;
    ghost var k := Leading(y);
    y0 := RShift64To32(y1, y0, l);
    x0, x1 := RShift64To32(x1, x0, l), HighShifted(x1, l);
    LongStart(x, y, l, y0, x0, x1);
    DivlZero(x1, x0);
    match Divl(x1, x0, (y0 + 1) % WORD) {
      case DivideError => res := Fault;
      case Words(q, _) =>
        res := Correct(x, y, q);
    }
  }

  /** The high word of a 64-bit right shift: `shrl`, and 0 for a shift by 32. */
  function HighShifted(hi: u32, n: nat): u32 {
    if (n / 32) % 2 == 1 then 0 else hi / Pow2(n % 32)
  }

  lemma DivlZero(hi: u32, lo: u32)
    ensures Divl(hi, lo, 0) == DivideError
  {
  }

  lemma HighShiftedIs(hi: u32, n: nat)
    requires 1 <= n <= 32
    ensures HighShifted(hi, n) == hi / Pow2(n)
  {
    if n == 32 {
      Pow2Of32();
      ModUnique(hi, 0, WORD, hi);
      hide Pow2;
    } else {
      hide Pow2;
      assert n / 32 == 0 && n % 32 == n;
    }
  }

  lemma ShiftedWords(x: u64, l: nat)
    requires 1 <= l <= 32
    ensures x / WORD < WORD && Pow2(l) >= 2
    ensures x / Pow2(l) >= 0
    ensures RShift64To32(x / WORD, x % WORD, l) == (x / Pow2(l)) % WORD
    ensures HighShifted(x / WORD, l) == x / Pow2(l) / WORD
  {
    assert Pow2(l) == 2 * Pow2(l - 1);
    hide RShift64To32, HighShifted;
    Shifted(x / WORD, x % WORD, l);
    HighShiftedIs(x / WORD, l);
    hide Pow2;
    QuotientNat(x, Pow2(l));
  }

  /** What the divide finds in its operands: the dividend shifted, and the leading 32 bits of the divisor. */
  lemma LongStart(x: u64, y: u64, l: nat, y0: u32, x0: u32, x1: u32)
    requires y >= WORD && y / WORD < WORD && l == Bsr(y / WORD) + 1
    requires y0 == RShift64To32(y / WORD, y % WORD, l)
    requires x0 == RShift64To32(x / WORD, x % WORD, l) && x1 == HighShifted(x / WORD, l)
    ensures y0 == WORD - 1 <==> LeadingOnes(y)
    ensures y0 < WORD - 1 ==> Divl(x1, x0, y0 + 1).Words?
    ensures y0 < WORD - 1 ==> var e := Divl(x1, x0, y0 + 1).q; e * y <= x < (e + 3) * y
  {
    hide LeadingOnes, RShift64To32, HighShifted, Bsr, Divl, Pow2;
    var k := Leading(y);
    LeadingOnesAre(y, l);
    ShiftedWords(y, l);
    ShiftedWords(x, l);
    var p: nat := Pow2(l);
    var X: nat, Y: nat := x / p, y / p;
    ModUnique(Y, 0, WORD, Y);
    if Y < WORD - 1 {
      LongEstimate(x, y, p, X, Y);
    }
  }

  lemma LongEstimate(x: u64, y: u64, p: nat, X: nat, Y: nat)
    requires p >= 2 && X == x / p && Y == y / p && 0x8000_0000 <= Y < WORD - 1
    ensures X / WORD < WORD && Divl(X / WORD, X % WORD, Y + 1).Words?
    ensures var e := Divl(X / WORD, X % WORD, Y + 1).q; e * y <= x < (e + 3) * y
  {
    QuotientNat(X, Y + 1);
    var e: nat := X / (Y + 1);
    Estimate(x, y, p, X, Y, e);
    DivlWhole(X, Y + 1);
  }

  lemma QuotientNat(a: nat, d: nat)
    requires d > 0
    ensures a / d >= 0
  {
  }

  lemma DivlWhole(X: nat, d: u32)
    requires d != 0 && X / d < WORD && X / WORD < WORD
    ensures Divl(X / WORD, X % WORD, d) == Words(X / d, X % d)
  {
    assert X == (X / WORD) * WORD + X % WORD;
  }

  /** x - y * q and q + 1, in 64 and in 32 bits. */
  function Remaining(x: u64, y: u64, q: u32): u64 { (x - (y * q) % WORD64) % WORD64 }
  function Increment(q: u32): u32 { (q + 1) % WORD }

  /** The remainder of the estimate, and the corrections. */
  method Correct(x: u64, y: u64, e: u32) returns (res: Outcome)
    requires y >= WORD && e * y <= x < (e + 3) * y
    ensures res == Quotient(x / y, x % y) && e <= x / y <= e + 2
  {
    hide Remaining, Increment, Splits;
    var x0 := e;
    NoWrap(x, y, e);
    var r := Remaining(x, y, x0);
    while r >= y
      invariant e <= x0 && 0 <= r && Splits(x, y, x0, r)
    {
      OneMore(x, y, x0, r);
      x0 := Increment(x0);
      r := r - y;
    }
    Corrected(x, y, e, x0, r);
    res := Quotient(x0, r);
  }

  ghost predicate Splits(x: int, y: int, q: int, r: int) { x == q * y + r }

  lemma NoWrap(x: u64, y: u64, q: u32)
    requires q * y <= x
    ensures Splits(x, y, q, Remaining(x, y, q))
  {
    var m := q * y;
    MulNonNegative(q, y);
    ModUnique(m, 0, WORD64, m);
    ModUnique(x - m, 0, WORD64, x - m);
  }

  lemma MulNonNegative(a: nat, b: nat)
    ensures a * b >= 0
  {
  }

  lemma OneMore(x: u64, y: u64, q: nat, r: nat)
    requires y >= WORD && Splits(x, y, q, r) && r >= y && q < WORD
    ensures Increment(q) == q + 1 && Splits(x, y, q + 1, r - y)
  {
    Distribute(q, 1, y);
    FactorBelow(q + 1, y, WORD, WORD, x);
  }

  lemma Corrected(x: u64, y: u64, e: u32, q: nat, r: nat)
    requires y >= WORD && x < (e + 3) * y && Splits(x, y, q, r) && r < y && e <= q
    ensures q == x / y && r == x % y && x / y <= e + 2
  {
    ModUnique(x, q, y, r);
    FactorBelow(q, y, e + 3, y, x);
  }

  // ----- div64: shift and subtract

  /** mul is a power of two: halving reaches 1 before 0. */
  ghost predicate PowerOfTwo(mul: nat) { exists k: nat :: mul == Pow2(k) }

  lemma Halves(mul: nat)
    requires PowerOfTwo(mul)
    ensures mul >= 1 && (mul == 1 || (mul % 2 == 0 && PowerOfTwo(mul / 2)))
  {
    var k: nat :| mul == Pow2(k);
    if k > 0 {
      assert mul / 2 == Pow2(k - 1);
    }
  }

  /** div is y doubled some number of times, mul counts them. */
  ghost predicate Scaled(y: nat, mul: nat, div: nat) { mul >= 1 && PowerOfTwo(mul) && div == y * mul }

  lemma ScaledStart(y: nat)
    ensures Scaled(y, 1, y)
  {
    assert 1 == Pow2(0);
  }

  /** One doubling, which overflows neither div nor mul. */
  lemma Doubled(y: nat, mul: u64, div: u64)
    requires Scaled(y, mul, div) && y >= 1 && div < 0x8000_0000_0000_0000
    ensures Double(div) == 2 * div && Scaled(y, Double(mul), Double(div))
  {
    var k: nat :| mul == Pow2(k);
    assert 2 * mul == Pow2(k + 1);
    MulAtMost(1, y, mul);
    Assoc(y, mul, 2);
  }

  function Double(n: u64): u64 { (n + n) % WORD64 }

  /** (div >> 32) & 0x80000000 */
  predicate HighBit(div: u64) { div / WORD / 0x8000_0000 % 2 == 1 }

  lemma HighBitIs(div: u64)
    ensures HighBit(div) <==> div >= 0x8000_0000_0000_0000
  {
  }

  lemma NoQuotient(x: u64, y: u64)
    requires y > x
    ensures x / y == 0 && x % y == x
  {
    ModUnique(x, 0, y, x);
  }

  /** `div64`: exact for every divisor, and quotient 0 with remainder x for the divisor 0. */
  method Div64(x: u64, y: u64) returns (q: u64, rem: u64)
    ensures y == 0 ==> q == 0 && rem == x
    ensures y != 0 ==> q == x / y && rem == x % y
  {
    if y > x || y == 0 {
      if y > x {
        NoQuotient(x, y);
      }
      return 0, x;
    }
    hide HighBit, Scaled, Double;
    var mul: u64, div: u64 := 1, y;
    ScaledStart(y);
    while !HighBit(div)
      invariant y <= div <= x && Scaled(y, mul, div)
      decreases x - div
    {
      HighBitIs(div);
      Doubled(y, mul, div);
      var newd := Double(div);
      if newd > x {
        break;
      }
      div := newd;
      mul := Double(mul);
    }
    HighBitIs(div);
    Doubled2(y, mul, div, x);
    q, rem := Subtract(x, y, mul, div);
  }

  lemma Doubled2(y: nat, mul: u64, div: u64, x: u64)
    requires div >= 0x8000_0000_0000_0000 || Double(div) > x
    ensures x < 2 * div
  {
  }

  /** From the largest multiple down: each power of two goes into the quotient if it fits. */
  method Subtract(x0: u64, y: u64, mul0: u64, div0: u64) returns (q: u64, rem: u64)
    requires y >= 1 && Scaled(y, mul0, div0) && div0 <= x0 < 2 * div0
    ensures q == x0 / y && rem == x0 % y
  {
    hide Scaled, Splits;
    var mul, div := mul0, div0;
    q := mul;
    var x := x0 - div;
    FirstSplit(x0, y, mul, div);
    while true
      invariant Scaled(y, mul, div) && 0 <= x < div && Splits(x0, y, q, x)
      decreases mul
    {
      Halved(y, mul, div);
      mul := mul / 2;
      div := div / 2;
      if mul == 0 {
        rem := x;
        SplitsIs(x0, y, q, x);
        return;
      }
      if x >= div {
        NextSplit(x0, y, q, x, mul, div);
        q := q + mul;
        x := x - div;
      }
    }
  }

  lemma FirstSplit(x0: u64, y: u64, mul: u64, div: u64)
    requires Scaled(y, mul, div) && div <= x0
    ensures Splits(x0, y, mul, x0 - div)
  {
  }

  lemma NextSplit(x0: u64, y: u64, q: nat, x: nat, mul: nat, div: nat)
    requires y >= 1 && Scaled(y, mul, div) && Splits(x0, y, q, x) && div <= x
    ensures Splits(x0, y, q + mul, x - div) && q + mul < WORD64
  {
    Distribute(q, mul, y);
    MulAtMost(1, y, q + mul);
  }

  lemma SplitsIs(x0: u64, y: u64, q: nat, x: nat)
    requires Splits(x0, y, q, x) && x < y
    ensures q == x0 / y && x == x0 % y
  {
    ModUnique(x0, q, y, x);
  }

  /** Half of a doubling, until nothing is left to halve: then div was y itself. */
  lemma Halved(y: nat, mul: nat, div: nat)
    requires Scaled(y, mul, div)
    ensures mul >= 1 && (mul / 2 == 0 ==> div == y)
    ensures mul / 2 > 0 ==> Scaled(y, mul / 2, div / 2) && div == 2 * (div / 2)
  {
    Halves(mul);
    if mul > 1 {
      HalfProduct(y, mul);
      Assoc(y, mul / 2, 2);
    }
  }

  lemma HalfProduct(y: nat, mul: nat)
    requires mul % 2 == 0
    ensures (y * mul) / 2 == y * (mul / 2)
  {
    Assoc(y, mul / 2, 2);
    ModUnique(y * mul, y * (mul / 2), 2, 0);
  }

  // ----- mul64: 16-bit limbs

  const LIMB: int := 0x1_0000

  /** Two 16-bit limbs multiplied in 32 bits, and the running sum in 64. */
  function Product(a: int, b: int): u32 { (a * b) % WORD }
  function Plus(res: u64, p: u32): u64 { (res + p) % WORD64 }
  function Up(res: u64): u64 { (res * LIMB) % WORD64 }

  lemma Added(res: u64, v: nat, a: int, b: int)
    requires res == v % WORD64 && 0 <= a < LIMB && 0 <= b < LIMB
    ensures a * b >= 0 && Plus(res, Product(a, b)) == (v + a * b) % WORD64
  {
    Bigger(a, LIMB - 1, b, LIMB - 1);
    MulNonNegative(a, b);
    ModUnique(a * b, 0, WORD, a * b);
    ModPlus(v, a * b, WORD64);
  }

  lemma Moved(res: u64, v: nat)
    requires res == v % WORD64
    ensures Up(res) == (v * LIMB) % WORD64
  {
    var k := v / WORD64;
    assert v == k * WORD64 + res;
    ModAddMultiple(res * LIMB, k * LIMB, WORD64);
  }

  lemma Row(a: int, e: int, f: int, g: int, h: int)
    ensures a * (e + LIMB * f + LIMB * LIMB * g + LIMB * LIMB * LIMB * h)
         == a * e + LIMB * (a * f) + LIMB * LIMB * (a * g) + LIMB * LIMB * LIMB * (a * h)
  {
    Distribute(e + LIMB * f + LIMB * LIMB * g, LIMB * LIMB * LIMB * h, a);
    Distribute(e + LIMB * f, LIMB * LIMB * g, a);
    Distribute(e, LIMB * f, a);
  }

  /** All sixteen products; those of weight 2^64 and more drop out. */
  lemma Limbs(a: int, b: int, c: int, d: int, e: int, f: int, g: int, h: int)
    ensures var x := a + LIMB * b + LIMB * LIMB * c + LIMB * LIMB * LIMB * d;
            var y := e + LIMB * f + LIMB * LIMB * g + LIMB * LIMB * LIMB * h;
            var v := (((d * e + c * f + b * g + a * h) * LIMB + c * e + b * f + a * g) * LIMB + b * e + a * f) * LIMB + a * e;
            (x * y) % WORD64 == v % WORD64
  {
    var x := a + LIMB * b + LIMB * LIMB * c + LIMB * LIMB * LIMB * d;
    var y := e + LIMB * f + LIMB * LIMB * g + LIMB * LIMB * LIMB * h;
    var v := (((d * e + c * f + b * g + a * h) * LIMB + c * e + b * f + a * g) * LIMB + b * e + a * f) * LIMB + a * e;
    Row(y, a, b, c, d);
    Row(a, e, f, g, h);
    Row(b, e, f, g, h);
    Row(c, e, f, g, h);
    Row(d, e, f, g, h);
    var rest := d * f + c * g + b * h + LIMB * (d * g + c * h) + LIMB * LIMB * (d * h);
    assert x * y == v + rest * WORD64;
    ModAddMultiple(v, rest, WORD64);
  }

  ghost predicate Means(res: u64, v: nat) { res == v % WORD64 }

  lemma MeansIs(res: u64, v: nat)
    requires Means(res, v)
    ensures res == v % WORD64
  {
  }

  /** One more product into the sum. */
  method Accumulate(res0: u64, a: int, b: int, ghost v: nat) returns (res: u64)
    requires Means(res0, v) && 0 <= a < LIMB && 0 <= b < LIMB
    ensures a * b >= 0 && Means(res, v + a * b)
  {
    Added(res0, v, a, b);
    res := Plus(res0, Product(a, b));
  }

  method ShiftUp(res0: u64, ghost v: nat) returns (res: u64)
    requires Means(res0, v)
    ensures Means(res, v * LIMB)
  {
    Moved(res0, v);
    res := Up(res0);
  }

  /** The limbs of a number, from the low end. */
  lemma LimbsOf(x: u64)
    ensures x == x % LIMB + LIMB * (x / LIMB % LIMB) + LIMB * LIMB * (x / LIMB / LIMB % LIMB) + LIMB * LIMB * LIMB * (x / LIMB / LIMB / LIMB % LIMB)
  {
    assert x == LIMB * (x / LIMB) + x % LIMB;
    var x1 := x / LIMB;
    assert x1 == LIMB * (x1 / LIMB) + x1 % LIMB;
    var x2 := x1 / LIMB;
    assert x2 == LIMB * (x2 / LIMB) + x2 % LIMB;
    var x3 := x2 / LIMB;
    ModUnique(x3, 0, LIMB, x3);
  }

  method Mul64(x: u64, y: u64) returns (res: u64)
    ensures res == (x * y) % WORD64
  {
    var a, b, c, d := x % LIMB, x / LIMB % LIMB, x / LIMB / LIMB % LIMB, x / LIMB / LIMB / LIMB % LIMB;
    var e, f, g, h := y % LIMB, y / LIMB % LIMB, y / LIMB / LIMB % LIMB, y / LIMB / LIMB / LIMB % LIMB;
    LimbsOf(x);
    LimbsOf(y);
    Limbs(a, b, c, d, e, f, g, h);
    ghost var v;
    res, v := Columns(a, b, c, d, e, f, g, h);
  }

  /** Column by column, from weight 2^48 down. */
  method Columns(a: int, b: int, c: int, d: int, e: int, f: int, g: int, h: int) returns (res: u64, ghost v: nat)
    requires 0 <= a < LIMB && 0 <= b < LIMB && 0 <= c < LIMB && 0 <= d < LIMB
    requires 0 <= e < LIMB && 0 <= f < LIMB && 0 <= g < LIMB && 0 <= h < LIMB
    ensures v == (((d * e + c * f + b * g + a * h) * LIMB + c * e + b * f + a * g) * LIMB + b * e + a * f) * LIMB + a * e
    ensures res == v % WORD64
  {
    assert Means(0, 0);
    hide Means;
    res := Accumulate(0, d, e, 0);
    v := d * e;
    res, v := ThreeMore(res, c, f, b, g, a, h, v);
    res := ShiftUp(res, v);
    res, v := ThreeMore(res, c, e, b, f, a, g, v * LIMB);
    res := ShiftUp(res, v);
    res, v := TwoMore(res, b, e, a, f, v * LIMB);
    res := ShiftUp(res, v);
    res := Accumulate(res, a, e, v * LIMB);
    v := v * LIMB + a * e;
    MeansIs(res, v);
  }

  method TwoMore(res0: u64, a: int, b: int, c: int, d: int, ghost v0: nat) returns (res: u64, ghost v: nat)
    requires Means(res0, v0) && 0 <= a < LIMB && 0 <= b < LIMB && 0 <= c < LIMB && 0 <= d < LIMB
    ensures v == v0 + a * b + c * d && Means(res, v)
  {
    hide Means;
    res := Accumulate(res0, a, b, v0);
    res := Accumulate(res, c, d, v0 + a * b);
    v := v0 + a * b + c * d;
  }

  method ThreeMore(res0: u64, a: int, b: int, c: int, d: int, e: int, f: int, ghost v0: nat) returns (res: u64, ghost v: nat)
    requires Means(res0, v0) && 0 <= a < LIMB && 0 <= b < LIMB && 0 <= c < LIMB && 0 <= d < LIMB && 0 <= e < LIMB && 0 <= f < LIMB
    ensures v == v0 + a * b + c * d + e * f && Means(res, v)
  {
    hide Means;
    res, v := TwoMore(res0, a, b, c, d, v0);
    res := Accumulate(res, e, f, v);
    v := v + e * f;
  }
}
