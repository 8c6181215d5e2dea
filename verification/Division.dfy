/** 64-bit division by 32-bit and by 64-bit divisors (esd/src/osif.c, esd/src/osif.h). C's unsigned types are
    modelled by integers with an explicit truncation after every operation that could leave the type. */
module Division {
  import opened Basics

  type UInt32 = x: int | 0 <= x < TWO_32
  type UInt64 = x: int | 0 <= x < TWO_64

  function Truncate32(x: nat): UInt32 { x % TWO_32 }
  function Truncate64(x: nat): UInt64 { x % TWO_64 }

  /** The value of a 64-bit pattern read as signed. */
  function Signed64(x: UInt64): int {
    if x < TWO_63 then x else x - TWO_64
  }

  /** It is the number in the signed range that differs by a multiple of 2^64. */
  lemma SignedMeans(x: UInt64)
    ensures -TWO_63 <= Signed64(x) < TWO_63
    ensures Signed64(x) == x || Signed64(x) == x - TWO_64
  {
  }

  function Pow2(k: nat): (p: nat)
    ensures p >= 1
  {
    if k == 0 then 1 else 2 * Pow2(k - 1)
  }

  lemma MulLess(a: nat, b: nat, c: nat)
    requires a < b
    ensures a * c + c <= b * c
  {
    var k := b - a - 1;
    calc {
      b * c;
      (a + k + 1) * c;
      a * c + k * c + c;
    }
  }

  lemma Doubled(a: nat, p: nat, q: nat)
    requires q == 2 * p
    ensures a * q == 2 * (a * p) && q * a == 2 * (p * a)
  {
  }

  lemma {:induction false} Pow2Increases(i: nat, j: nat)
    requires i < j
    ensures 2 * Pow2(i) <= Pow2(j)
  {
    if i + 1 < j {
      Pow2Increases(i, j - 1);
    }
  }

  /** Quotient and remainder are the only pair with this property. */
  lemma DivisionIsUnique(n: nat, base: nat, q: nat, rem: nat)
    requires base > 0 && n == q * base + rem && rem < base
    ensures q == n / base && rem == n % base
  {
    var q', rem' := n / base, n % base;
    assert n == q' * base + rem';
    if q < q' {
      MulLess(q, q', base);
    } else if q' < q {
      MulLess(q', q, base);
    }
  }

  lemma Euclid(a: nat, b: nat) returns (q: nat, r: nat)
    requires b > 0
    ensures q == a / b && r == a % b
    ensures a == q * b + r && r < b && q <= a
  {
    q, r := a / b, a % b;
    assert a == q * b + r;
    FactorAtMostProduct(q, b);
  }

  lemma FactorAtMostProduct(q: nat, b: nat)
    requires b > 0
    ensures q <= q * b
  {
  }

  lemma MulCancel(a: nat, b: nat, c: nat)
    requires a * c < b * c
    ensures a < b
  {
  }

  lemma FactorBounds(base: UInt32, p: nat, rem: nat)
    requires base > 0 && p > 0 && p * base < rem < TWO_32 * base
    ensures p < TWO_32
    ensures p <= TWO_32 / 2 ==> 0 < p * base < TWO_63
  {
  }

  /** While the doubled divisor is below the remainder it is below 2^63 and fewer than 32 doublings were made: the
      signed test in the guard of the doubling loop never ends that loop. */
  lemma SignedGuardNeverDecides(base: UInt32, k: nat, rem: nat)
    requires base > 0 && Pow2(k) * base < rem < TWO_32 * base
    ensures k < 32 && 0 < Pow2(k) * base < TWO_63
  {
    FactorBounds(base, Pow2(k), rem);
    Pow2Below32(k);
  }

  lemma Pow2Below32(k: nat)
    requires Pow2(k) < TWO_32
    ensures k < 32 && Pow2(k) <= TWO_32 / 2
  {
    Pow2Of32();
    if k < 31 {
      Pow2Increases(k, 31);
    } else if k > 31 {
      Pow2Increases(31, k);
    }
  }

  lemma MulMonotone(a: nat, b: nat, c: nat)
    requires a <= b
    ensures a * c <= b * c
  {
  }

  lemma Pow2Of32()
    ensures Pow2(31) == TWO_32 / 2 && Pow2(32) == TWO_32
  {
    assert Pow2(8) == 0x100;
    assert Pow2(16) == 0x1_0000;
    assert Pow2(24) == 0x100_0000;
  }

  /** The reduction by whole multiples of 2^32: no product leaves its type, and what is left is below 2^32 * base. */
  lemma Reduction(n: UInt64, high: UInt32, low: UInt32, base: UInt32)
    requires base > 0 && n == high * TWO_32 + low
    ensures var q := high / base;
            && Truncate64(q * TWO_32) == q * TWO_32
            && Truncate64(Truncate32(q * base) * TWO_32) == q * base * TWO_32 <= n
            && n == q * TWO_32 * base + (n - q * base * TWO_32)
            && n - q * base * TWO_32 < TWO_32 * base
  {
    var q, r := Euclid(high, base);
    TruncationsKeep(high, q, q * base);
    assert q * TWO_32 * base == q * base * TWO_32;
  }

  lemma TruncationsKeep(high: UInt32, q: nat, p: nat)
    requires q <= high && p <= high
    ensures Truncate64(q * TWO_32) == q * TWO_32
    ensures Truncate64(Truncate32(p) * TWO_32) == p * TWO_32
  {
  }

  lemma DoublingStep(base: UInt32, k: nat, rem: UInt64, b: UInt64, d: UInt64)
    requires base > 0 && d == Pow2(k) && b == d * base && b < rem < TWO_32 * base
    ensures k < 32 && Signed64(b) > 0
    ensures Truncate64(2 * d) == 2 * d == Pow2(k + 1)
    ensures Truncate64(2 * b) == 2 * b == (2 * d) * base
  {
    SignedGuardNeverDecides(base, k, rem);
    FactorAtMostProduct(d, base);
  }

  lemma HalvingStep(base: UInt32, k: nat, b: UInt64, d: UInt64)
    requires d == Pow2(k) && b == d * base && k > 0
    ensures d / 2 == Pow2(k - 1) && b / 2 == (d / 2) * base && 2 * (b / 2) == b
  {
  }

  lemma SubtractionStep(n: UInt64, base: UInt32, rem: UInt64, res: UInt64, b: UInt64, d: UInt64)
    requires base > 0 && n == res * base + rem && b == d * base && b <= rem
    ensures n == (res + d) * base + (rem - b) && res + d < TWO_64
  {
  }

  method Reduce(n: UInt64, base: UInt32) returns (res: UInt64, rem: UInt64)
    requires base > 0
    ensures n == res * base + rem && rem < TWO_32 * base
  {
    var high: UInt32 := Truncate32(n / TWO_32);
    res, rem := 0, n;
    if high >= base {
      Reduction(n, high, n % TWO_32, base);
      high := high / base;
      res := Truncate64(high * TWO_32);
      rem := rem - Truncate64(Truncate32(high * base) * TWO_32);
    }
  }

  /** The doubling loop of the division. */
  method ScaleUp(rem: UInt64, base: UInt32) returns (b: UInt64, d: UInt64, doublings: nat)
    requires base > 0 && rem < TWO_32 * base
    ensures d == Pow2(doublings) && b == d * base && rem <= b && doublings <= 32
  {
    b, d, doublings := base, 1, 0;
    while Signed64(b) > 0 && b < rem
      invariant doublings <= 32 && d == Pow2(doublings) && b == d * base
      decreases 32 - doublings
    {
      DoublingStep(base, doublings, rem, b, d);
      b := Truncate64(2 * b);
      d := Truncate64(2 * d);
      doublings := doublings + 1;
    }
    if b < rem {
      DoublingStep(base, doublings, rem, b, d);
    }
  }

  /** One turn of the subtracting loop up to its shifts. */
  method SubtractOnce(ghost n: UInt64, ghost base: UInt32, res0: UInt64, rem0: UInt64, b: UInt64, d: UInt64)
    returns (res: UInt64, rem: UInt64)
    requires base > 0 && n == res0 * base + rem0 && b == d * base && rem0 - b < b
    ensures n == res * base + rem && rem < b
  {
    res, rem := res0, rem0;
    if rem >= b {
      SubtractionStep(n, base, rem, res, b, d);
      rem := rem - b;
      res := res + d;
    }
  }

  /** The subtracting loop of the division. */
  method ScaleDown(ghost n: UInt64, ghost base: UInt32, res0: UInt64, rem0: UInt64, b0: UInt64, d0: UInt64, ghost k0: nat)
    returns (res: UInt64, rem: UInt64)
    requires base > 0 && n == res0 * base + rem0
    requires d0 == Pow2(k0) && b0 == d0 * base && rem0 <= b0
    ensures n == res * base + rem && rem < base
  {
    var b, d := b0, d0;
    ghost var k := k0;
    res, rem := res0, rem0;
    FactorAtMostProduct(base, d);
    while true
      invariant d == Pow2(k) && b == d * base
      invariant n == res * base + rem && rem - b < b
      decreases k
    {
      res, rem := SubtractOnce(n, base, res, rem, b, d);
      if k > 0 {
        HalvingStep(base, k, b, d);
      } else {
        assert b == base;
      }
      b := b / 2;
      d := d / 2;
      if d == 0 {
        break;
      }
      k := k - 1;
    }
  }

  /** Shift-subtract long division is exact for every dividend and every divisor but 0. */
  method Div64By32(n: UInt64, base: UInt32) returns (res: UInt64, remainder: UInt32, doublings: nat)
    requires base > 0
    ensures res == n / base && remainder == n % base
    ensures doublings <= 32
  {
    var rem: UInt64;
    res, rem := Reduce(n, base);
    var b, d;
    b, d, doublings := ScaleUp(rem, base);
    res, rem := ScaleDown(n, base, res, rem, b, d, doublings);
    DivisionIsUnique(n, base, res, rem);
    remainder := Truncate32(rem);
  }

  // ---------------------------------------------------------------- 64-bit divisors

  /** The C operator >> on an unsigned operand. */
  function Shr(x: nat, k: nat): nat {
    if k == 0 then x else Shr(x / 2, k - 1)
  }

  lemma {:induction false} ShrIsDivision(x: nat, k: nat) returns (low: nat)
    ensures x == Shr(x, k) * Pow2(k) + low && low < Pow2(k)
  {
    if k == 0 {
      low := 0;
    } else {
      var l := ShrIsDivision(x / 2, k - 1);
      low := 2 * l + x % 2;
      Doubled(Shr(x / 2, k - 1), Pow2(k - 1), Pow2(k));
    }
  }

  lemma {:induction false} ShrOneMore(x: nat, k: nat)
    ensures Shr(x, k + 1) == Shr(x, k) / 2
  {
    if k > 0 {
      ShrOneMore(x / 2, k - 1);
    }
  }

  lemma ShrBy32(x: UInt64)
    ensures Shr(x, 32) < TWO_32
  {
    var low := ShrIsDivision(x, 32);
    Pow2Of32();
  }

  /** `s` is the least shift that brings `div` below 2^32. */
  ghost predicate IsLeastShift(div: nat, s: nat) {
    Shr(div, s) < TWO_32 && forall t: nat | t < s :: Shr(div, t) >= TWO_32
  }

  lemma {:induction false} ShrMonotone(x: nat, j: nat, k: nat)
    requires j <= k
    ensures Shr(x, k) <= Shr(x, j)
  {
    if j < k {
      ShrMonotone(x, j, k - 1);
      ShrOneMore(x, k - 1);
    }
  }

  lemma LeastShiftIsUnique(div: nat, s: nat, t: nat)
    requires IsLeastShift(div, s) && IsLeastShift(div, t)
    ensures s == t
  {
  }

  /** The loop that determines the shift for the tick frequency: the result is the larger of the present shift and
      the least that will do, so it will do. */
  method SftFixup(tick: UInt64, sft0: nat) returns (sft: nat)
    ensures Shr(tick, sft) < TWO_32
    ensures exists least: nat :: IsLeastShift(tick, least) && sft == Max(sft0, least)
    ensures forall least: nat | IsLeastShift(tick, least) :: sft == Max(sft0, least)
    ensures sft0 == 0 ==> IsLeastShift(tick, sft)
  {
    var minSft := 0;
    var f := tick;
    while f / TWO_32 != 0
      invariant f == Shr(tick, minSft)
      invariant forall t: nat | t < minSft :: Shr(tick, t) >= TWO_32
      decreases f
    {
      ShrOneMore(tick, minSft);
      minSft := minSft + 1;
      f := f / 2;
    }
    assert IsLeastShift(tick, minSft);
    forall least: nat | IsLeastShift(tick, least) ensures least == minSft {
      LeastShiftIsUnique(tick, least, minSft);
    }
    sft := sft0;
    if sft < minSft {
      sft := minSft;
    }
    ShrMonotone(tick, minSft, sft);
  }

  /** Division by the shifted divisor, shifted back. */
  method Div64By64(n: UInt64, div: UInt64, sft: nat) returns (q: UInt64)
    requires 0 < Shr(div, sft) < TWO_32
    ensures q == Approximate(n, div, sft)
  {
    var quotient, rem, doublings := Div64By32(n, Truncate32(Shr(div, sft)));
    ShrShrinks(quotient, sft);
    q := Shr(quotient, sft);
  }

  lemma {:induction false} ShrShrinks(x: nat, k: nat)
    ensures Shr(x, k) <= x
  {
    if k > 0 {
      ShrShrinks(x / 2, k - 1);
    }
  }

  lemma NestedDivision(n: nat, q: nat, r: nat, a: nat, q': nat, r': nat, b: nat)
    requires n == q * a + r && r < a
    requires q == q' * b + r' && r' < b
    ensures n == q' * (a * b) + (r' * a + r) && r' * a + r < a * b
  {
    assert q * a == q' * (a * b) + r' * a;
    MulLess(r', b, a);
  }

  /** With P = 2^s, D = d * P the divisor the code really uses, k = n / div and P * M = 2^33. */
  lemma QuotientTimesShift(k: nat, d: nat, P: nat, M: nat, n: nat)
    requires k * (d * P) <= n < TWO_64 && d >= 0x8000_0000 && P * M == 0x2_0000_0000
    ensures (k + 1) * P <= 0x2_0000_0000
  {
    var u := k * P;
    assert k * (d * P) == d * u;
    MulMonotone(0x8000_0000, d, u);
    assert u < M * P;
    MulCancel(k, M, P);
    MulMonotone(k + 1, M, P);
  }

  lemma ErrorBelowOne(n: nat, div: nat, k: nat, D: nat, P: nat)
    requires n < (k + 1) * div && div < D + P && P >= 1
    requires (k + 1) * P <= D + (k + 1)
    ensures n < (k + 2) * D
  {
    MulMonotone(div, D + P - 1, k + 1);
    assert (k + 1) * (D + P - 1) == (k + 1) * D + (k + 1) * P - (k + 1);
    assert (k + 2) * D == (k + 1) * D + D;
  }

  lemma ShiftedDivisor(div: UInt64, s: nat)
    requires div > 0 && IsLeastShift(div, s)
    ensures s <= 32 && 0 < Shr(div, s) < TWO_32
    ensures s > 0 ==> Shr(div, s) >= 0x8000_0000
  {
    if s > 32 {
      ShrBy32(div);
      assert false;
    }
    if s > 0 {
      ShrOneMore(div, s - 1);
    }
  }

  /** What Div64By64 returns. */
  function Approximate(n: UInt64, div: UInt64, sft: nat): nat
    requires Shr(div, sft) > 0
  {
    Shr(n / Shr(div, sft), sft)
  }

  /** It is the exact quotient by the divisor with its low bits cleared. */
  lemma QuotientByCleared(n: UInt64, div: UInt64, s: nat) returns (q: nat, rest: nat)
    requires Shr(div, s) > 0
    ensures q == Approximate(n, div, s)
    ensures n == q * (Shr(div, s) * Pow2(s)) + rest && rest < Shr(div, s) * Pow2(s)
  {
    var d := Shr(div, s);
    var q0, r := Euclid(n, d);
    var r' := ShrIsDivision(q0, s);
    q := Shr(q0, s);
    NestedDivision(n, q0, r, d, q, r', Pow2(s));
    rest := r' * d + r;
  }

  /** A shift of at least one: k + 1 times the shifted-out part stays below the divisor in use. */
  lemma ShiftedOutPartIsSmall(n: UInt64, k: nat, d: nat, s: nat)
    requires 1 <= s <= 32 && d >= 0x8000_0000 && k * (d * Pow2(s)) <= n
    ensures (k + 1) * Pow2(s) <= d * Pow2(s) + (k + 1)
  {
    var P := Pow2(s);
    Pow2Splits(s, 33 - s);
    Pow2Of32();
    QuotientTimesShift(k, d, P, Pow2(33 - s), n);
    MulMonotone(0x8000_0000, d, P);
    if s > 1 {
      if s > 2 { Pow2Increases(2, s); }
      assert Pow2(2) == 4;
    } else {
      assert P == 2;
    }
  }

  lemma {:induction false} Pow2Splits(i: nat, j: nat)
    ensures Pow2(i) * Pow2(j) == Pow2(i + j)
  {
    if i > 0 {
      Pow2Splits(i - 1, j);
      Doubled(Pow2(j), Pow2(i - 1), Pow2(i));
    }
  }

  lemma QuotientsCompared(n: nat, q: nat, rest: nat, D: nat, k: nat, r: nat, div: nat)
    requires n == q * D + rest && rest < D
    requires n == k * div + r && r < div && D <= div
    ensures k <= q
    ensures n < (k + 2) * D ==> q <= k + 1
    ensures D == div ==> q == k
    ensures k * D <= n < (k + 1) * div
  {
    MulMonotone(D, div, k);
    assert (k + 1) * div == k * div + div && (q + 1) * D == q * D + D;
    if q + 1 <= k {
      MulMonotone(q + 1, k, D);
    }
    if k + 2 <= q {
      MulMonotone(k + 2, q, D);
    }
    if D == div {
      DivisionIsUnique(n, D, q, rest);
      DivisionIsUnique(n, D, k, r);
    }
  }

  lemma BoundFor(n: UInt64, div: UInt64, s: nat, k: nat, r: nat, d: nat, q: nat, rest: nat)
    requires s <= 32 && (s > 0 ==> d >= 0x8000_0000)
    requires n == k * div + r && r < div
    requires d * Pow2(s) <= div < d * Pow2(s) + Pow2(s)
    requires n == q * (d * Pow2(s)) + rest && rest < d * Pow2(s)
    ensures k <= q <= k + 1
    ensures div == d * Pow2(s) ==> q == k
  {
    var D := d * Pow2(s);
    QuotientsCompared(n, q, rest, D, k, r, div);
    if s > 0 {
      ShiftedOutPartIsSmall(n, k, d, s);
      ErrorBelowOne(n, div, k, D, Pow2(s));
    }
  }

  /** With the shift SftFixup finds, the quotient is never too small and at most one too large; it is exact if
      nothing was shifted out of the divisor. */
  lemma Div64By64Bound(n: UInt64, div: UInt64, s: nat)
    requires div > 0 && IsLeastShift(div, s)
    ensures 0 < Shr(div, s) < TWO_32
    ensures n / div <= Approximate(n, div, s) <= n / div + 1
    ensures div == Shr(div, s) * Pow2(s) ==> Approximate(n, div, s) == n / div
  {
    ShiftedDivisor(div, s);
    var q, rest := QuotientByCleared(n, div, s);
    var k, r := Euclid(n, div);
    var low := ShrIsDivision(div, s);
    BoundFor(n, div, s, k, r, Shr(div, s), q, rest);
  }

  /** The bound is met: the quotient can be one too large. */
  lemma Div64By64BoundIsTight()
    ensures var n, div := 0xFFFF_FFFF_0000_0000, 0x1_0000_0001;
            IsLeastShift(div, 1) && Approximate(n, div, 1) == n / div + 1
  {
    assert Shr(0x1_0000_0001, 0) == 0x1_0000_0001;
  }
}
