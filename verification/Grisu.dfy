/** The shortest-digits printer for doubles: 64-bit fixed point arithmetic on significands.

    Variables that hold a 64-bit value have the type `U64`, so every assignment to one carries the
    obligation that the value did not overflow. */
module Grisu {
  import opened Powers
  import opened PowersTen
  import opened Words

  const HIDDENBIT: nat := 0x10_0000_0000_0000

  type U64 = x: nat | x < W64

  /// Doubles

  /** A finite double that is not zero, without its sign. */
  predicate IsFinite(bits: nat) {
    0 < bits < 0x7FF0_0000_0000_0000
  }

  function BuildFp(bits: nat): Fp {
    var frac := bits % HIDDENBIT;
    var exp := bits / HIDDENBIT % 0x800;
    if exp != 0 then Fp(frac + HIDDENBIT, exp - 1075) else Fp(frac, -1074)
  }

  ghost function Value(fp: Fp): real {
    fp.frac as real * RPow(2.0, fp.exp)
  }

  lemma BuildFpRange(bits: nat)
    requires IsFinite(bits)
    ensures 0 < BuildFp(bits).frac < 2 * HIDDENBIT && -1074 <= BuildFp(bits).exp <= 971
    ensures BuildFp(bits).frac < HIDDENBIT ==> BuildFp(bits).exp == -1074
  {
  }

  /// Multiplication

  /** The 64x64 bit product, rounded to its upper 64 bits. */
  method Multiply(a: Fp, b: Fp) returns (r: Fp)
    requires a.frac < W64 && b.frac < W64
    ensures r.frac == (a.frac * b.frac + W64 / 2) / W64 && r.frac < W64
    ensures r.exp == a.exp + b.exp + 64
  {
    var m := 0x1_0000_0000;
    var ah: U64, al: U64, bh: U64, bl: U64 := a.frac / m, a.frac % m, b.frac / m, b.frac % m;
    SplitProduct(a.frac, b.frac);
    HalfProducts(ah, al, bh, bl);
    var ahbl: U64, albh: U64, albl: U64, ahbh: U64 := ah * bl, al * bh, al * bl, ah * bh;
    var tmp: U64 := ahbl % m + albh % m + albl / m;
    tmp := tmp + 0x8000_0000;
    RoundsUp(a.frac * b.frac, ahbh, ahbl, albh, albl);
    ProductFits(a.frac, b.frac);
    var frac: U64 := ahbh + ahbl / m + albh / m + tmp / m;
    r := Fp(frac, a.exp + b.exp + 64);
  }

  lemma SplitProduct(a: nat, b: nat)
    ensures var m := 0x1_0000_0000;
            var ah, al, bh, bl := a / m, a % m, b / m, b % m;
            a * b == ah * bh * (m * m) + (ah * bl + al * bh) * m + al * bl
  {
    var m := 0x1_0000_0000;
    var ah, al, bh, bl := a / m, a % m, b / m, b % m;
    assert a == ah * m + al && b == bh * m + bl;
    assert a * b == (ah * m + al) * (bh * m + bl);
    Expand(ah, al, bh, bl, m);
  }

  lemma Expand(ah: int, al: int, bh: int, bl: int, m: int)
    ensures (ah * m + al) * (bh * m + bl) == ah * bh * (m * m) + (ah * bl + al * bh) * m + al * bl
  {
  }

  lemma HalfProducts(ah: nat, al: nat, bh: nat, bl: nat)
    requires ah < 0x1_0000_0000 && al < 0x1_0000_0000 && bh < 0x1_0000_0000 && bl < 0x1_0000_0000
    ensures ah * bl < W64 && al * bh < W64 && al * bl < W64 && ah * bh < W64
  {
    var m := 0xFFFF_FFFF;
    MulMono(ah, m, bl, m);
    MulMono(al, m, bh, m);
    MulMono(al, m, bl, m);
    MulMono(ah, m, bh, m);
  }

  lemma RoundsUp(p: nat, hh: nat, hl: nat, lh: nat, ll: nat)
    requires p == hh * (0x1_0000_0000 * 0x1_0000_0000) + (hl + lh) * 0x1_0000_0000 + ll
    ensures var m := 0x1_0000_0000;
            var tmp := hl % m + lh % m + ll / m + 0x8000_0000;
            (p + W64 / 2) / W64 == hh + hl / m + lh / m + tmp / m
  {
    var m := 0x1_0000_0000;
    var tmp := hl % m + lh % m + ll / m + 0x8000_0000;
    var q, rest := hh + hl / m + lh / m + tmp / m, tmp % m * m + ll % m;
    assert p + W64 / 2 == q * W64 + rest;
    assert 0 <= rest < W64;
  }

  lemma ProductFits(a: nat, b: nat)
    requires a < W64 && b < W64
    ensures (a * b + W64 / 2) / W64 < W64
  {
    MulMono(a, W64 - 1, b, W64 - 1);
  }

  /// Normalisation and boundaries

  /** How often a significand is doubled until it reaches the hidden bit. */
  function Doublings(f: nat): nat
    requires 0 < f < 2 * HIDDENBIT
    decreases 2 * HIDDENBIT - f
  {
    if f >= HIDDENBIT then 0 else 1 + Doublings(2 * f)
  }

  lemma {:induction false} DoublingsScale(f: nat)
    requires 0 < f < 2 * HIDDENBIT
    ensures HIDDENBIT <= f * Pow(2, Doublings(f)) < 2 * HIDDENBIT && Doublings(f) <= 52
    decreases 2 * HIDDENBIT - f
  {
    hide Pow;
    PowZero();
    if f < HIDDENBIT {
      DoublingsScale(2 * f);
      var d := Doublings(2 * f);
      PowAdd(2, 1, d);
      Assoc(f, 2, Pow(2, d));
      if 1 + d > 52 {
        TwoTo52();
        PowMonotone(2, 53, 1 + d);
        MulMono(1, f, Pow(2, 53), Pow(2, 1 + d));
      }
    }
  }

  lemma TwoTo52()
    ensures Pow(2, 52) == HIDDENBIT && Pow(2, 53) == 2 * HIDDENBIT && Pow(2, 10) == 1024 && Pow(2, 11) == 2048
  {
    hide Pow;
    FirstPowers();
    SmallPowers();
    PowAdd(2, 26, 26);
    PowAdd(2, 1, 52);
    PowAdd(2, 1, 10);
    PowAdd(2, 3, 1);
    PowAdd(2, 4, 4);
    PowAdd(2, 8, 2);
  }

  /** Shifts the top bit of the fraction to bit 63. */
  method Normalize(fp: Fp) returns (r: Fp)
    requires 0 < fp.frac < 2 * HIDDENBIT
    ensures var s := Doublings(fp.frac) + 11;
            r == Fp(fp.frac * Pow(2, s), fp.exp - s)
    ensures W64 / 2 <= r.frac < W64
  {
    hide Pow;
    var frac: U64, exp := fp.frac, fp.exp;
    ghost var n := 0;
    PowZero();
    while frac / HIDDENBIT % 2 == 0
      invariant 0 < frac < 2 * HIDDENBIT && n + Doublings(frac) == Doublings(fp.frac)
      invariant frac == fp.frac * Pow(2, n) && exp == fp.exp - n
      decreases 2 * HIDDENBIT - frac
    {
      PowAdd(2, n, 1);
      assert fp.frac * (Pow(2, n) * 2) == fp.frac * Pow(2, n) * 2;
      frac, exp, n := frac * 2, exp - 1, n + 1;
    }
    PowAdd(2, n, 11);
    TwoTo52();
    Assoc(fp.frac, Pow(2, n), 2048);
    frac, exp := frac * 2048, exp - 11;
    r := Fp(frac, exp);
  }

  lemma PowZero()
    ensures Pow(2, 0) == 1 && Pow(2, 1) == 2
  {
  }

  /** Doubling the midpoint `2f + 1` and doubling `f` reach their hidden bits together. */
  lemma MidpointBit(f: nat, n: nat)
    requires 0 < f < 2 * HIDDENBIT && n <= 52
    ensures (2 * f + 1) * Pow(2, n) < 2 * HIDDENBIT <==> f * Pow(2, n) < HIDDENBIT
    ensures f * Pow(2, n) < 2 * HIDDENBIT ==> (2 * f + 1) * Pow(2, n) < 4 * HIDDENBIT
  {
    hide Pow;
    TwoTo52();
    PowAdd(2, n, 52 - n);
    PowAdd(2, n, 53 - n);
    PowAdd(2, 1, 52 - n);
    PowZero();
    Multiples(f, Pow(2, n), Pow(2, 52 - n));
    Multiples(f, Pow(2, n), Pow(2, 53 - n));
  }

  lemma Multiples(f: nat, p: nat, q: nat)
    requires p > 0
    ensures (2 * f + 1) * p < 2 * (p * q) <==> f * p < p * q
  {
    if f < q {
      MulMono(2 * f + 2, 2 * q, p, p);
      assert f * p < p * q by { MulMono(f + 1, q, p, p); }
      assert (2 * f + 1) * p < 2 * q * p;
    } else {
      MulMono(q, f, p, p);
      assert (2 * f + 1) * p == 2 * (f * p) + p;
    }
  }

  lemma MidpointStep(f: nat, n: nat)
    requires 0 < f < 2 * HIDDENBIT && n < Doublings(f)
    ensures (2 * f + 1) * Pow(2, n + 1) == (2 * f + 1) * Pow(2, n) * 2
    ensures (2 * f + 1) * Pow(2, n) < 2 * HIDDENBIT
  {
    hide Pow;
    PowZero();
    PowAdd(2, n, 1);
    Assoc(2 * f + 1, Pow(2, n), 2);
    DoublingsScale(f);
    PowAdd(2, n, Doublings(f) - n);
    BelowHidden(f, n);
    MidpointBit(f, n);
  }

  /** Before its last doubling a significand is below the hidden bit. */
  lemma {:induction false} BelowHidden(f: nat, n: nat)
    requires 0 < f < 2 * HIDDENBIT && n < Doublings(f)
    ensures f * Pow(2, n) < HIDDENBIT
    decreases n
  {
    hide Pow;
    PowZero();
    if n > 0 {
      BelowHidden(2 * f, n - 1);
      PowAdd(2, 1, n - 1);
      Assoc(f, 2, Pow(2, n - 1));
    }
  }

  method NormalizeMidpoint(f: nat) returns (ufrac: U64, n: nat)
    requires 0 < f < 2 * HIDDENBIT
    ensures n == Doublings(f) && ufrac == (2 * f + 1) * Pow(2, n) && 2 * HIDDENBIT <= ufrac < 4 * HIDDENBIT
  {
    hide Pow, Doublings;
    ufrac, n := 2 * f + 1, 0;
    PowZero();
    DoublingsScale(f);
    MidpointBit(f, Doublings(f));
    while ufrac / (2 * HIDDENBIT) % 2 == 0
      invariant n <= Doublings(f) && ufrac == (2 * f + 1) * Pow(2, n) < 4 * HIDDENBIT
      decreases Doublings(f) - n
    {
      MidpointStep(f, n);
      ufrac, n := ufrac * 2, n + 1;
    }
    if n < Doublings(f) {
      MidpointStep(f, n);
    }
  }

  /** The midpoints to the neighbouring doubles, with the exponent of the normalised upper one. */
  method NormalizedBoundaries(fp: Fp) returns (lower: Fp, upper: Fp)
    requires 0 < fp.frac < 2 * HIDDENBIT
    ensures var s := Doublings(fp.frac) + 10;
            && upper == Fp((2 * fp.frac + 1) * Pow(2, s), fp.exp - 1 - s) && W64 / 2 <= upper.frac < W64
            && lower.exp == upper.exp && 0 < lower.frac < upper.frac
            && lower.frac == if fp.frac == HIDDENBIT then (4 * fp.frac - 1) * Pow(2, s - 1)
               else (2 * fp.frac - 1) * Pow(2, s)
  {
    hide Pow;
    var f := fp.frac;
    var ufrac: U64, n := NormalizeMidpoint(f);
    var uexp := fp.exp - 1 - n;
    TwoTo52();
    PowAdd(2, n, 10);
    Assoc(2 * f + 1, Pow(2, n), 1024);
    ufrac, uexp := ufrac * 1024, uexp - 10;
    upper := Fp(ufrac, uexp);

    var shift := if f == HIDDENBIT then 2 else 1;
    var lfrac: U64, lexp := f * (if shift == 2 then 4 else 2) - 1, fp.exp - shift;
    LowerFits(f, n, shift);
    lfrac := lfrac * Pow(2, lexp - uexp);
    lower := Fp(lfrac, uexp);
  }

  lemma LowerFits(f: nat, n: nat, shift: nat)
    requires f > 0 && (shift == 1 || shift == 2)
    ensures var up := (2 * f + 1) * Pow(2, n + 10);
            var lo := (f * (if shift == 2 then 4 else 2) - 1) * Pow(2, n + 11 - shift);
            0 < lo < up
  {
    var p := Pow(2, n + 9);
    assert Pow(2, n + 10) == 2 * p;
    if shift == 1 {
      assert (2 * f - 1) * (2 * p) < (2 * f + 1) * (2 * p);
      MulMono(1, 2 * f - 1, 1, 2 * p);
    } else {
      assert (2 * f + 1) * (2 * p) == (4 * f - 1) * p + 3 * p;
      MulMono(1, 4 * f - 1, 1, p);
    }
  }

  /// Choosing the cached power

  const EXPMAX: int := -32
  const EXPMIN: int := -60

  /** The exponents that normalised upper boundaries can have. */
  predicate InExpRange(exp: int) {
    -1137 <= exp <= 960
  }

  /** C truncates towards zero. */
  function Trunc(x: real): int {
    if x >= 0.0 then x.Floor else -(-x).Floor
  }

  /** The first guess at the table index, from the logarithm of two. */
  function FirstGuess(exp: int): int {
    var approx := Trunc(-((exp + NPOWERS) as real) * 0.30102999566398114);
    (approx - FIRSTPOWER) / STEPPOWERS
  }

  lemma FirstGuessInTable(exp: int)
    requires InExpRange(exp)
    ensures 0 <= FirstGuess(exp) < NPOWERS
  {
    var x := -((exp + NPOWERS) as real) * 0.30102999566398114;
    assert -316.0 <= x <= 317.0;
    assert -316 <= Trunc(x) <= 317;
  }

  lemma TableEnds()
    ensures CachedPower(0).exp == -1220 && CachedPower(NPOWERS - 1).exp == 1066
  {
  }

  /** The window is wider than a step of the table, so the search never turns around. */
  ghost function Distance(exp: int, idx: nat): nat
    requires idx < NPOWERS
  {
    var current := exp + CachedPower(idx).exp + 64;
    if current < EXPMIN then NPOWERS - idx else if current > EXPMAX then idx + 1 else 0
  }

  lemma SearchStep(exp: int, idx: nat)
    requires InExpRange(exp) && idx < NPOWERS
    ensures var current := exp + CachedPower(idx).exp + 64;
            && (current < EXPMIN ==> idx + 1 < NPOWERS && Distance(exp, idx + 1) < Distance(exp, idx))
            && (current > EXPMAX ==> idx > 0 && Distance(exp, idx - 1) < Distance(exp, idx))
  {
    hide CachedPower;
    TableEnds();
    if idx + 1 < NPOWERS { Gaps(idx); }
    if idx > 0 { Gaps(idx - 1); }
  }

  /** The index at which the search from `idx` on ends. */
  ghost function Search(exp: int, idx: nat): nat
    requires InExpRange(exp) && idx < NPOWERS
    decreases Distance(exp, idx)
  {
    SearchStep(exp, idx);
    var current := exp + CachedPower(idx).exp + 64;
    if current < EXPMIN then Search(exp, idx + 1) else if current > EXPMAX then Search(exp, idx - 1) else idx
  }

  /** From any index of the table the search ends at a power that scales into the window. */
  method FindCachedPower(exp: int, start: nat) returns (c: Fp, k: int, idx: nat)
    requires InExpRange(exp) && start < NPOWERS
    ensures idx == Search(exp, start) < NPOWERS && c == CachedPower(idx) && k == TenExp(idx)
    ensures EXPMIN <= exp + c.exp + 64 <= EXPMAX
  {
    hide CachedPower, Distance;
    idx := start;
    while true
      invariant idx < NPOWERS && Search(exp, idx) == Search(exp, start)
      decreases Distance(exp, idx)
    {
      SearchStep(exp, idx);
      var current := exp + CachedPower(idx).exp + 64;
      if current < EXPMIN {
        idx := idx + 1;
        continue;
      }
      if current > EXPMAX {
        idx := idx - 1;
        continue;
      }
      k := FIRSTPOWER + idx * STEPPOWERS;
      c := CachedPower(idx);
      return;
    }
  }
}
