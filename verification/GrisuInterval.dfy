/** The digits of a double denote a decimal strictly inside its rounding interval. */
module GrisuInterval {
  import opened Powers
  import opened PowersTen
  import opened Grisu
  import opened GrisuDigits
  import opened Words

  /// Midpoints

  /** The midpoint to the next larger double. */
  ghost function UpperMid(fp: Fp): real {
    Value(Fp(2 * fp.frac + 1, fp.exp - 1))
  }

  /** The lower bound that is used: the midpoint to the next smaller double, or for a power of two the
      quarter point, where the smaller doubles lie twice as dense. */
  ghost function LowerMid(fp: Fp): real
    requires fp.frac > 0
  {
    if fp.frac == HIDDENBIT then Value(Fp(4 * fp.frac - 1, fp.exp - 2)) else Value(Fp(2 * fp.frac - 1, fp.exp - 1))
  }

  /** `n * 10^k`. */
  ghost function Decimal(n: nat, k: int): real {
    n as real * RPow(10.0, k)
  }

  /// The scaled interval

  function RoundedProduct(a: nat, c: nat): nat {
    (a * c + W64 / 2) / W64
  }

  lemma ProductBounds(a: nat, c: nat)
    ensures RoundedProduct(a, c) * W64 <= a * c + W64 / 2 < RoundedProduct(a, c) * W64 + W64
  {
  }

  /** Scaling the boundaries keeps the interval wide against the value. */
  lemma ScaledIsWide(un: nat, wn: nat, ln: nat, c: nat, e: nat)
    requires 32 <= e <= 60 && ln < wn < un < W64 && W64 / 2 <= c < W64
    requires un - wn >= 1024 && wn - ln >= 512 && un <= 0x20_0000_0000_0000 * (un - ln)
    ensures RoundedProduct(un, c) > 0
    ensures Scaled(RoundedProduct(wn, c), RoundedProduct(un, c) - 1, RoundedProduct(ln, c) + 1, e)
  {
    hide RoundedProduct;
    ProductFits(un, c);
    SpreadProducts(un, wn, ln, c);
    var a, b, d := un * c, wn * c, ln * c;
    ProductBounds(un, c);
    ProductBounds(wn, c);
    ProductBounds(ln, c);
    WideNumbers(a, b, d, RoundedProduct(un, c), RoundedProduct(wn, c), RoundedProduct(ln, c));
  }

  lemma SpreadProducts(un: nat, wn: nat, ln: nat, c: nat)
    requires ln < wn < un && W64 / 2 <= c
    requires un - wn >= 1024 && wn - ln >= 512 && un <= 0x20_0000_0000_0000 * (un - ln)
    ensures un * c - wn * c >= 1024 * (W64 / 2) && wn * c - ln * c >= 512 * (W64 / 2)
    ensures un * c <= 0x20_0000_0000_0000 * (un * c - ln * c)
  {
    Spread(un, wn, c);
    Spread(wn, ln, c);
    Spread(un, ln, c);
    MulMono(1024, un - wn, W64 / 2, c);
    MulMono(512, wn - ln, W64 / 2, c);
    MulMono(un, 0x20_0000_0000_0000 * (un - ln), c, c);
    Assoc(0x20_0000_0000_0000, un - ln, c);
  }

  lemma Spread(a: nat, b: nat, c: nat)
    requires b <= a
    ensures a * c == b * c + (a - b) * c
  {
  }

  lemma WideNumbers(a: nat, b: nat, d: nat, u: nat, w: nat, l: nat)
    requires a - b >= 1024 * (W64 / 2) && b - d >= 512 * (W64 / 2) && a <= 0x20_0000_0000_0000 * (a - d)
    requires u * W64 <= a + W64 / 2 < u * W64 + W64
    requires w * W64 <= b + W64 / 2 < w * W64 + W64
    requires l * W64 <= d + W64 / 2 < l * W64 + W64
    ensures l + 1 <= w <= u - 1 && l + 1 < u - 1
    ensures u - 1 < 1_0000_0000_0000_0000 * (u - 1 - (l + 1))
  {
    var x := u - l - 2;
    assert x * W64 > a - d - 3 * W64;
    assert (u - 1) * W64 < a;
    assert 1_0000_0000_0000_0000 * (a - d - 3 * W64) >= 0x20_0000_0000_0000 * (a - d);
  }

  /** Half a unit of error in the power and half a unit in each product stay inside the margin of one unit. */
  lemma MarginHolds(un: nat, ln: nat, c: nat)
    requires un < W64 && ln < W64 && c > 0
    ensures (RoundedProduct(un, c) - 1) * (2 * W64) < un * (2 * c - 1)
    ensures (RoundedProduct(ln, c) + 1) * (2 * W64) > ln * (2 * c + 1)
  {
    ProductBounds(un, c);
    ProductBounds(ln, c);
    assert un * (2 * c - 1) == 2 * (un * c) - un;
    assert ln * (2 * c + 1) == 2 * (ln * c) + ln;
  }

  /// From scaled integers to real values

  /** The integer statement of `InInterval`, as a statement about reals. */
  lemma IntervalReal(n: nat, kappa: int, e: nat, u: nat, l: nat)
    requires InInterval(n, kappa, e, u, l)
    ensures var v := n as real * RPow(10.0, kappa) * RPow(2.0, e);
            l as real <= v <= u as real
  {
    hide RPow, Pow, Shl;
    if kappa >= 0 {
      IntervalRealUp(n, kappa, e);
    } else {
      IntervalRealDown(n, kappa, e, u, l);
    }
  }

  lemma IntervalRealUp(n: nat, kappa: nat, e: nat)
    ensures (n * Shl(Pow(10, kappa), e)) as real == n as real * RPow(10.0, kappa) * RPow(2.0, e)
  {
    hide RPow, Pow;
    RPowNat(2, e);
    RPowNat(10, kappa);
    CastMul(Pow(10, kappa), Pow(2, e));
    CastMul(n, Pow(10, kappa) * Pow(2, e));
    RAssoc(n as real, RPow(10.0, kappa), RPow(2.0, e));
  }

  lemma IntervalRealDown(n: nat, kappa: int, e: nat, u: nat, l: nat)
    requires kappa < 0 && l * Pow(10, -kappa) <= n * Pow(2, e) <= u * Pow(10, -kappa)
    ensures l as real <= n as real * RPow(10.0, kappa) * RPow(2.0, e) <= u as real
  {
    hide RPow, Pow;
    RPowNat(2, e);
    RPowNat(10, -kappa);
    RPowInverse(10.0, kappa);
    CastMul(n, Pow(2, e));
    CastMul(l, Pow(10, -kappa));
    CastMul(u, Pow(10, -kappa));
    Unscale(n as real, RPow(10.0, kappa), RPow(10.0, -kappa), RPow(2.0, e), l as real, u as real);
  }

  lemma Unscale(n: real, t: real, t': real, two: real, l: real, u: real)
    requires t > 0.0 && t' > 0.0 && t * t' == 1.0 && l * t' <= n * two <= u * t'
    ensures l <= n * t * two <= u
  {
    assert t' * (n * t * two) == n * two * (t * t');
    ROrder(t', l, n * t * two);
    ROrder(t', n * t * two, u);
  }

  /** Below the scaled upper bound means below the upper midpoint. */
  lemma BelowUpper(d: real, ten: real, two: real, u: real, un: real, unexp: real, unit: real)
    requires ten > 0.0 && two > 0.0 && unexp > 0.0 && unit > 0.0 && two * unexp * unit == 1.0
    requires d * ten * two <= u && u * unit < un * ten
    ensures d < un * unexp
  {
    var s := ten * two;
    assert s > 0.0;
    assert s * d == d * ten * two;
    assert s * (un * unexp) == un * ten * (two * unexp);
    assert un * ten * (two * unexp) > u by {
      var g := two * unexp;
      assert g > 0.0;
      ROrder(g, u * unit, un * ten);
      assert g * (u * unit) == u * (g * unit);
    }
    ROrder(s, d, un * unexp);
  }

  lemma AboveLower(d: real, ten: real, two: real, l: real, ln: real, unexp: real, unit: real)
    requires ten > 0.0 && two > 0.0 && unexp > 0.0 && unit > 0.0 && two * unexp * unit == 1.0
    requires d * ten * two >= l && l * unit > ln * ten
    ensures d > ln * unexp
  {
    var s := ten * two;
    assert s > 0.0;
    assert s * d == d * ten * two;
    assert s * (ln * unexp) == ln * ten * (two * unexp);
    assert ln * ten * (two * unexp) < l by {
      var g := two * unexp;
      assert g > 0.0;
      ROrder(g, ln * ten, l * unit);
      assert g * (l * unit) == l * (g * unit);
    }
    ROrder(s, ln * unexp, d);
  }

  /** With an accurate power, the scaled integer bounds lie inside the exactly scaled midpoints. */
  lemma BoundsInside(un: nat, ln: nat, c: Fp, k: int)
    requires un < W64 && ln < W64 && c.frac > 0 && Accurate(c, k)
    ensures var unit := RPow(2.0, c.exp + 64);
            && (RoundedProduct(un, c.frac) - 1) as real * unit < un as real * RPow(10.0, k)
            && (RoundedProduct(ln, c.frac) + 1) as real * unit > ln as real * RPow(10.0, k)
  {
    hide RPow, RoundedProduct;
    var u, l, f := RoundedProduct(un, c.frac) - 1, RoundedProduct(ln, c.frac) + 1, c.frac;
    MarginHolds(un, ln, f);
    TwoTo64(c.exp);
    Inside(u as real, l as real, un as real, ln as real, f as real, RPow(2.0, c.exp), RPow(10.0, k), W64 as real);
  }

  lemma TwoTo64(e: int)
    ensures RPow(2.0, e + 64) == RPow(2.0, e) * W64 as real
  {
    hide RPow, Pow;
    RPowAdd(2.0, e, 64);
    RPowNat(2, 64);
    TwoTo32();
    PowAdd(2, 32, 32);
  }

  lemma Inside(u: real, l: real, un: real, ln: real, f: real, unit: real, ten: real, w: real)
    requires unit > 0.0 && ten > 0.0 && w > 0.0 && un >= 0.0 && ln >= 0.0
    requires u * (2.0 * w) < un * (2.0 * f - 1.0) && l * (2.0 * w) > ln * (2.0 * f + 1.0)
    requires -unit <= 2.0 * (f * unit - ten) <= unit
    ensures u * (unit * w) < un * ten && l * (unit * w) > ln * ten
  {
    assert unit * (2.0 * f - 1.0) <= 2.0 * ten <= unit * (2.0 * f + 1.0);
    ROrder(unit, u * (2.0 * w), un * (2.0 * f - 1.0));
    assert unit * (un * (2.0 * f - 1.0)) == un * (unit * (2.0 * f - 1.0));
    RMulLe(un, unit * (2.0 * f - 1.0), 2.0 * ten);
    assert unit * (u * (2.0 * w)) == 2.0 * (u * (unit * w));
    ROrder(unit, ln * (2.0 * f + 1.0), l * (2.0 * w));
    assert unit * (ln * (2.0 * f + 1.0)) == ln * (unit * (2.0 * f + 1.0));
    RMulLe(ln, 2.0 * ten, unit * (2.0 * f + 1.0));
    assert unit * (l * (2.0 * w)) == 2.0 * (l * (unit * w));
  }

  lemma RMulLe(x: real, a: real, b: real)
    requires x >= 0.0 && a <= b
    ensures x * a <= x * b
  {
  }

  /// The whole conversion

  /** The digits `ds` with exponent `k` denote a decimal strictly between the midpoints. */
  ghost predicate Prints(bits: nat, ds: seq<char>, k: int)
    requires IsFinite(bits)
  {
    && 1 <= |ds| <= 17 && AllDigits(ds) && ds[0] != '0' && -400 <= k <= 400
    && (BuildFpRange(bits); LowerMid(BuildFp(bits)) < Decimal(DecValue(ds), k) < UpperMid(BuildFp(bits)))
  }

  /** The widths of the unscaled interval. */
  lemma Widths(f: nat, s: nat)
    requires 0 < f < 2 * HIDDENBIT && s == Doublings(f)
    ensures var wn, un := f * Pow(2, s + 11), (2 * f + 1) * Pow(2, s + 10);
            var ln := if f == HIDDENBIT then (4 * f - 1) * Pow(2, s + 9) else (2 * f - 1) * Pow(2, s + 10);
            && 0 <= ln <= wn <= un && un - wn >= 1024 && wn - ln >= 512 && un <= 0x20_0000_0000_0000 * (un - ln)
  {
    hide Doublings;
    var p := Pow(2, s + 9);
    assert Pow(2, s + 10) == 2 * p && Pow(2, s + 11) == 4 * p;
    PowMonotone(2, 9, s + 9);
    assert Pow(2, 9) == 512;
    hide Pow;
    WidthNumbers(f, p);
  }

  lemma WidthNumbers(f: nat, p: nat)
    requires 0 < f < 2 * HIDDENBIT && p >= 512
    ensures var wn, un, ln := f * (4 * p), (2 * f + 1) * (2 * p), if f == HIDDENBIT then (4 * f - 1) * p
            else (2 * f - 1) * (2 * p);
            0 <= ln <= wn <= un && un - wn >= 1024 && wn - ln >= 512 && un <= 0x20_0000_0000_0000 * (un - ln)
  {
    var fp := f * p;
    assert f * (4 * p) == 4 * fp && (2 * f + 1) * (2 * p) == 4 * fp + 2 * p;
    assert (4 * f - 1) * p == 4 * fp - p && (2 * f - 1) * (2 * p) == 4 * fp - 2 * p;
    assert p <= fp <= (2 * HIDDENBIT - 1) * p by {
      MulMono(1, f, p, p);
      MulMono(f, 2 * HIDDENBIT - 1, p, p);
    }
    if f == HIDDENBIT { assert fp == HIDDENBIT * p; }
  }

  /** The normalised boundaries are the midpoints. */
  lemma BoundariesAreMidpoints(fp: Fp, s: nat)
    requires fp.frac > 0 && s >= 1
    ensures var ue := fp.exp - 1 - s;
            && Value(Fp((2 * fp.frac + 1) * Pow(2, s), ue)) == UpperMid(fp)
            && Value(Fp(if fp.frac == HIDDENBIT then (4 * fp.frac - 1) * Pow(2, s - 1)
                        else (2 * fp.frac - 1) * Pow(2, s), ue)) == LowerMid(fp)
  {
    var ue := fp.exp - 1 - s;
    ShiftValue(2 * fp.frac + 1, s, ue);
    ShiftValue(2 * fp.frac - 1, s, ue);
    ShiftValue(4 * fp.frac - 1, s - 1, ue);
    hide Value, Pow;
  }

  lemma ShiftValue(f: nat, s: nat, e: int)
    ensures Value(Fp(f * Pow(2, s), e)) == Value(Fp(f, e + s))
  {
    hide RPow, Pow;
    RPowNat(2, s);
    RPowAdd(2.0, s, e);
    CastMul(f, Pow(2, s));
    RAssoc(f as real, RPow(2.0, s), RPow(2.0, e));
  }

  /** The decimal of the generated digits lies between the exactly scaled boundaries. */
  lemma GeneratedInside(un: nat, ln: nat, ue: int, c: Fp, k: int, e: nat, n: nat, kappa: int, u: nat, l: nat)
    requires un < W64 && ln < W64 && c.frac > 0 && Accurate(c, k) && e == -(ue + c.exp + 64)
    requires u == RoundedProduct(un, c.frac) - 1 && l == RoundedProduct(ln, c.frac) + 1 && InInterval(n, kappa, e, u, l)
    ensures Value(Fp(ln, ue)) < Decimal(n, kappa - k) < Value(Fp(un, ue))
  {
    hide RPow, RoundedProduct, InInterval, Accurate, Decimal;
    var ten, two, unexp, unit := RPow(10.0, k), RPow(2.0, e), RPow(2.0, ue), RPow(2.0, c.exp + 64);
    IntervalReal(n, kappa, e, u, l);
    BoundsInside(un, ln, c, k);
    Cancels(e, ue, c.exp + 64);
    var d := Decimal(n, kappa - k);
    DecimalScaled(n, kappa, k);
    InsideBoth(d, n as real * RPow(10.0, kappa), ten, two, u as real, l as real, un as real, ln as real, unexp, unit);
  }

  lemma InsideBoth(d: real, nk: real, ten: real, two: real, u: real, l: real, un: real, ln: real, unexp: real,
                   unit: real)
    requires ten > 0.0 && two > 0.0 && unexp > 0.0 && unit > 0.0 && two * unexp * unit == 1.0
    requires d * ten == nk && l <= nk * two <= u && u * unit < un * ten && l * unit > ln * ten
    ensures ln * unexp < d < un * unexp
  {
    BelowUpper(d, ten, two, u, un, unexp, unit);
    AboveLower(d, ten, two, l, ln, unexp, unit);
  }

  lemma DecimalScaled(n: nat, kappa: int, k: int)
    ensures Decimal(n, kappa - k) * RPow(10.0, k) == n as real * RPow(10.0, kappa)
  {
    hide RPow;
    RPowAdd(10.0, kappa - k, k);
    RAssoc(n as real, RPow(10.0, kappa - k), RPow(10.0, k));
  }

  lemma Cancels(a: int, b: int, c: int)
    requires a + b + c == 0
    ensures RPow(2.0, a) * RPow(2.0, b) * RPow(2.0, c) == 1.0
  {
    hide RPow;
    RPowAdd(2.0, a, b);
    RPowAdd(2.0, a + b, c);
    RPowZero(2.0);
  }

  /// Scaling as a function of the bits

  /** The value and its interval in fixed point, with `e` fraction bits. */
  datatype Scaling = Scaling(w: int, u: int, l: int, e: int)

  lemma UpperExp(bits: nat)
    requires IsFinite(bits)
    ensures (BuildFpRange(bits); InExpRange(BuildFp(bits).exp - 11 - Doublings(BuildFp(bits).frac)))
  {
    hide Doublings;
    BuildFpRange(bits);
    DoublingsScale(BuildFp(bits).frac);
  }

  /** The index of the power that the search ends at. */
  ghost function PowerIndex(bits: nat): nat
    requires IsFinite(bits)
  {
    BuildFpRange(bits);
    UpperExp(bits);
    var exp := BuildFp(bits).exp - 11 - Doublings(BuildFp(bits).frac);
    FirstGuessInTable(exp);
    Search(exp, FirstGuess(exp))
  }

  /** Value and midpoints times the cached power; the interval is narrowed by a unit on both sides. */
  ghost function ScaledBy(fp: Fp, s: nat, c: Fp): Scaling
    requires fp.frac > 0 && c.frac > 0
  {
    var ln := if fp.frac == HIDDENBIT then (4 * fp.frac - 1) * Pow(2, s + 9) else (2 * fp.frac - 1) * Pow(2, s + 10);
    Scaling(
      RoundedProduct(fp.frac * Pow(2, s + 11), c.frac),
      RoundedProduct((2 * fp.frac + 1) * Pow(2, s + 10), c.frac) - 1,
      RoundedProduct(ln, c.frac) + 1,
      -(fp.exp - 11 - s + c.exp + 64))
  }

  /** The last digit of this double is rounded down to zero. */
  ghost predicate RoundsToZero(bits: nat)
    requires IsFinite(bits)
  {
    BuildFpRange(bits);
    var fp, idx := BuildFp(bits), PowerIndex(bits);
    && idx < NPOWERS && CachedPower(idx).frac > 0
    && var r := ScaledBy(fp, Doublings(fp.frac), CachedPower(idx));
       0 <= r.l <= r.w <= r.u && 0 <= r.e && Tie(r.w, r.u, r.l, r.e)
  }

  /** Boundaries and value, scaled by a cached power so that the upper bound has `e` fraction bits. */
  method ScaleByPower(fp: Fp, ghost bits: nat)
    returns (wfrac: U64, ufrac: U64, lfrac: U64, e: nat, k: int, ghost un: nat, ghost ln: nat, ghost ue: int,
             ghost cp: Fp)
    requires IsFinite(bits) && fp == BuildFp(bits)
    ensures Scaled(wfrac, ufrac, lfrac, e) && -348 <= k <= 340
    ensures un < W64 && ln < W64 && cp.frac > 0 && Accurate(cp, k) && e == -(ue + cp.exp + 64)
    ensures ufrac == RoundedProduct(un, cp.frac) - 1 && lfrac == RoundedProduct(ln, cp.frac) + 1
    ensures 0 < fp.frac < 2 * HIDDENBIT && Value(Fp(un, ue)) == UpperMid(fp) && Value(Fp(ln, ue)) == LowerMid(fp)
    ensures PowerIndex(bits) < NPOWERS && cp == CachedPower(PowerIndex(bits))
    ensures ScaledBy(fp, Doublings(fp.frac), cp) == Scaling(wfrac, ufrac, lfrac, e)
  {
    hide Pow, Doublings, CachedPower, Accurate, Scaled, UpperMid, LowerMid, Value, Search;
    BuildFpRange(bits);
    var lower, upper := NormalizedBoundaries(fp);
    var w := Normalize(fp);
    ghost var s := Doublings(fp.frac);
    DoublingsScale(fp.frac);
    assert w.exp == upper.exp;
    FirstGuessInTable(upper.exp);
    var c, idx;
    c, k, idx := FindCachedPower(upper.exp, FirstGuess(upper.exp));
    assert idx == PowerIndex(bits);
    TableShape(idx);
    TableIsAccurate(idx);
    Widths(fp.frac, s);
    BoundariesAreMidpoints(fp, s + 10);
    un, ln, ue, cp := upper.frac, lower.frac, upper.exp, c;
    e := -(upper.exp + c.exp + 64);
    wfrac, ufrac, lfrac := MultiplyAll(w, upper, lower, c, e);
  }

  method MultiplyAll(w: Fp, upper: Fp, lower: Fp, c: Fp, ghost e: nat) returns (wfrac: U64, ufrac: U64, lfrac: U64)
    requires 32 <= e <= 60 && lower.frac < w.frac < upper.frac < W64 && W64 / 2 <= c.frac < W64
    requires upper.frac - w.frac >= 1024 && w.frac - lower.frac >= 512
    requires upper.frac <= 0x20_0000_0000_0000 * (upper.frac - lower.frac)
    ensures Scaled(wfrac, ufrac, lfrac, e) && wfrac == RoundedProduct(w.frac, c.frac)
    ensures ufrac == RoundedProduct(upper.frac, c.frac) - 1 && lfrac == RoundedProduct(lower.frac, c.frac) + 1
  {
    ScaledIsWide(upper.frac, w.frac, lower.frac, c.frac, e);
    var w' := Multiply(w, c);
    var upper' := Multiply(upper, c);
    var lower' := Multiply(lower, c);
    wfrac, ufrac, lfrac := w'.frac, upper'.frac - 1, lower'.frac + 1;
  }

  /** Converts a finite non-zero double into digits and a decimal exponent. */
  method Grisu2(bits: U64, digits: array<char>) returns (n: nat, K: int)
    requires IsFinite(bits) && digits.Length >= 18
    modifies digits
    ensures 1 <= n <= 17 && Prints(bits, digits[..n], K)
    ensures digits[n - 1] == '0' <==> RoundsToZero(bits)
  {
    hide Accurate, InInterval, Tie, Scaled, Decimal, UpperMid, LowerMid, Value, RoundedProduct, ScaledBy, PowerIndex,
    Pow,
         CachedPower, Doublings, BuildFp;
    var w, u, l, e, k, un, ln, ue, cp := ScaleByPower(BuildFp(bits), bits);
    assert l <= w <= u by { ScaledOrder(w, u, l, e); }
    n, K := GenerateDigits(w, u, l, e, digits, -k);
    GeneratedInside(un, ln, ue, cp, k, e, DecValue(digits[..n]), K + k, u, l);
  }

  lemma ScaledOrder(w: nat, u: nat, l: nat, e: nat)
    requires Scaled(w, u, l, e)
    ensures l <= w <= u
  {
  }

  /// A number whose last digit is zero

  /** The double 5.78735773515625e-277. */
  const ZEROTAIL: nat := 0x0694_849F_B04D_B0F3

  lemma ZeroTailFp()
    ensures IsFinite(ZEROTAIL) && BuildFp(ZEROTAIL) == Fp(5775320926761203, -970) && Doublings(5775320926761203) == 0
  {
  }

  /** The first guess is two entries off; the search ends at 10^284. */
  lemma ZeroTailPower()
    ensures PowerIndex(ZEROTAIL) == 79 && CachedPower(79) == Fp(12405201291620119593, 880)
  {
    ZeroTailFp();
    ZeroTailGuess();
    ZeroTailSearch();
    hide BuildFp, Search, Doublings, FirstGuess;
  }

  lemma ZeroTailGuess()
    ensures FirstGuess(-981) == 77
  {
  }

  lemma ZeroTailSearch()
    ensures Search(-981, 77) == 79
  {
    assert CachedPower(77).exp == 827 && CachedPower(78).exp == 853 && CachedPower(79).exp == 880;
    hide CachedPower;
    assert Search(-981, 79) == 79;
    assert Search(-981, 78) == 79;
  }

  lemma ZeroTailScaled()
    ensures ScaledBy(Fp(5775320926761203, -970), 0, Fp(12405201291620119593, 880)) ==
            Scaling(7954083904879592111, 7954083904879592799, 7954083904879591424, 37)
  {
    assert Pow(2, 10) == 1024 && Pow(2, 11) == 2048;
    hide Pow;
  }

  /** For this double the last digit is rounded down to zero. */
  lemma TrailingZero()
    ensures IsFinite(ZEROTAIL) && RoundsToZero(ZEROTAIL)
  {
    ZeroTailFp();
    ZeroTailPower();
    ZeroTailScaled();
    ZeroTailTie();
    hide TieAt, BuildFp, PowerIndex, CachedPower, ScaledBy, Pow, Doublings;
    assert TieAt(7954083904879592111, 7954083904879592799, 7954083904879591424, 37, 8);
  }

  lemma ZeroTailTie()
    ensures TieAt(7954083904879592111, 7954083904879592799, 7954083904879591424, 37, 8)
    ensures 7954083904879592799 - 7954083904879591424 < 7954083904879592799 % Pow(2, 37)
  {
    assert Pow(2, 37) == 137438953472 by {
      PowAdd(2, 12, 25);
      PowAdd(2, 12, 13);
      assert Pow(2, 12) == 4096 && Pow(2, 13) == 8192;
      hide Pow;
    }
    assert Pow(10, 7) == 10000000 && Pow(10, 8) == 100000000;
    PowAdd(10, 8, 8);
    hide Pow;
  }
}
