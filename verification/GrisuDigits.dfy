/** Digit generation: the digits of the upper bound, cut off as soon as the rest is inside the interval,
    and moved towards the value in the last digit. */
module GrisuDigits {
  import opened Powers
  import opened PowersTen
  import opened Grisu
  import opened Words

  /// Decimal text

  predicate IsDigit(c: char) {
    '0' <= c <= '9'
  }

  function DigitOf(c: char): nat
    requires IsDigit(c)
  {
    c as int - '0' as int
  }

  function Digit(d: nat): (c: char)
    requires d < 10
    ensures IsDigit(c) && DigitOf(c) == d
  {
    ('0' as int + d) as char
  }

  predicate AllDigits(s: seq<char>) {
    forall i :: 0 <= i < |s| ==> IsDigit(s[i])
  }

  function DecValue(s: seq<char>): nat
    requires AllDigits(s)
  {
    if s == [] then 0 else DecValue(s[..|s| - 1]) * 10 + DigitOf(s[|s| - 1])
  }

  lemma DecValueAppend(s: seq<char>, c: char)
    requires AllDigits(s) && IsDigit(c)
    ensures AllDigits(s + [c]) && DecValue(s + [c]) == DecValue(s) * 10 + DigitOf(c)
  {
    assert (s + [c])[..|s|] == s;
  }

  lemma DecValueLast(s: seq<char>, d: nat)
    requires s != [] && AllDigits(s) && d < 10
    ensures AllDigits(s[|s| - 1 := Digit(d)])
    ensures DecValue(s[|s| - 1 := Digit(d)]) == DecValue(s) - DigitOf(s[|s| - 1]) + d
  {
    var t := s[|s| - 1 := Digit(d)];
    assert t[..|s| - 1] == s[..|s| - 1];
  }

  /** A digit string without a leading zero has the size that its length says. */
  lemma {:induction false} DecValueSize(s: seq<char>)
    requires AllDigits(s)
    ensures DecValue(s) < Pow(10, |s|)
    ensures s != [] && s[0] != '0' ==> Pow(10, |s| - 1) <= DecValue(s)
  {
    if s != [] {
      var t := s[..|s| - 1];
      DecValueSize(t);
      if t != [] { assert t[0] == s[0]; }
    }
  }

  /// The interval

  const TEN16: nat := 1_0000_0000_0000_0000

  /** The scaled value `w` in its interval: the upper bound has 64 bits, of which `e` are fraction bits. */
  ghost predicate Scaled(w: nat, u: nat, l: nat, e: nat) {
    32 <= e <= 60 && 0 < l <= w <= u < W64 && l < u && u < TEN16 * (u - l)
  }

  /** `n * 10^kappa` lies in the interval. */
  ghost predicate InInterval(n: nat, kappa: int, e: nat, u: nat, l: nat) {
    if kappa >= 0 then l <= n * Shl(Pow(10, kappa), e) <= u
    else l * Pow(10, -kappa) <= n * Pow(2, e) <= u * Pow(10, -kappa)
  }

  /** The lower bound is a decimal of `j - 1` places and nearer to the value than half a unit of the next place. */
  ghost predicate TieAt(w: nat, u: nat, l: nat, e: nat, j: nat) {
    && j >= 2
    && u % Pow(2, e) * Pow(10, j - 1) % Pow(2, e) == (u - l) * Pow(10, j - 1)
    && (u - l) * Pow(10, j) >= Pow(2, e)
    && 2 * ((w - l) * Pow(10, j)) < Pow(2, e)
  }

  ghost predicate Tie(w: nat, u: nat, l: nat, e: nat)
    requires l <= w <= u
  {
    u - l < u % Pow(2, e) && exists j: nat :: TieAt(w, u, l, e, j)
  }

  ghost predicate Generated(w: nat, u: nat, l: nat, e: nat, ds: seq<char>, kappa: int)
    requires l <= w <= u
  {
    && 1 <= |ds| <= 17 && AllDigits(ds) && ds[0] != '0' && -19 <= kappa <= 9
    && InInterval(DecValue(ds), kappa, e, u, l)
    && (ds[|ds| - 1] == '0' <==> Tie(w, u, l, e))
  }

  /// Rounding the last digit

  /** One more unit keeps the rest inside the interval and brings it nearer to `frac`. */
  predicate Closer(rem: int, unit: int, delta: int, frac: int) {
    rem + unit <= delta && 2 * frac > 2 * rem + unit
  }

  /** `m` units were taken off a digit `d`: as many as bring the rest nearer to `frac` within the interval. */
  ghost predicate Rounded(rem: int, unit: int, delta: int, frac: int, d: int, m: int) {
    && 0 <= m <= d && rem + m * unit <= delta && !Closer(rem + m * unit, unit, delta, frac)
    && (m > 0 ==> Closer(rem + (m - 1) * unit, unit, delta, frac))
  }

  /** Takes the last digit down as long as that brings the decimal nearer to the value. */
  method RoundDigit(digits: array<char>, n: nat, delta: U64, rem0: U64, unit: U64, frac: U64) returns (ghost m: nat)
    requires 0 < n <= digits.Length && IsDigit(digits[n - 1]) && unit > 0
    requires rem0 <= delta <= rem0 + DigitOf(digits[n - 1]) * unit
    modifies digits
    ensures Rounded(rem0, unit, delta, frac, old(DigitOf(digits[n - 1])), m)
    ensures digits[..] == old(digits[..])[n - 1 := Digit(old(DigitOf(digits[n - 1])) - m)]
  {
    var rem: U64 := rem0;
    m := 0;
    ghost var d := DigitOf(digits[n - 1]);
    while rem < frac && delta - rem >= unit && (rem + unit < frac || frac - rem > rem + unit - frac)
      invariant m <= d && rem == rem0 + m * unit <= delta
      invariant digits[..] == old(digits[..])[n - 1 := Digit(d - m)]
      invariant m > 0 ==> Closer(rem0 + (m - 1) * unit, unit, delta, frac)
      decreases delta - rem
    {
      Fewer(rem0, m, d, unit, delta);
      assert digits[n - 1] == Digit(d - m);
      assert rem0 + (m + 1) * unit == rem + unit;
      digits[n - 1] := digits[n - 1] - 1 as char;
      rem := rem + unit;
      m := m + 1;
    }
  }

  lemma Fewer(rem: nat, m: nat, d: nat, unit: nat, delta: nat)
    requires unit > 0 && rem + m * unit + unit <= delta <= rem + d * unit
    ensures m < d
  {
    if d <= m { MulMono(d, m, unit, unit); }
  }

  /** Every step before the last one was an improvement, too. */
  lemma CloserBefore(rem: int, k: nat, m: nat, unit: nat, delta: int, frac: int)
    requires k <= m && unit > 0 && Closer(rem + m * unit, unit, delta, frac)
    ensures Closer(rem + k * unit, unit, delta, frac)
  {
    MulMono(k, m, unit, unit);
  }

  /// The integer part

  const TENS: seq<nat> := [
    1_0000_0000_0000_0000_000, 1_0000_0000_0000_0000_00, 1_0000_0000_0000_0000_0,
    1_0000_0000_0000_0000, 1_0000_0000_0000_000, 1_0000_0000_0000_00,
    1_0000_0000_0000_0, 1_0000_0000_0000, 1_0000_0000_000,
    1_0000_0000_00, 1_0000_0000_0, 1_0000_0000,
    1_0000_000, 1_0000_00, 1_0000_0,
    1_0000, 1_000, 1_00,
    1_0, 1
  ]

  lemma {:induction false} TensArePowers(i: nat)
    requires i < 20
    ensures TENS[i] == Pow(10, 19 - i)
    decreases 20 - i
  {
    if i < 19 {
      TensArePowers(i + 1);
      assert TENS[i] == 10 * TENS[i + 1];
    }
  }

  lemma TenTimes(n: nat)
    requires 1 <= n <= 10
    ensures Pow(10, n) == 10 * Pow(10, n - 1) && 0 < Pow(10, n - 1) <= 10_0000_0000
  {
    hide Pow;
    TensArePowers(20 - n);
    TensArePowers(19 - n);
    TensArePowers(10);
  }

  function Shl(x: nat, e: nat): nat {
    x * Pow(2, e)
  }

  function Shr(x: nat, e: nat): nat {
    x / Pow(2, e)
  }

  /** The `e` low bits. */
  function Low(x: nat, e: nat): (r: nat)
    ensures r < Pow(2, e)
  {
    x % Pow(2, e)
  }

  lemma ShlLaws(x: nat, y: nat, e: nat)
    ensures Shl(x + y, e) == Shl(x, e) + Shl(y, e) && Shl(x * y, e) == x * Shl(y, e)
    ensures x < y ==> Shl(x, e) + Pow(2, e) <= Shl(y, e)
    ensures x > 0 ==> Shl(x, e) > 0
  {
    hide Pow;
    var p := Pow(2, e);
    assert (x + y) * p == x * p + y * p;
    Assoc(x, y, p);
    if x < y {
      MulMono(x + 1, y, p, p);
      assert (x + 1) * p == x * p + p;
    }
    if x > 0 { MulMono(1, x, p, p); }
  }

  /** As long as the rest exceeds the interval, the digits so far are few. */
  lemma CountBound(u: nat, delta: nat, n: nat, step: nat, count: nat)
    requires u < TEN16 * delta && n * step <= u && delta < step
    requires count > 0 && Pow(10, count - 1) <= n
    ensures count <= 16
  {
    hide Pow;
    if count > 16 {
      TensArePowers(3);
      PowMonotone(10, 16, count - 1);
      MulMono(TEN16, n, delta, step);
    }
  }

  /** Digits written so far: no leading zero, and not too many. */
  ghost predicate Prefix(ds: seq<char>) {
    AllDigits(ds) && |ds| <= 16 && (ds != [] ==> ds[0] != '0')
  }

  /** The state between two integer digits: the next digit has weight `p / 10`, and the rest
      of `part1` and the fraction `part2` still exceeds the interval. */
  ghost predicate IntegerState(u: nat, delta: nat, e: nat, ds: seq<char>, p: nat, part1: nat, part2: nat) {
    && Prefix(ds) && u == Shl(DecValue(ds) * p + part1, e) + part2
    && part1 < p && part2 < Pow(2, e) && Shl(part1, e) + part2 > delta
  }

  lemma IntegerStarts(w: nat, u: nat, l: nat, e: nat, delta: nat, one: nat, part1: nat, part2: nat)
    requires Scaled(w, u, l, e) && l + delta == u && one == Pow(2, e) && part1 == u / one && part2 == u % one
    ensures IntegerState(u, delta, e, [], Pow(10, 10), part1, part2)
  {
    hide Pow;
    assert u == part1 * one + part2;
    PowMonotone(2, 32, e);
    TwoTo32();
    if part1 >= Pow(10, 10) {
      MulMono(Pow(10, 10), part1, Pow(2, 32), one);
    }
  }

  lemma TwoTo32()
    ensures Pow(2, 32) == 0x1_0000_0000 && Pow(10, 10) == 100_0000_0000 && Pow(2, 60) == 0x1000_0000_0000_0000
    ensures Pow(10, 1) == 10 && Pow(10, 19) == 1_0000_0000_0000_0000_000 && Pow(10, 0) == 1
  {
    TensArePowers(0);
    TensArePowers(9);
    TensArePowers(18);
    TensArePowers(19);
    hide Pow;
    FirstPowers();
    SmallPowers();
    PowAdd(2, 11, 11);
    PowAdd(2, 2, 3);
    PowAdd(2, 5, 5);
    PowAdd(2, 22, 10);
    PowAdd(2, 50, 10);
  }

  /** Leading zeros are not written. */
  function Written(ds: seq<char>, d: nat): seq<char>
    requires d < 10
  {
    if d != 0 || ds != [] then ds + [Digit(d)] else ds
  }

  lemma WrittenValue(ds: seq<char>, d: nat)
    requires AllDigits(ds) && d < 10 && (ds != [] ==> ds[0] != '0')
    ensures AllDigits(Written(ds, d)) && DecValue(Written(ds, d)) == DecValue(ds) * 10 + d
    ensures Written(ds, d) != [] ==> Written(ds, d)[0] != '0'
    ensures Written(ds, d) == [] ==> DecValue(Written(ds, d)) == 0
  {
    if d != 0 || ds != [] { DecValueAppend(ds, Digit(d)); }
  }

  /** One integer step wrote the digit `d` of weight `div`; the rest either still exceeds the interval
      or ends the digits. */
  ghost predicate IntegerStepped(u: nat, delta: nat, e: nat, ds: seq<char>, div: nat, d: nat, r: nat, part2: nat)
    requires d < 10
  {
    var tmp := Shl(r, e) + part2;
    && AllDigits(ds) && |ds| <= 17 && u == DecValue(ds) * Shl(div, e) + tmp
    && delta < tmp + d * Shl(div, e)
    && if tmp > delta then IntegerState(u, delta, e, ds, div, r, part2)
       else ds != [] && ds[0] != '0' && ds[|ds| - 1] == Digit(d)
  }

  lemma DivStep(n: nat, div: nat, part1: nat, d: nat, r: nat)
    requires div > 0 && part1 < 10 * div && d == part1 / div && r == part1 % div
    ensures d < 10 && r < div && part1 == d * div + r
    ensures n * (10 * div) + part1 == (n * 10 + d) * div + r
  {
    assert part1 == d * div + r;
    if d >= 10 { MulMono(10, d, div, div); }
    Assoc(n, 10, div);
    assert (n * 10 + d) * div == n * 10 * div + d * div;
  }

  lemma ShlSum(k: nat, div: nat, r: nat, e: nat)
    ensures Shl(k * div + r, e) == k * Shl(div, e) + Shl(r, e)
  {
    hide Pow, Shl;
    ShlLaws(k * div, r, e);
    ShlLaws(k, div, e);
  }

  lemma IntegerNext(u: nat, delta: nat, e: nat, ds: seq<char>, div: nat, part1: nat, part2: nat, d: nat, r: nat)
    requires u < TEN16 * delta && delta < u && div > 0 && d == part1 / div && r == part1 % div
    requires IntegerState(u, delta, e, ds, 10 * div, part1, part2)
    ensures d < 10 && part1 - d * div == r && Shl(r, e) + part2 <= u
    ensures Shl(r, e) + part2 <= delta ==> 0 < Shl(div, e) <= u
    ensures IntegerStepped(u, delta, e, Written(ds, d), div, d, r, part2)
  {
    hide Pow, Shl;
    var n := DecValue(ds);
    DivStep(n, div, part1, d, r);
    ShlSum(n * 10 + d, div, r, e);
    ShlSum(d, div, r, e);
    ShlLaws(r, div, e);
    ShlLaws(div, 0, e);
    WrittenValue(ds, d);
    IntegerCount(u, delta, n * 10 + d, Shl(div, e), Shl(r, e) + part2, Written(ds, d));
    IntegerResult(u, delta, e, Written(ds, d), div, d, r, part2, n * 10 + d, Shl(div, e), Shl(r, e));
  }

  lemma IntegerResult(u: nat, delta: nat, e: nat, ds: seq<char>, div: nat, d: nat, r: nat, part2: nat, n: nat,
                      step: nat, sr: nat)
    requires d < 10 && AllDigits(ds) && n == DecValue(ds) && step == Shl(div, e) && sr == Shl(r, e)
    requires u == n * step + sr + part2 && delta < sr + part2 + d * step && r < div && part2 < Pow(2, e)
    requires |ds| <= 17 && (sr + part2 > delta ==> |ds| <= 16) && (ds != [] ==> ds[0] != '0')
    requires sr + part2 <= delta ==> ds != [] && ds[|ds| - 1] == Digit(d)
    ensures IntegerStepped(u, delta, e, ds, div, d, r, part2)
  {
    hide Pow, Shl, DecValue, AllDigits, Digit;
    ShlSum(n, div, r, e);
  }

  lemma IntegerCount(u: nat, delta: nat, n: nat, step: nat, tmp: nat, ds: seq<char>)
    requires u < TEN16 * delta && delta < u && u == n * step + tmp && tmp < step
    requires AllDigits(ds) && n == DecValue(ds) && (ds != [] ==> ds[0] != '0')
    ensures tmp > delta ==> |ds| <= 16
    ensures tmp <= u && (tmp <= delta ==> n > 0 && step <= u)
  {
    hide Pow;
    DecValueSize(ds);
    if tmp > delta && ds != [] {
      CountBound(u, delta, n, step, |ds|);
    }
    if n > 0 { MulMono(1, n, step, step); }
  }

  /** The interval is left in the integer part: the rounded digits are what is asked for. */
  lemma IntegerDone(w: nat, u: nat, l: nat, e: nat, ds: seq<char>, kappa: nat, unit: nat, tmp: nat, m: nat)
    requires l <= w <= u && AllDigits(ds) && 1 <= |ds| <= 17 && ds[0] != '0' && kappa <= 9
    requires unit == Shl(Pow(10, kappa), e) && u == DecValue(ds) * unit + tmp
    requires tmp + m * unit <= u - l < tmp + DigitOf(ds[|ds| - 1]) * unit
    requires u % Pow(2, e) <= tmp
    ensures m < DigitOf(ds[|ds| - 1])
    ensures Generated(w, u, l, e, ds[|ds| - 1 := Digit(DigitOf(ds[|ds| - 1]) - m)], kappa)
  {
    hide Pow, Shl, TieAt, InInterval, DecValue;
    var n, d := DecValue(ds), DigitOf(ds[|ds| - 1]);
    MovedDown(n, d, m, unit, tmp, u, u - l);
    DecValueLast(ds, d - m);
    InIntervalUnit(n - m, kappa, e, u, l, unit);
  }

  lemma InIntervalUnit(n: nat, kappa: nat, e: nat, u: nat, l: nat, unit: nat)
    requires unit == Shl(Pow(10, kappa), e) && l <= n * unit <= u
    ensures InInterval(n, kappa, e, u, l)
  {
    hide Pow, Shl;
  }

  /** Taking `m` units off the digits adds them to the rest. */
  lemma MovedDown(n: int, d: nat, m: nat, unit: nat, rem: nat, u: nat, delta: nat)
    requires u == n * unit + rem && rem + m * unit <= delta
    ensures (n - m) * unit == u - (rem + m * unit)
    ensures delta < rem + d * unit ==> m < d
  {
    assert (n - m) * unit == n * unit - m * unit;
    if m >= d { MulMono(d, m, unit, unit); }
  }

  method FinishInteger(w: U64, u: U64, l: U64, e: nat, digits: array<char>, idx: nat, kappa: nat, tmp: U64, unit: U64)
    requires l <= w <= u && 1 <= idx <= 17 <= digits.Length && AllDigits(digits[..idx]) && digits[0] != '0'
    requires kappa <= 9 && 0 < unit == Shl(Pow(10, kappa), e) && u == DecValue(digits[..idx]) * unit + tmp
    requires tmp <= u - l < tmp + DigitOf(digits[idx - 1]) * unit && u % Pow(2, e) <= tmp
    modifies digits
    ensures Generated(w, u, l, e, digits[..idx], kappa)
  {
    ghost var ds := digits[..idx];
    hide Pow, Shl, Generated, DecValue, Closer, Digit;
    ghost var m := RoundDigit(digits, idx, u - l, tmp, unit, u - w);
    IntegerDone(w, u, l, e, ds, kappa, unit, tmp, m);
    assert digits[..idx] == ds[idx - 1 := Digit(DigitOf(ds[idx - 1]) - m)];
  }

  /** The digits of the integer part, up to the first that reaches the interval. */
  method IntegerDigits(w: U64, u: U64, l: U64, e: nat, digits: array<char>) returns (done: bool, idx: nat, kappa: nat)
    requires Scaled(w, u, l, e) && digits.Length >= 18
    modifies digits
    ensures idx <= 17
    ensures done ==> Generated(w, u, l, e, digits[..idx], kappa)
    ensures !done ==> IntegerState(u, u - l, e, digits[..idx], 1, 0, u % Pow(2, e))
  {
    hide Pow, Shl, Generated, Digit, IntegerState;
    var delta: U64, part1: U64, part2: U64 := u - l, u / Pow(2, e), u % Pow(2, e);
    IntegerStarts(w, u, l, e, delta, Pow(2, e), part1, part2);
    idx, kappa := 0, 10;
    assert digits[..idx] == [];
    var t := 10;
    while kappa > 0
      invariant kappa <= 10 && t == 20 - kappa && part2 == u % Pow(2, e)
      invariant idx <= 16 && IntegerState(u, delta, e, digits[..idx], Pow(10, kappa), part1, part2)
    {
      TensArePowers(t);
      TenTimes(kappa);
      var div: U64 := TENS[t];
      ghost var ds := digits[..idx];
      var digit: U64 := part1 / div;
      IntegerNext(u, delta, e, ds, div, part1, part2, digit, part1 % div);
      if digit != 0 || idx != 0 {
        digits[idx] := Digit(digit);
        idx := idx + 1;
      }
      assert digits[..idx] == Written(ds, digit);
      part1 := part1 - digit * div;
      kappa := kappa - 1;
      var tmp: U64 := Shl(part1, e) + part2;
      if tmp <= delta {
        FinishInteger(w, u, l, e, digits, idx, kappa, tmp, Shl(div, e));
        return true, idx, kappa;
      }
      StateIsShort(u, delta, e, digits[..idx], div, part1, part2);
      t := t + 1;
    }
    StateIsDone(u, delta, e, digits[..idx], part1, part2);
    return false, idx, 0;
  }

  lemma StateIsShort(u: nat, delta: nat, e: nat, ds: seq<char>, p: nat, part1: nat, part2: nat)
    requires IntegerState(u, delta, e, ds, p, part1, part2)
    ensures |ds| <= 16
  {
  }

  lemma StateIsDone(u: nat, delta: nat, e: nat, ds: seq<char>, part1: nat, part2: nat)
    requires IntegerState(u, delta, e, ds, Pow(10, 0), part1, part2)
    ensures IntegerState(u, delta, e, ds, 1, 0, part2)
  {
    assert Pow(10, 0) == 1;
    hide Pow, Shl;
  }

  /// The fraction part

  /** The state after `i` fraction digits: `part2` is the rest and `delta` the interval, both scaled by `10^i`. */
  ghost predicate FractionState(u: nat, l: nat, e: nat, ds: seq<char>, i: nat, part2: nat, delta: nat) {
    && Prefix(ds) && l < u && u - l < u % Pow(2, e)
    && u * Pow(10, i) == Shl(DecValue(ds), e) + part2
    && part2 == u % Pow(2, e) * Pow(10, i) % Pow(2, e)
    && delta == (u - l) * Pow(10, i)
    && part2 >= delta && (i == 0 ==> part2 > delta)
  }

  lemma FractionStarts(u: nat, l: nat, e: nat, ds: seq<char>)
    requires l < u && IntegerState(u, u - l, e, ds, 1, 0, u % Pow(2, e))
    ensures FractionState(u, l, e, ds, 0, u % Pow(2, e), u - l)
  {
    assert Pow(10, 0) == 1;
    hide Pow, Shl;
    ModUnique(u % Pow(2, e), 0, u % Pow(2, e), Pow(2, e));
    TimesOne(u, DecValue(ds), u - l, u % Pow(2, e), e, Pow(10, 0));
  }

  lemma TimesOne(u: nat, n: nat, delta: nat, p: nat, e: nat, one: nat)
    requires one == 1 && p % Pow(2, e) == p
    ensures u * one == u && Shl(n * 1 + 0, e) == Shl(n, e) && delta * one == delta && p * one % Pow(2, e) == p
    ensures Shl(0, e) == 0
  {
    assert Shl(0, e) == 0;
    hide Pow, Shl;
  }

  /** The rest of a product is the rest of the product of the rest. */
  lemma ModMul(x: nat, k: nat, m: nat)
    requires m > 0
    ensures x % m * k % m == x * k % m
  {
    var q, r := x / m, x % m;
    assert x == q * m + r;
    assert x * k == r * k + q * k * m;
    ModShift(r * k, q * k, m);
  }

  lemma {:induction false} ModShift(x: nat, q: nat, m: nat)
    requires m > 0
    ensures (x + q * m) % m == x % m
  {
    var a := x / m;
    assert x + q * m == (a + q) * m + x % m;
    ModUnique(x + q * m, a + q, x % m, m);
  }

  lemma ModUnique(x: nat, q: nat, r: nat, m: nat)
    requires m > 0 && x == q * m + r && r < m
    ensures x % m == r && x / m == q
  {
    var q', r' := x / m, x % m;
    assert x == q' * m + r';
    Apart(q', q, m);
    Apart(q, q', m);
  }

  lemma Apart(a: nat, b: nat, m: nat)
    ensures a < b ==> a * m + m <= b * m
  {
    if a < b {
      MulMono(a + 1, b, m, m);
      assert (a + 1) * m == a * m + m;
    }
  }

  /** Ten times the rest, split into the next digit and the next rest. */
  lemma TenStep(part2: nat, one: nat, d: nat, r: nat)
    requires part2 < one && d == part2 * 10 / one && r == part2 * 10 % one
    ensures d < 10 && r < one && part2 * 10 == d * one + r
  {
    if d >= 10 { MulMono(10, d, one, one); }
  }

  lemma FractionRange(w: nat, u: nat, l: nat, e: nat, ds: seq<char>, i: nat, part2: nat, delta: nat)
    requires Scaled(w, u, l, e) && FractionState(u, l, e, ds, i, part2, delta)
    ensures |ds| <= 16 && part2 < Pow(2, e) <= 0x1000_0000_0000_0000 && delta <= part2 && i <= 18
  {
    hide Pow, Shl;
    TwoTo32();
    PowMonotone(2, e, 60);
    if i >= 19 {
      PowMonotone(10, 19, i);
      MulMono(1, u - l, Pow(10, 19), Pow(10, i));
    }
  }

  lemma FractionScale(w: nat, u: nat, l: nat, e: nat, ds: seq<char>, i: nat, part2: nat, delta: nat)
    requires Scaled(w, u, l, e) && FractionState(u, l, e, ds, i, part2, delta)
    ensures 0 <= (u - w) * Pow(10, i + 1) <= delta * 10
  {
    hide Pow, Shl;
    TwoTo32();
    PowAdd(10, i, 1);
    Assoc(u - l, Pow(10, i), 10);
    MulMono(u - w, u - l, Pow(10, i + 1), Pow(10, i + 1));
  }

  /** The scaled sums after one more digit. */
  lemma FractionSums(u: nat, l: nat, e: nat, ds: seq<char>, i: nat, part2: nat, delta: nat, d: nat, r: nat)
    requires FractionState(u, l, e, ds, i, part2, delta) && d == Shr(part2 * 10, e) && r == Low(part2 * 10, e)
    ensures d < 10 && r < Pow(2, e) && delta <= part2 && part2 * 10 == d * Pow(2, e) + r
    ensures r < delta * 10 ==> d > 0
    ensures u * Pow(10, i + 1) == Shl(DecValue(ds) * 10 + d, e) + r
    ensures r == u % Pow(2, e) * Pow(10, i + 1) % Pow(2, e)
    ensures delta * 10 == (u - l) * Pow(10, i + 1)
  {
    hide Pow, Shl;
    var one, t, n := Pow(2, e), Pow(10, i), DecValue(ds);
    TwoTo32();
    PowAdd(10, i, 1);
    TenStep(part2, one, d, r);
    Assoc(u, t, 10);
    Assoc(u - l, t, 10);
    Assoc(u % one, t, 10);
    ModMul(u % one * t, 10, one);
    ShlLaws(n * 10, d, e);
    ShlLaws(10, n, e);
    ShlOne(d, e);
  }

  lemma ShlOne(d: nat, e: nat)
    ensures Shl(d, e) == d * Pow(2, e)
  {
  }

  /** One fraction step: either the interval is still exceeded, or the digits end with `d`, which is not zero. */
  lemma FractionNext(w: nat, u: nat, l: nat, e: nat, ds: seq<char>, i: nat, part2: nat, delta: nat, d: nat, r: nat)
    requires Scaled(w, u, l, e) && FractionState(u, l, e, ds, i, part2, delta)
    requires d == Shr(part2 * 10, e) && r == Low(part2 * 10, e)
    ensures d < 10 && AllDigits(Written(ds, d)) && |Written(ds, d)| <= 17
    ensures r >= delta * 10 ==> FractionState(u, l, e, Written(ds, d), i + 1, r, delta * 10)
    ensures r < delta * 10 ==> d > 0
  {
    hide Pow, Shl;
    FractionSums(u, l, e, ds, i, part2, delta, d, r);
    WrittenValue(ds, d);
    if r >= delta * 10 {
      FractionCount(u, l, e, Written(ds, d), i + 1, r);
    }
  }

  lemma FractionCount(u: nat, l: nat, e: nat, ds: seq<char>, i: nat, r: nat)
    requires l < u < TEN16 * (u - l) && AllDigits(ds) && (ds != [] ==> ds[0] != '0')
    requires u * Pow(10, i) == Shl(DecValue(ds), e) + r && (u - l) * Pow(10, i) <= r < Pow(2, e)
    ensures |ds| <= 16
  {
    hide Pow, Shl;
    var t := Pow(10, i);
    DecValueSize(ds);
    ShlOne(DecValue(ds), e);
    ScaleBound(u, TEN16, u - l, t);
    TensArePowers(3);
    if ds != [] {
      CountBound(u * t, (u - l) * t, DecValue(ds), Pow(2, e), |ds|);
    }
  }

  lemma ScaleBound(u: nat, b: nat, delta: nat, t: nat)
    requires u < b * delta && t > 0
    ensures u * t < b * (delta * t)
  {
    var p := b * delta;
    Assoc(b, delta, t);
    MulMono(u + 1, p, t, t);
    assert (u + 1) * t == u * t + t;
  }

  /// Ties: when the last digit becomes zero

  /** The rounding goes all the way down exactly if it ends at the lower bound and that is nearer than half a unit. */
  lemma RoundsToZeroIff(rem: nat, one: nat, delta: nat, frac: int, d: nat, m: nat)
    requires one > 0 && 0 < d && delta <= rem + d * one && Rounded(rem, one, delta, frac, d, m)
    ensures m == d <==> rem + d * one == delta && 2 * frac > 2 * delta - one
  {
    assert rem + (d - 1) * one == rem + d * one - one;
    if m < d && Closer(rem + (d - 1) * one, one, delta, frac) {
      CloserBefore(rem, m, d - 1, one, delta, frac);
    }
  }

  /** If the digits end after step `i + 1`, that is the only place where a tie can be. */
  lemma TieOnlyHere(w: nat, u: nat, l: nat, e: nat, ds: seq<char>, i: nat, part2: nat, delta: nat, r: nat, j: nat)
    requires l <= w <= u && FractionState(u, l, e, ds, i, part2, delta)
    requires r == u % Pow(2, e) * Pow(10, i + 1) % Pow(2, e) && r < delta * 10 == (u - l) * Pow(10, i + 1)
    requires TieAt(w, u, l, e, j)
    ensures j == i + 1
  {
    hide Pow, Shl;
    if j <= i {
      PowMonotone(10, j, i);
      MulMono(u - l, u - l, Pow(10, j), Pow(10, i));
    } else if j > i + 1 {
      var q := j - 1 - (i + 1);
      PowAdd(10, i + 1, q);
      LateTie(u % Pow(2, e), Pow(2, e), Pow(10, i + 1), Pow(10, q), u - l, r);
    }
  }

  /** A rest below the interval stays below it when scaled up. */
  lemma LateTie(p: nat, one: nat, t: nat, q: nat, delta: nat, r: nat)
    requires one > 0 && q > 0 && r == p * t % one && r < delta * t && delta * (t * q) < one
    ensures p * (t * q) % one < delta * (t * q)
  {
    Assoc(p, t, q);
    Assoc(delta, t, q);
    ModMul(p * t, q, one);
    MulMono(r + 1, delta * t, q, q);
    assert (r + 1) * q == r * q + q;
    ModUnique(r * q, 0, r * q, one);
  }

  /** The last digit ends as zero exactly in a tie. */
  lemma ZeroIffTie(w: nat, u: nat, l: nat, e: nat, ds: seq<char>, i: nat, part2: nat, delta: nat, d: nat, r: nat,
                   frac: int, m: nat)
    requires Scaled(w, u, l, e) && FractionState(u, l, e, ds, i, part2, delta)
    requires d == Shr(part2 * 10, e) && r == Low(part2 * 10, e) && r < delta * 10
    requires frac == (u - w) * Pow(10, i + 1) && Rounded(r, Pow(2, e), delta * 10, frac, d, m)
    ensures m == d <==> Tie(w, u, l, e)
  {
    FractionSums(u, l, e, ds, i, part2, delta, d, r);
    TieIffHere(w, u, l, e, ds, i, part2, delta, r);
    TieHere(w, u, l, e, ds, i, part2, delta, d, r);
    ZeroNumbers(r, Pow(2, e), delta, part2, frac, d, m);
    hide Pow, Shl, Rounded, FractionState, TieAt, Tie, Scaled;
  }

  lemma ZeroNumbers(r: nat, one: nat, delta: nat, part2: nat, frac: int, d: nat, m: nat)
    requires one > 0 && 0 < d && delta <= part2 && part2 * 10 == d * one + r && Rounded(r, one, delta * 10, frac, d, m)
    ensures m == d <==> part2 == delta && 2 * frac > 2 * (delta * 10) - one
  {
    RoundsToZeroIff(r, one, delta * 10, frac, d, m);
  }

  lemma TieIffHere(w: nat, u: nat, l: nat, e: nat, ds: seq<char>, i: nat, part2: nat, delta: nat, r: nat)
    requires l <= w <= u && FractionState(u, l, e, ds, i, part2, delta)
    requires r == u % Pow(2, e) * Pow(10, i + 1) % Pow(2, e) && r < delta * 10 == (u - l) * Pow(10, i + 1)
    ensures Tie(w, u, l, e) <==> TieAt(w, u, l, e, i + 1)
  {
    hide Pow, Shl, TieAt;
    if Tie(w, u, l, e) {
      var j: nat :| TieAt(w, u, l, e, j);
      TieOnlyHere(w, u, l, e, ds, i, part2, delta, r, j);
    }
  }

  lemma TieHere(w: nat, u: nat, l: nat, e: nat, ds: seq<char>, i: nat, part2: nat, delta: nat, d: nat, r: nat)
    requires l <= w <= u && FractionState(u, l, e, ds, i, part2, delta) && 0 < d
    requires part2 * 10 == d * Pow(2, e) + r && delta * 10 == (u - l) * Pow(10, i + 1)
    ensures part2 == delta && 2 * ((u - w) * Pow(10, i + 1)) > 2 * (delta * 10) - Pow(2, e)
            <==> TieAt(w, u, l, e, i + 1)
  {
    StateAtTie(u, l, e, ds, i, part2, delta);
    AtLeastOne(d, Pow(2, e));
    Distribute(u - w, w - l, Pow(10, i + 1));
    hide Pow, Shl, FractionState;
  }

  lemma StateAtTie(u: nat, l: nat, e: nat, ds: seq<char>, i: nat, part2: nat, delta: nat)
    requires FractionState(u, l, e, ds, i, part2, delta)
    ensures part2 == delta ==> i > 0
    ensures part2 == u % Pow(2, e) * Pow(10, i) % Pow(2, e) && delta == (u - l) * Pow(10, i)
  {
    hide Pow, Shl;
  }

  lemma AtLeastOne(d: nat, x: nat)
    requires d > 0
    ensures x <= d * x
  {
    MulMono(1, d, x, x);
  }

  lemma Distribute(x: int, y: int, t: int)
    ensures (x + y) * t == x * t + y * t
  {
  }

  lemma FractionDone(w: nat, u: nat, l: nat, e: nat, ds: seq<char>, i: nat, part2: nat, delta: nat, d: nat, r: nat,
                     frac: int, m: nat)
    requires Scaled(w, u, l, e) && FractionState(u, l, e, ds, i, part2, delta)
    requires d == Shr(part2 * 10, e) && r == Low(part2 * 10, e) && r < delta * 10 && d < 10
    requires frac == (u - w) * Pow(10, i + 1) && Rounded(r, Pow(2, e), delta * 10, frac, d, m)
    ensures Generated(w, u, l, e, ds + [Digit(d - m)], -(i + 1))
  {
    hide Pow, Shl, Tie, Closer, InInterval;
    FractionRange(w, u, l, e, ds, i, part2, delta);
    FractionSums(u, l, e, ds, i, part2, delta, d, r);
    ZeroIffTie(w, u, l, e, ds, i, part2, delta, d, r, frac, m);
    DecValueAppend(ds, Digit(d - m));
    FractionInterval(u, l, e, DecValue(ds) * 10 + d, i + 1, r, d, m);
    FractionFirst(u, l, e, ds, i, part2, d, r, m);
  }

  lemma FractionInterval(u: nat, l: nat, e: nat, n: nat, i: nat, r: nat, d: nat, m: nat)
    requires l <= u && u * Pow(10, i) == Shl(n, e) + r && r + m * Pow(2, e) <= (u - l) * Pow(10, i) && m <= d <= n
             && i > 0
    ensures InInterval(n - m, -(i as int), e, u, l)
  {
    hide Pow;
    var t := Pow(10, i);
    MovedDown(n, d, m, Pow(2, e), r, u * t, (u - l) * t);
    assert u * t - (u - l) * t == l * t;
  }

  /** A single digit is not rounded down to zero, because the value is not. */
  lemma FractionFirst(u: nat, l: nat, e: nat, ds: seq<char>, i: nat, part2: nat, d: nat, r: nat, m: nat)
    requires 0 < l < u && AllDigits(ds) && u * Pow(10, i + 1) == Shl(DecValue(ds) * 10 + d, e) + r
    requires r + m * Pow(2, e) <= (u - l) * Pow(10, i + 1)
    ensures ds == [] ==> m < d
  {
    hide Pow;
    if ds == [] {
      var t := Pow(10, i + 1);
      MulMono(1, l, t, t);
      assert u * t - (u - l) * t == l * t;
      if m >= d { MulMono(d, m, Pow(2, e), Pow(2, e)); }
    }
  }

  /** The digits of the fraction, up to the first that reaches the interval. */
  method FractionDigits(w: U64, u: U64, l: U64, e: nat, digits: array<char>, start: nat) returns (idx: nat, kappa: int)
    requires Scaled(w, u, l, e) && digits.Length >= 18 && start <= 17
    requires IntegerState(u, u - l, e, digits[..start], 1, 0, u % Pow(2, e))
    modifies digits
    ensures idx <= 17 && Generated(w, u, l, e, digits[..idx], kappa)
  {
    hide Pow, Shl, Shr, Low, Generated, Digit, IntegerState, FractionState, Rounded, AllDigits;
    FractionStarts(u, l, e, digits[..start]);
    StateIsShort(u, u - l, e, digits[..start], 1, 0, u % Pow(2, e));
    idx, kappa := start, 0;
    var part2: U64, delta: U64, unit := u % Pow(2, e), u - l, 18;
    ghost var i := 0;
    while true
      invariant idx <= 16 && kappa == -i && unit == 18 - i
      invariant FractionState(u, l, e, digits[..idx], i, part2, delta)
      decreases 19 - i
    {
      ghost var ds, part0, delta0 := digits[..idx], part2, delta;
      FractionRange(w, u, l, e, ds, i, part2, delta);
      part2 := part2 * 10;
      delta := delta * 10;
      kappa := kappa - 1;
      FractionNext(w, u, l, e, ds, i, part0, delta0, Shr(part2, e), Low(part2, e));
      var digit: U64 := Shr(part2, e);
      if digit != 0 || idx != 0 {
        digits[idx] := Digit(digit);
        idx := idx + 1;
      }
      assert digits[..idx] == Written(ds, digit);
      part2 := Low(part2, e);
      if part2 < delta {
        FinishFraction(w, u, l, e, digits, idx, delta, part2, digit, unit, ds, i, part0, delta0);
        return;
      }
      FractionRange(w, u, l, e, digits[..idx], i + 1, part2, delta);
      unit := unit - 1;
      i := i + 1;
    }
  }

  method FinishFraction(w: U64, u: U64, l: U64, e: nat, digits: array<char>, idx: nat, delta: U64, part2: U64,
                        digit: nat, unit: nat,
                        ghost ds: seq<char>, ghost i: nat, ghost part0: nat, ghost delta0: nat)
    requires Scaled(w, u, l, e) && 0 < idx <= 17 <= digits.Length && unit == 18 - i && digit < 10
    requires FractionState(u, l, e, ds, i, part0, delta0) && digits[..idx] == ds + [Digit(digit)]
    requires digit == Shr(part0 * 10, e) && part2 == Low(part0 * 10, e) && part2 < delta == delta0 * 10
    modifies digits
    ensures Generated(w, u, l, e, digits[..idx], -(i + 1))
  {
    hide Pow, Shl, Generated, FractionState, Rounded;
    FractionSums(u, l, e, ds, i, part0, delta0, digit, part2);
    FractionRange(w, u, l, e, ds, i, part0, delta0);
    FractionScale(w, u, l, e, ds, i, part0, delta0);
    TensArePowers(unit);
    assert digits[idx - 1] == digits[..idx][idx - 1] == Digit(digit);
    var frac: U64 := (u - w) * TENS[unit];
    ghost var m := RoundDigit(digits, idx, delta, part2, Pow(2, e), frac);
    RoundedBound(part2, Pow(2, e), delta, frac, digit, m);
    FractionDone(w, u, l, e, ds, i, part0, delta0, digit, part2, frac, m);
    assert digits[..idx] == ds + [Digit(digit - m)];
  }

  lemma RoundedBound(rem: int, unit: int, delta: int, frac: int, d: int, m: int)
    requires Rounded(rem, unit, delta, frac, d, m)
    ensures m <= d
  {
  }

  /** Writes the digits of a decimal inside the interval and returns their number and the exponent of the last. */
  method GenerateDigits(w: U64, u: U64, l: U64, e: nat, digits: array<char>, K: int) returns (n: nat, K': int)
    requires Scaled(w, u, l, e) && digits.Length >= 18
    modifies digits
    ensures n <= 17 && Generated(w, u, l, e, digits[..n], K' - K)
  {
    hide Generated, Scaled, IntegerState;
    var done, idx, kappa := IntegerDigits(w, u, l, e, digits);
    if done {
      return idx, K + kappa;
    }
    var k;
    n, k := FractionDigits(w, u, l, e, digits, idx);
    K' := K + k;
  }
}
