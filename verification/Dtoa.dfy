/** Printing doubles: the text that the digits are laid out as, and what a correct reader makes of it. */
module Dtoa {
  import opened Powers
  import opened PowersTen
  import opened Grisu
  import opened GrisuDigits
  import opened GrisuInterval
  import opened Words

  /// A reader for decimal numbers

  function IndexOf(s: seq<char>, c: char): (i: nat)
    ensures i <= |s|
  {
    if s == [] || s[0] == c then 0 else 1 + IndexOf(s[1..], c)
  }

  function Before(s: seq<char>, c: char): seq<char> {
    s[..IndexOf(s, c)]
  }

  function After(s: seq<char>, c: char): seq<char> {
    if IndexOf(s, c) < |s| then s[IndexOf(s, c) + 1..] else []
  }

  /** An exponent: empty, or a sign and digits. */
  function ReadExponent(s: seq<char>): int {
    if |s| < 2 || !AllDigits(s[1..]) then 0
    else if s[0] == '-' then -(DecValue(s[1..]) as int) else DecValue(s[1..])
  }

  /** The value of `integer.fraction` or `integer.fractione(sign)exponent`. */
  ghost function ReadDecimal(text: seq<char>): real {
    var mantissa, exponent := Before(text, 'e'), ReadExponent(After(text, 'e'));
    var whole, frac := Before(mantissa, '.'), After(mantissa, '.');
    if AllDigits(whole + frac) then Decimal(DecValue(whole + frac), exponent - |frac|) else 0.0
  }

  lemma {:induction false} IndexOfAbsent(s: seq<char>, c: char)
    requires c !in s
    ensures IndexOf(s, c) == |s| && Before(s, c) == s && After(s, c) == []
  {
    if s != [] { IndexOfAbsent(s[1..], c); }
  }

  lemma {:induction false} IndexOfFirst(s: seq<char>, c: char, t: seq<char>)
    requires c !in s
    ensures IndexOf(s + [c] + t, c) == |s| && Before(s + [c] + t, c) == s && After(s + [c] + t, c) == t
  {
    if s != [] {
      IndexOfFirst(s[1..], c, t);
      assert (s + [c] + t)[1..] == s[1..] + [c] + t;
    }
  }

  /// Digit strings

  function Zeros(n: nat): (s: seq<char>)
    ensures |s| == n && AllDigits(s)
  {
    seq(n, _ => '0')
  }

  lemma MoreZeros(n: nat)
    ensures Zeros(n + 1) == Zeros(n) + ['0'] && Zeros(n + 1) == ['0'] + Zeros(n)
  {
  }

  lemma PowTen(v: nat, n: nat)
    requires n > 0
    ensures v * Pow(10, n) == v * Pow(10, n - 1) * 10
  {
    var p := Pow(10, n - 1);
    assert Pow(10, n) == 10 * p;
    hide Pow;
    Assoc(v, p, 10);
  }

  lemma {:induction false} TrailingZeros(ds: seq<char>, n: nat)
    requires AllDigits(ds)
    ensures AllDigits(ds + Zeros(n)) && DecValue(ds + Zeros(n)) == DecValue(ds) * Pow(10, n)
    decreases n
  {
    if n == 0 {
      assert ds + Zeros(0) == ds;
    } else {
      TrailingZeros(ds, n - 1);
      assert ds + Zeros(n) == ds + Zeros(n - 1) + ['0'];
      DecValueAppend(ds + Zeros(n - 1), '0');
      PowTen(DecValue(ds), n);
      hide Pow, DecValue;
    }
  }

  lemma {:induction false} LeadingZeros(n: nat, ds: seq<char>)
    requires AllDigits(ds)
    ensures AllDigits(Zeros(n) + ds) && DecValue(Zeros(n) + ds) == DecValue(ds)
    decreases |ds|, n
  {
    if ds != [] {
      var k := |ds| - 1;
      LeadingZeros(n, ds[..k]);
      assert Zeros(n) + ds == Zeros(n) + ds[..k] + [ds[k]];
      DecValueAppend(Zeros(n) + ds[..k], ds[k]);
    } else if n > 0 {
      LeadingZeros(n - 1, []);
      assert Zeros(n) + [] == Zeros(n - 1) + [] + ['0'];
      DecValueAppend(Zeros(n - 1) + [], '0');
    }
  }

  lemma DigitsHaveNo(s: seq<char>, c: char)
    requires AllDigits(s) && !IsDigit(c)
    ensures c !in s
  {
  }

  /// Layout

  /** One to three digits of an exponent. */
  function ExponentDigits(exp: nat): (s: seq<char>)
    requires exp < 1000
    ensures 1 <= |s| <= 3 && AllDigits(s)
  {
    if exp > 99 then [Digit(exp / 100), Digit(exp / 10 % 10), Digit(exp % 10)]
    else if exp > 9 then [Digit(exp / 10), Digit(exp % 10)]
    else [Digit(exp)]
  }

  lemma ExponentDigitsValue(exp: nat)
    requires exp < 1000
    ensures DecValue(ExponentDigits(exp)) == exp
  {
    hide DecValue, Digit;
    Places(exp);
    if exp > 99 {
      ThreeDigits(exp / 100, exp / 10 % 10, exp % 10);
    } else if exp > 9 {
      TwoDigits(exp / 10, exp % 10);
    } else {
      OneDigit(exp);
    }
  }

  lemma Places(exp: nat)
    ensures exp == 100 * (exp / 100) + 10 * (exp / 10 % 10) + exp % 10 && exp == 10 * (exp / 10) + exp % 10
  {
    assert exp / 10 / 10 == exp / 100;
  }

  lemma OneDigit(a: nat)
    requires a < 10
    ensures DecValue([Digit(a)]) == a
  {
    DecValueAppend([], Digit(a));
    assert [] + [Digit(a)] == [Digit(a)];
  }

  lemma TwoDigits(a: nat, b: nat)
    requires a < 10 && b < 10
    ensures DecValue([Digit(a), Digit(b)]) == 10 * a + b
  {
    OneDigit(a);
    DecValueAppend([Digit(a)], Digit(b));
    assert [Digit(a)] + [Digit(b)] == [Digit(a), Digit(b)];
  }

  lemma ThreeDigits(a: nat, b: nat, c: nat)
    requires a < 10 && b < 10 && c < 10
    ensures DecValue([Digit(a), Digit(b), Digit(c)]) == 100 * a + 10 * b + c
  {
    TwoDigits(a, b);
    DecValueAppend([Digit(a), Digit(b)], Digit(c));
    assert [Digit(a), Digit(b)] + [Digit(c)] == [Digit(a), Digit(b), Digit(c)];
  }

  function Magnitude(x: int): nat {
    if x < 0 then -x else x
  }

  function PlainLayout(ds: seq<char>, k: nat): seq<char> {
    ds + Zeros(k) + ".0"
  }

  function ScientificLayout(ds: seq<char>, k: int, exp: nat): seq<char>
    requires ds != [] && exp < 1000
  {
    Mantissa(ds) + "e" + (if k + |ds| - 1 < 0 then "-" else "+") + ExponentDigits(exp)
  }

  function PointLayout(ds: seq<char>, k: int): seq<char>
    requires k < 0
  {
    var offset := |ds| + k;
    if offset <= 0 then "0." + Zeros(-offset) + ds else ds[..offset] + "." + ds[offset..]
  }

  function Mantissa(ds: seq<char>): seq<char>
    requires ds != []
  {
    [ds[0]] + if |ds| > 1 then "." + ds[1..] else []
  }

  /** In scientific notation at most 17 or 18 digits are kept. */
  function Kept(ds: seq<char>, neg: bool): seq<char> {
    var most := if neg then 17 else 18;
    if |ds| < most then ds else ds[..most]
  }

  /** The text for the digits `ds` with decimal exponent `k`. */
  function EmitText(ds: seq<char>, k: int, neg: bool): seq<char>
    requires 1 <= |ds| && Magnitude(k + |ds| - 1) < 1000
  {
    var exp := Magnitude(k + |ds| - 1);
    if k >= 0 && exp < |ds| + 7 then PlainLayout(ds, k)
    else if k < 0 && (k > -7 || exp < 4) then PointLayout(ds, k)
    else ScientificLayout(Kept(ds, neg), k, exp)
  }

  /** The sign and the text never exceed 27 characters, and exceed 24 exactly for integers that are padded with up
      to seven zeros to more than 22 places, or 21 with a sign. */
  lemma EmitLength(ds: seq<char>, k: int, neg: bool)
    requires 1 <= |ds| <= 17 && Magnitude(k + |ds| - 1) < 1000
    ensures |EmitText(ds, k, neg)| <= 26
    ensures var sign := if neg then 1 else 0;
            sign + |EmitText(ds, k, neg)| > 24 <==> 0 <= k <= 7 && |ds| + k + 2 + sign > 24
  {
  }

  lemma PlainText(ds: seq<char>, k: nat)
    requires AllDigits(ds)
    ensures ReadDecimal(PlainLayout(ds, k)) == Decimal(DecValue(ds), k)
  {
    hide Pow, Decimal, DecValue, IndexOf, Before, After, Zeros;
    TrailingZeros(ds, k);
    var ip := ds + Zeros(k);
    var text := ip + ['.'] + ['0'];
    assert ds + Zeros(k) + ".0" == text;
    DigitsHaveNo(ip + ['0'], 'e');
    DigitsHaveNo(ip, '.');
    assert 'e' !in text;
    IndexOfAbsent(text, 'e');
    IndexOfFirst(ip, '.', ['0']);
    assert ip + ['0'] == ds + Zeros(k + 1) by { MoreZeros(k); }
    TrailingZeros(ds, k + 1);
    ShiftDecimal(DecValue(ds), k + 1, -1);
  }

  /** Moving places between the number and the exponent. */
  lemma ShiftDecimal(n: nat, places: nat, k: int)
    ensures Decimal(n * Pow(10, places), k) == Decimal(n, k + places)
  {
    hide Pow, RPow;
    RPowNat(10, places);
    RPowAdd(10.0, places, k);
    CastMul(n, Pow(10, places));
    RAssoc(n as real, RPow(10.0, places), RPow(10.0, k));
  }

  lemma PointText(ip: seq<char>, fp: seq<char>)
    requires AllDigits(ip) && AllDigits(fp)
    ensures AllDigits(ip + fp) && ReadDecimal(ip + "." + fp) == Decimal(DecValue(ip + fp), -|fp|)
  {
    hide Pow, Decimal, DecValue, IndexOf, Before, After;
    var text := ip + ['.'] + fp;
    DigitsHaveNo(ip, 'e');
    DigitsHaveNo(fp, 'e');
    DigitsHaveNo(ip, '.');
    assert 'e' !in text;
    IndexOfAbsent(text, 'e');
    IndexOfFirst(ip, '.', fp);
  }

  lemma MantissaReads(ds: seq<char>)
    requires 1 <= |ds| && AllDigits(ds)
    ensures 'e' !in Mantissa(ds)
    ensures var m := Mantissa(ds);
            Before(m, '.') + After(m, '.') == ds && |After(m, '.')| == |ds| - 1
  {
    hide IndexOf, Before, After;
    DigitsHaveNo(ds, 'e');
    DigitsHaveNo(ds, '.');
    if |ds| > 1 {
      assert Mantissa(ds) == [ds[0]] + ['.'] + ds[1..];
      IndexOfFirst([ds[0]], '.', ds[1..]);
      assert [ds[0]] + ds[1..] == ds;
    } else {
      assert Mantissa(ds) == ds;
      IndexOfAbsent(ds, '.');
      assert ds + [] == ds;
    }
  }

  lemma ScientificText(ds: seq<char>, sign: seq<char>, exp: nat)
    requires 1 <= |ds| && AllDigits(ds) && exp < 1000 && (sign == "-" || sign == "+")
    ensures var x := if sign == "-" then -(exp as int) else exp;
            ReadDecimal(Mantissa(ds) + "e" + sign + ExponentDigits(exp)) == Decimal(DecValue(ds), x - (|ds| - 1))
  {
    hide Pow, Decimal, DecValue, IndexOf, Before, After, ExponentDigits, Mantissa;
    var m, rest := Mantissa(ds), sign + ExponentDigits(exp);
    Regroup(m, sign, ExponentDigits(exp));
    MantissaReads(ds);
    IndexOfFirst(m, 'e', rest);
    ExponentDigitsValue(exp);
  }

  lemma Regroup(m: seq<char>, sign: seq<char>, x: seq<char>)
    requires |sign| == 1
    ensures m + "e" + sign + x == m + ['e'] + (sign + x) && (sign + x)[1..] == x
  {
  }

  lemma PointLayoutReads(ds: seq<char>, k: int)
    requires AllDigits(ds) && k < 0
    ensures ReadDecimal(PointLayout(ds, k)) == Decimal(DecValue(ds), k)
  {
    hide ReadDecimal, Decimal, DecValue, Zeros, AllDigits;
    var offset := |ds| + k;
    if offset <= 0 {
      SmallReads(ds, -offset);
    } else {
      SplitReads(ds, offset);
    }
  }

  lemma SplitReads(ds: seq<char>, offset: nat)
    requires AllDigits(ds) && offset <= |ds|
    ensures ReadDecimal(ds[..offset] + "." + ds[offset..]) == Decimal(DecValue(ds), offset - |ds|)
  {
    hide ReadDecimal, Decimal, DecValue;
    assert AllDigits(ds[..offset]) && AllDigits(ds[offset..]);
    hide AllDigits;
    PointText(ds[..offset], ds[offset..]);
    assert ds[..offset] + ds[offset..] == ds;
  }

  lemma SmallReads(ds: seq<char>, z: nat)
    requires AllDigits(ds)
    ensures ReadDecimal("0." + Zeros(z) + ds) == Decimal(DecValue(ds), -(|ds| + z))
  {
    hide ReadDecimal, Decimal, DecValue, Zeros;
    LeadingZeros(z, ds);
    PointText("0", Zeros(z) + ds);
    MoreZeros(z);
    LeadingZeros(z + 1, ds);
    Regroup0(Zeros(z), ds);
  }

  lemma Regroup0(z: seq<char>, ds: seq<char>)
    ensures "0." + z + ds == "0" + "." + (z + ds) && "0" + (z + ds) == ['0'] + z + ds
  {
  }

  /** Reading the text gives back exactly the number that the digits denote. */
  lemma EmitReadsBack(ds: seq<char>, k: int, neg: bool)
    requires 1 <= |ds| <= 17 && AllDigits(ds) && Magnitude(k + |ds| - 1) < 1000
    ensures ReadDecimal(EmitText(ds, k, neg)) == Decimal(DecValue(ds), k)
  {
    hide ReadDecimal, Decimal, DecValue, PlainLayout, PointLayout, ScientificLayout, AllDigits;
    if k >= 0 {
      PlainText(ds, k);
    } else {
      PointLayoutReads(ds, k);
    }
    assert Kept(ds, neg) == ds;
    ScientificReads(ds, k);
  }

  lemma ScientificReads(ds: seq<char>, k: int)
    requires 1 <= |ds| && AllDigits(ds) && Magnitude(k + |ds| - 1) < 1000
    ensures ReadDecimal(ScientificLayout(ds, k, Magnitude(k + |ds| - 1))) == Decimal(DecValue(ds), k)
  {
    hide ReadDecimal, Decimal, DecValue, ExponentDigits, Mantissa;
    ScientificText(ds, if k + |ds| - 1 < 0 then "-" else "+", Magnitude(k + |ds| - 1));
  }

  /// A correctly rounding reader returns the same double

  const INFINITY: nat := 0x7FF0_0000_0000_0000

  ghost function DoubleValue(bits: nat): real {
    Value(BuildFp(bits))
  }

  lemma NextFp(bits: nat)
    requires bits < INFINITY
    ensures var fp, next := BuildFp(bits), BuildFp(bits + 1);
            next == Fp(fp.frac + 1, fp.exp) || (fp.frac + 1 == 2 * HIDDENBIT && next == Fp(HIDDENBIT, fp.exp + 1))
  {
  }

  /** The next larger double is one unit away. */
  lemma NextDouble(bits: nat)
    requires bits < INFINITY
    ensures var fp := BuildFp(bits); DoubleValue(bits + 1) == Value(Fp(fp.frac + 1, fp.exp))
  {
    hide RPow, BuildFp;
    NextFp(bits);
    RPowStep(2.0, BuildFp(bits).exp);
  }

  lemma DoublesIncrease(bits: nat)
    requires bits < INFINITY
    ensures DoubleValue(bits) < DoubleValue(bits + 1)
  {
    hide RPow, BuildFp;
    NextDouble(bits);
    var fp := BuildFp(bits);
    ROrder(RPow(2.0, fp.exp), fp.frac as real, (fp.frac + 1) as real);
  }

  lemma {:induction false} DoublesAreOrdered(a: nat, b: nat)
    requires a <= b <= INFINITY
    ensures DoubleValue(a) <= DoubleValue(b) && (a < b ==> DoubleValue(a) < DoubleValue(b))
    decreases b - a
  {
    hide DoubleValue;
    if a < b {
      DoublesAreOrdered(a, b - 1);
      DoublesIncrease(b - 1);
    }
  }

  /** The upper bound is the midpoint to the next double, and the lower bound is not below the midpoint to the previous
      one. */
  lemma MidpointsOfNeighbours(bits: nat)
    requires IsFinite(bits)
    ensures (BuildFpRange(bits); DoubleValue(bits) + DoubleValue(bits + 1) == 2.0 * UpperMid(BuildFp(bits)))
    ensures (BuildFpRange(bits); DoubleValue(bits - 1) + DoubleValue(bits) <= 2.0 * LowerMid(BuildFp(bits)))
  {
    BuildFpRange(bits);
    var fp := BuildFp(bits);
    NextDouble(bits);
    HalfUnits(fp.frac, fp.exp);
    LowerNeighbour(bits);
  }

  lemma HalfUnits(f: nat, e: int)
    ensures Value(Fp(f, e)) + Value(Fp(f + 1, e)) == 2.0 * Value(Fp(2 * f + 1, e - 1))
  {
    hide RPow;
    RPowStep(2.0, e - 1);
    var p := RPow(2.0, e - 1);
    assert (2 * f + 1) as real == 2.0 * f as real + 1.0 && (f + 1) as real == f as real + 1.0;
    assert f as real * (2.0 * p) + (f as real + 1.0) * (2.0 * p) == 2.0 * ((2.0 * f as real + 1.0) * p);
  }

  lemma PrevFp(bits: nat)
    requires IsFinite(bits)
    ensures var fp, prev := BuildFp(bits), BuildFp(bits - 1);
            if fp.frac != HIDDENBIT then fp.frac > 0 && prev == Fp(fp.frac - 1, fp.exp)
            else prev == Fp(2 * HIDDENBIT - 1, fp.exp - 1) || prev == Fp(HIDDENBIT - 1, fp.exp)
  {
  }

  lemma LowerNeighbour(bits: nat)
    requires IsFinite(bits)
    ensures (BuildFpRange(bits); DoubleValue(bits - 1) + DoubleValue(bits) <= 2.0 * LowerMid(BuildFp(bits)))
  {
    hide BuildFp, Value;
    BuildFpRange(bits);
    var fp, prev := BuildFp(bits), BuildFp(bits - 1);
    PrevFp(bits);
    NextDouble(bits - 1);
    HalfUnits(prev.frac, prev.exp);
    QuarterBelow(fp.exp);
  }

  /** Below a power of two, the midpoint of the coarser spacing lies below the quarter point. */
  lemma QuarterBelow(e: int)
    ensures Value(Fp(2 * HIDDENBIT - 1, e - 1)) <= Value(Fp(4 * HIDDENBIT - 1, e - 2))
    ensures Value(Fp(2 * (HIDDENBIT - 1) + 1, e - 1)) == Value(Fp(2 * HIDDENBIT - 1, e - 1))
    ensures Value(Fp(2 * (2 * HIDDENBIT - 1) + 1, e - 2)) == Value(Fp(4 * HIDDENBIT - 1, e - 2))
  {
    hide RPow;
    RPowStep(2.0, e - 2);
  }

  function AbsReal(x: real): real {
    if x < 0.0 then -x else x
  }

  /** Every decimal between the midpoints is nearer to this double than to any other finite double or zero. */
  lemma NearestDouble(bits: nat, d: real, other: nat)
    requires IsFinite(bits) && other < INFINITY && other != bits
    requires (BuildFpRange(bits); LowerMid(BuildFp(bits)) < d < UpperMid(BuildFp(bits)))
    ensures AbsReal(d - DoubleValue(bits)) < AbsReal(d - DoubleValue(other))
  {
    hide DoubleValue, UpperMid, LowerMid;
    MidpointsOfNeighbours(bits);
    if other > bits {
      DoublesAreOrdered(bits + 1, other);
      DoublesAreOrdered(bits, other);
    } else {
      DoublesAreOrdered(other, bits - 1);
      DoublesAreOrdered(other, bits);
    }
  }

  /// Writing into the buffer

  /** Copies `text` to `dest` from index `at` on. */
  method Write(dest: array<char>, at: nat, text: seq<char>) returns (end: nat)
    requires at + |text| <= dest.Length
    modifies dest
    ensures end == at + |text| && dest[..end] == old(dest[..at]) + text
  {
    for i := 0 to |text|
      invariant dest[..at] == old(dest[..at])
      invariant dest[at..at + i] == text[..i]
    {
      dest[at + i] := text[i];
    }
    end := at + |text|;
    assert dest[..end] == dest[..at] + dest[at..end];
  }

  /** Writes digits and exponent in one of three layouts. */
  method EmitDigits(ds: seq<char>, dest: array<char>, at: nat, K: int, neg: bool) returns (end: nat)
    requires 1 <= |ds| && Magnitude(K + |ds| - 1) < 1000 && at + |EmitText(ds, K, neg)| <= dest.Length
    modifies dest
    ensures end <= dest.Length && dest[..end] == old(dest[..at]) + EmitText(ds, K, neg)
  {
    hide PlainLayout, PointLayout, ScientificLayout;
    var exp := Magnitude(K + |ds| - 1);
    if K >= 0 && exp < |ds| + 7 {
      end := EmitPlain(ds, dest, at, K);
    } else if K < 0 && (K > -7 || exp < 4) {
      end := EmitPoint(ds, dest, at, K);
    } else {
      end := EmitScientific(Kept(ds, neg), dest, at, K, exp);
    }
  }

  method EmitPlain(ds: seq<char>, dest: array<char>, at: nat, K: nat) returns (end: nat)
    requires at + |PlainLayout(ds, K)| <= dest.Length
    modifies dest
    ensures end <= dest.Length && dest[..end] == old(dest[..at]) + PlainLayout(ds, K)
  {
    hide Zeros;
    end := Write(dest, at, ds);
    end := Write(dest, end, Zeros(K));
    end := Write(dest, end, ".0");
    Append3(old(dest[..at]), ds, Zeros(K), ".0");
  }

  method EmitPoint(ds: seq<char>, dest: array<char>, at: nat, K: int) returns (end: nat)
    requires K < 0 && at + |PointLayout(ds, K)| <= dest.Length
    modifies dest
    ensures end <= dest.Length && dest[..end] == old(dest[..at]) + PointLayout(ds, K)
  {
    hide Zeros;
    var offset := |ds| - Magnitude(K);
    if offset <= 0 {
      end := Write(dest, at, "0.");
      end := Write(dest, end, Zeros(-offset));
      end := Write(dest, end, ds);
      Append3(old(dest[..at]), "0.", Zeros(-offset), ds);
    } else {
      end := Write(dest, at, ds[..offset]);
      end := Write(dest, end, ".");
      end := Write(dest, end, ds[offset..]);
      Append3(old(dest[..at]), ds[..offset], ".", ds[offset..]);
    }
  }

  method EmitScientific(ds: seq<char>, dest: array<char>, at: nat, K: int, exp: nat) returns (end: nat)
    requires ds != [] && exp < 1000 && at + |ScientificLayout(ds, K, exp)| <= dest.Length
    modifies dest
    ensures end <= dest.Length && dest[..end] == old(dest[..at]) + ScientificLayout(ds, K, exp)
  {
    hide ExponentDigits;
    var sign := if K + |ds| - 1 < 0 then "-" else "+";
    ghost var mantissa := Mantissa(ds);
    end := Write(dest, at, [ds[0]]);
    if |ds| > 1 {
      end := Write(dest, end, ".");
      end := Write(dest, end, ds[1..]);
      Append3(old(dest[..at]), [ds[0]], ".", ds[1..]);
      assert [ds[0]] + "." + ds[1..] == mantissa;
    }
    assert dest[..end] == old(dest[..at]) + mantissa;
    hide Mantissa;
    end := Write(dest, end, "e");
    end := Write(dest, end, sign);
    end := WriteExponent(dest, end, exp);
    Append3(old(dest[..at]) + mantissa, "e", sign, ExponentDigits(exp));
    AppendRest(old(dest[..at]), mantissa, "e", sign, ExponentDigits(exp));
  }

  lemma AppendRest(p: seq<char>, m: seq<char>, a: seq<char>, b: seq<char>, c: seq<char>)
    ensures p + m + (a + b + c) == p + (m + a + b + c)
  {
  }

  lemma Append3(p: seq<char>, a: seq<char>, b: seq<char>, c: seq<char>)
    ensures p + a + b + c == p + (a + b + c)
  {
  }

  function LowDigits(exp: nat, padded: bool): (s: seq<char>)
    requires exp < 100
    ensures |s| == if padded || exp > 9 then 2 else 1
  {
    if exp > 9 then [Digit(exp / 10), Digit(exp % 10)]
    else if padded then [Digit(0), Digit(exp)]
    else [Digit(exp)]
  }

  lemma ExponentPieces(exp: nat)
    requires 99 < exp < 1000
    ensures exp / 100 < 10 && exp - exp / 100 * 100 < 100
    ensures ExponentDigits(exp) == [Digit(exp / 100)] + LowDigits(exp - exp / 100 * 100, true)
  {
    hide Digit;
    LowPlaces(exp);
  }

  lemma LowPlaces(exp: nat)
    requires exp < 1000
    ensures var rest := exp - exp / 100 * 100;
            && 0 <= rest < 100 && rest / 10 == exp / 10 % 10 && rest % 10 == exp % 10
            && (rest <= 9 ==> exp / 10 % 10 == 0 && exp % 10 == rest)
  {
    var a, rest := exp / 100, exp - exp / 100 * 100;
    var b, c := rest / 10, rest % 10;
    assert exp / 10 == 10 * a + b && exp % 10 == c;
  }

  method WriteExponent(dest: array<char>, at: nat, exp: nat) returns (end: nat)
    requires exp < 1000 && at + |ExponentDigits(exp)| <= dest.Length
    modifies dest
    ensures end == at + |ExponentDigits(exp)| && dest[..end] == old(dest[..at]) + ExponentDigits(exp)
  {
    if exp > 99 {
      var cent := exp / 100;
      ExponentPieces(exp);
      hide ExponentDigits, LowDigits, Digit;
      end := Write(dest, at, [Digit(cent)]);
      end := WriteLowDigits(dest, end, exp - cent * 100, true);
    } else {
      assert ExponentDigits(exp) == LowDigits(exp, false);
      hide ExponentDigits, LowDigits;
      end := WriteLowDigits(dest, at, exp, false);
    }
  }

  method WriteLowDigits(dest: array<char>, at: nat, exp0: nat, padded: bool) returns (end: nat)
    requires exp0 < 100 && at + |LowDigits(exp0, padded)| <= dest.Length
    modifies dest
    ensures end == at + |LowDigits(exp0, padded)| && dest[..end] == old(dest[..at]) + LowDigits(exp0, padded)
  {
    hide Digit;
    var exp := exp0;
    end := at;
    if exp > 9 {
      var dec := exp / 10;
      end := Write(dest, end, [Digit(dec)]);
      exp := exp - dec * 10;
    } else if padded {
      end := Write(dest, end, [Digit(0)]);
    }
    end := Write(dest, end, [Digit(exp % 10)]);
  }

  /** The text lays out the digits of a decimal between the midpoints; the last digit is zero in one known case. */
  ghost predicate LaysOut(bits: nat, text: seq<char>, neg: bool, ds: seq<char>, k: int)
    requires IsFinite(bits)
  {
    && Prints(bits, ds, k) && (ds[|ds| - 1] == '0' <==> RoundsToZero(bits))
    && text == EmitText(ds, k, neg)
  }

  /** What is printed for a double, apart from the sign. */
  ghost predicate PrintsDouble(bits: nat, text: seq<char>, neg: bool) {
    if bits == 0 then text == "0.0"
    else if bits > INFINITY then text == "nan"
    else if bits == INFINITY then text == "inf"
    else exists ds, k :: LaysOut(bits, text, neg, ds, k)
  }

  /** Zero and nan are printed without a sign. */
  predicate ShowsSign(bits: nat) {
    bits >= 0x8000_0000_0000_0000 && 0 < bits - 0x8000_0000_0000_0000 <= INFINITY
  }

  /** The three fields of a double and the bits below the sign. */
  lemma Fields(bits: nat)
    requires bits < W64
    ensures var magnitude := bits % 0x8000_0000_0000_0000;
            var mantissa, exponent := bits % HIDDENBIT, bits / HIDDENBIT % 0x800;
            && magnitude == exponent * HIDDENBIT + mantissa && exponent <= 0x7FF && mantissa < HIDDENBIT
            && bits / 0x8000_0000_0000_0000 % 2 == bits / 0x8000_0000_0000_0000
            && (bits / 0x8000_0000_0000_0000 != 0 <==> bits >= 0x8000_0000_0000_0000)
            && bits == bits / 0x8000_0000_0000_0000 * 0x8000_0000_0000_0000 + magnitude
  {
  }

  /** Prints any double. */
  method Print(bits: U64, buffer: array<char>) returns (len: nat)
    requires buffer.Length >= 27
    modifies buffer
    ensures len <= 27
    ensures var text := buffer[..len];
            var magnitude := bits % 0x8000_0000_0000_0000;
            if ShowsSign(bits) then len > 0 && text[0] == '-' && PrintsDouble(magnitude, text[1..], true)
            else PrintsDouble(magnitude, text, false)
  {
    hide LaysOut;
    Fields(bits);
    var mantissa, exponent := bits % HIDDENBIT, bits / HIDDENBIT % 0x800;
    if exponent == 0 && mantissa == 0 {
      len := Write(buffer, 0, "0.0");
      return;
    }
    var sign := bits / 0x8000_0000_0000_0000 % 2 != 0;
    var pos := 0;
    if sign { pos := Write(buffer, 0, "-"); }
    if exponent == 0x7FF {
      if mantissa != 0 {
        len := Write(buffer, 0, "nan");
      } else {
        len := Write(buffer, pos, "inf");
      }
      return;
    }
    len := PrintFinite(bits, bits % 0x8000_0000_0000_0000, buffer, pos, sign);
  }

  /** The digits only depend on the bits below the sign. */
  method PrintFinite(bits: U64, magnitude: nat, buffer: array<char>, pos: nat, sign: bool) returns (len: nat)
    requires magnitude == bits % 0x8000_0000_0000_0000 && IsFinite(magnitude) && pos <= 1 && buffer.Length >= 27
    modifies buffer
    ensures pos <= len <= pos + 26 && len <= buffer.Length
    ensures buffer[..pos] == old(buffer[..pos]) && PrintsDouble(magnitude, buffer[pos..len], sign)
  {
    hide EmitText, LowerMid, UpperMid, Decimal, BuildFp, DecValue, RoundsToZero;
    var digits := new char[18];
    var n, K := Grisu2(magnitude, digits);
    var ds := digits[..n];
    EmitLength(ds, K, sign);
    len := EmitDigits(ds, buffer, pos, K, sign);
    assert LaysOut(magnitude, buffer[pos..len], sign, ds, K);
  }

  /** The printed text denotes a decimal strictly between the midpoints to the neighbouring doubles. */
  lemma PrintedInside(bits: nat, text: seq<char>, neg: bool)
    requires IsFinite(bits) && PrintsDouble(bits, text, neg)
    ensures (BuildFpRange(bits); LowerMid(BuildFp(bits)) < ReadDecimal(text) < UpperMid(BuildFp(bits)))
  {
    hide EmitText, ReadDecimal, LowerMid, UpperMid, Decimal, BuildFp, DecValue, RoundsToZero;
    var ds, k :| LaysOut(bits, text, neg, ds, k);
    EmitReadsBack(ds, k, neg);
  }

  /** Reading what is printed gives the double back: every other double is farther from the printed number. */
  lemma PrintedIsNearest(bits: nat, text: seq<char>, neg: bool, other: nat)
    requires IsFinite(bits) && PrintsDouble(bits, text, neg) && other < INFINITY && other != bits
    ensures AbsReal(ReadDecimal(text) - DoubleValue(bits)) < AbsReal(ReadDecimal(text) - DoubleValue(other))
  {
    hide ReadDecimal, DoubleValue, UpperMid, LowerMid, PrintsDouble;
    PrintedInside(bits, text, neg);
    NearestDouble(bits, ReadDecimal(text), other);
  }

  /// The length of 24 and the length of 27

  lemma DecimalSize(ds: seq<char>, k: nat)
    requires 1 <= |ds| && AllDigits(ds) && ds[0] != '0'
    ensures Pow(10, |ds| - 1 + k) as real <= Decimal(DecValue(ds), k) < Pow(10, |ds| + k) as real
  {
    hide Pow, RPow, DecValue;
    DecValueSize(ds);
    RPowNat(10, k);
    PowAdd(10, |ds| - 1, k);
    PowAdd(10, |ds|, k);
    CastMul(DecValue(ds), Pow(10, k));
    MulMono(Pow(10, |ds| - 1), DecValue(ds), Pow(10, k), Pow(10, k));
    MulLess(DecValue(ds), Pow(10, |ds|), Pow(10, k));
  }

  lemma MulLess(a: nat, b: nat, c: nat)
    requires a < b && c > 0
    ensures a * c < b * c
  {
  }

  /** Only doubles from about 10^21 to 10^24 can take more than 24 characters. */
  lemma LongNumbers(bits: nat, text: seq<char>, neg: bool)
    requires IsFinite(bits) && PrintsDouble(bits, text, neg) && (if neg then 1 else 0) + |text| > 24
    ensures BuildFp(bits).frac > 0
    ensures Pow(10, 21) as real < UpperMid(BuildFp(bits)) && LowerMid(BuildFp(bits)) < Pow(10, 24) as real
  {
    hide Pow, EmitText, RoundsToZero, Decimal, DecValue, UpperMid, LowerMid, BuildFp;
    BuildFpRange(bits);
    var ds, k :| LaysOut(bits, text, neg, ds, k);
    EmitLength(ds, k, neg);
    DecimalSize(ds, k);
    PowMonotone(10, 21, |ds| - 1 + k);
    PowMonotone(10, |ds| + k, 24);
  }

  const LONG: nat := 0x44BA_249B_1F10_A06C

  lemma TwoTo23()
    ensures RPow(2.0, 23) == 8388608.0
  {
    assert Pow(2, 11) == 2048 && Pow(2, 12) == 4096;
    hide Pow, RPow;
    RPowNat(2, 23);
    PowAdd(2, 11, 12);
  }

  lemma LongInterval()
    ensures BuildFp(LONG) == Fp(7358598054191212, 24)
    ensures LowerMid(BuildFp(LONG)) == 123456789012345660637184.0
    ensures UpperMid(BuildFp(LONG)) == 123456789012345677414400.0
  {
    assert BuildFp(LONG) == Fp(7358598054191212, 24);
    hide RPow, BuildFp;
    TwoTo23();
  }

  lemma {:induction false} TenPowers()
    ensures RPow(10.0, 6) == 1000000.0 && RPow(10.0, 7) == 10000000.0 && RPow(10.0, 8) == 100000000.0
    ensures Pow(10, 16) == 10000000000000000 && Pow(10, 17) == 100000000000000000
  {
    RPowNat(10, 6);
    RPowNat(10, 7);
    RPowNat(10, 8);
    hide RPow;
  }

  /** A decimal of at most 17 digits in the interval has the exponent 7. */
  lemma LongExponent(v: nat, k: int)
    requires v < 100000000000000000
    requires 123456789012345660637184.0 < Decimal(v, k) < 123456789012345677414400.0
    ensures k == 7 && v >= 10000000000000000
  {
    hide RPow, Pow;
    TenPowers();
    if k <= 6 {
      var p := Pow(10, 6 - k);
      ShiftDecimal(v, 6 - k, k);
      MulMono(v, v, 1, p);
      Larger(v, v * p, k);
      assert false;
    } else if k >= 8 {
      var n := v * Pow(10, k - 8);
      ShiftDecimal(v, k - 8, 8);
      assert false;
    } else {
      assert Decimal(v, 7) == (v * 10000000) as real;
    }
  }

  lemma Larger(v: nat, n: nat, k: int)
    requires v <= n
    ensures Decimal(v, k) <= Decimal(n, k)
  {
    ROrder(RPow(10.0, k), v as real, n as real);
  }

  /** This double is printed in 26 characters, and 27 with its sign: more than 24. */
  lemma LongOutput(text: seq<char>, neg: bool)
    requires PrintsDouble(LONG, text, neg)
    ensures |text| == 26
  {
    hide Prints, EmitText, RoundsToZero;
    var ds, k :| LaysOut(LONG, text, neg, ds, k);
    LongDecimal(ds, k);
    LongText(ds, neg);
  }

  lemma LongText(ds: seq<char>, neg: bool)
    requires |ds| == 17
    ensures |EmitText(ds, 7, neg)| == 26
  {
  }

  lemma LongDecimal(ds: seq<char>, k: int)
    requires Prints(LONG, ds, k)
    ensures |ds| == 17 && k == 7
  {
    hide RPow, Pow, Decimal, LowerMid, UpperMid, DecValue, BuildFp;
    LongInterval();
    DecValueSize(ds);
    TenPowers();
    PowMonotone(10, |ds|, 17);
    LongExponent(DecValue(ds), k);
    if |ds| <= 16 { PowMonotone(10, |ds|, 16); }
  }
}
