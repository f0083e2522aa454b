/** Which of its three layouts a printed number has, said of the text and of the number. */
module DtoaLayout {
  import opened Ascii
  import opened Dtoa
  import opened GrisuDigits
  import opened GrisuInterval
  import opened Powers
  import opened PowersTen

  /** The digits that are written are those of the literal. */
  lemma DigitsAre(d: nat)
    requires d < 10
    ensures Digit(d) == DECIMAL[d]
  {
    DigitsByNumber(d);
  }

  /// The size of a number and its first digit

  lemma {:induction false} RPowMonotone(m: int, n: int)
    requires m <= n
    ensures RPow(10.0, m) <= RPow(10.0, n)
    decreases n - m
  {
    hide RPow;
    if m < n {
      RPowMonotone(m, n - 1);
      RPowStep(10.0, n - 1);
    }
  }

  /** The first digit stands at the place `top`: the number is between two powers of ten. */
  lemma SizeOf(ds: seq<char>, k: int)
    requires 1 <= |ds| && AllDigits(ds) && ds[0] != '0'
    ensures var v, top := Decimal(DecValue(ds), k), k + |ds| - 1; RPow(10.0, top) <= v < RPow(10.0, top + 1)
  {
    hide RPow, Pow, DecValue;
    DecValueSize(ds);
    RPowNat(10, |ds| - 1);
    RPowNat(10, |ds|);
    RPowAdd(10.0, |ds| - 1, k);
    RPowAdd(10.0, |ds|, k);
    var p := RPow(10.0, k);
    ROrder(p, Pow(10, |ds| - 1) as real, DecValue(ds) as real);
    ROrder(p, DecValue(ds) as real, Pow(10, |ds|) as real);
  }

  lemma SmallPowersOfTen()
    ensures RPow(10.0, 4) == 10000.0 && RPow(10.0, -3) == 0.001
  {
    RPowNat(10, 4);
    RPowNat(10, 3);
    assert Pow(10, 4) == 10000 && Pow(10, 3) == 1000;
    hide RPow, Pow;
    RPowInverse(10.0, 3);
  }

  /** The number is at least a thousandth and below ten thousand exactly if its first digit stands near the point. */
  lemma NearPoint(ds: seq<char>, k: int)
    requires 1 <= |ds| && AllDigits(ds) && ds[0] != '0'
    ensures 0.001 <= Decimal(DecValue(ds), k) < 10000.0 <==> -3 <= k + |ds| - 1 <= 3
  {
    hide RPow, Decimal, DecValue;
    var top := k + |ds| - 1;
    SizeOf(ds, k);
    SmallPowersOfTen();
    if top < -3 {
      RPowMonotone(top + 1, -3);
    } else {
      RPowMonotone(-3, top);
    }
    if top > 3 {
      RPowMonotone(4, top);
    } else {
      RPowMonotone(top + 1, 4);
    }
  }

  /// Layouts

  lemma NoE(s: seq<char>)
    requires AllDigits(s)
    ensures 'e' !in s && '.' !in s
  {
  }

  lemma PlainHas(ds: seq<char>, k: nat)
    requires AllDigits(ds)
    ensures 'e' !in PlainLayout(ds, k) && IndexOf(PlainLayout(ds, k), '.') == |ds| + k
  {
    hide IndexOf, Zeros, Before, After;
    var ip := ds + Zeros(k);
    NoE(ip);
    assert PlainLayout(ds, k) == ip + ['.'] + "0";
    IndexOfFirst(ip, '.', "0");
  }

  lemma PointHas(ds: seq<char>, k: int)
    requires AllDigits(ds) && k < 0
    ensures 'e' !in PointLayout(ds, k)
    ensures IndexOf(PointLayout(ds, k), '.') == if |ds| + k <= 0 then 1 else |ds| + k
  {
    hide IndexOf, Zeros, Before, After;
    NoE(ds);
    var offset := |ds| + k;
    if offset <= 0 {
      var rest := Zeros(-offset) + ds;
      NoE(rest);
      assert PointLayout(ds, k) == "0" + ['.'] + rest;
      IndexOfFirst("0", '.', rest);
    } else {
      assert PointLayout(ds, k) == ds[..offset] + ['.'] + ds[offset..];
      IndexOfFirst(ds[..offset], '.', ds[offset..]);
    }
  }

  lemma ScientificHas(ds: seq<char>, k: int)
    requires 1 <= |ds| && AllDigits(ds) && Magnitude(k + |ds| - 1) < 1000
    ensures var text := ScientificLayout(ds, k, Magnitude(k + |ds| - 1));
            && 'e' in text && text[0] == ds[0] && IndexOf(text, 'e') == (if |ds| == 1 then 1 else |ds| + 1)
            && (|ds| > 1 ==> text[1] == '.')
            && After(text, 'e') == (if k + |ds| - 1 < 0 then "-" else "+") + ExponentDigits(Magnitude(k + |ds| - 1))
            && ReadExponent(After(text, 'e')) == k + |ds| - 1
  {
    hide IndexOf, Before, After, ExponentDigits, DecValue;
    var m, exp := Mantissa(ds), Magnitude(k + |ds| - 1);
    var sign := if k + |ds| - 1 < 0 then "-" else "+";
    MantissaReads(ds);
    Regroup(m, sign, ExponentDigits(exp));
    IndexOfFirst(m, 'e', sign + ExponentDigits(exp));
    ExponentDigitsValue(exp);
  }

  /** The text is in scientific notation exactly if it ends in at least eight zeros before the point, or in at least
      seven places behind it and the number is below a thousandth or not below ten thousand. */
  ghost predicate IsScientific(ds: seq<char>, k: int)
    requires AllDigits(ds)
  {
    k >= 8 || (k <= -7 && !(0.001 <= Decimal(DecValue(ds), k) < 10000.0))
  }

  /** The text holds an `e` exactly in this case. Without one the point stands behind the digit of the ones; with one
      it stands behind the first digit, and the exponent is the place of this digit. */
  lemma LayoutIs(ds: seq<char>, k: int, neg: bool)
    requires 1 <= |ds| <= 17 && AllDigits(ds) && ds[0] != '0' && Magnitude(k + |ds| - 1) < 1000
    ensures var text, top := EmitText(ds, k, neg), k + |ds| - 1;
            && ('e' in text <==> IsScientific(ds, k))
            && ('e' !in text ==> IndexOf(text, '.') == if top >= 0 then top + 1 else 1)
            && ('e' in text ==> text != [] && text[0] == ds[0] && (|ds| > 1 ==> |text| > 1 && text[1] == '.')
                                && ReadExponent(After(text, 'e')) == top)
  {
    hide PlainLayout, PointLayout, ScientificLayout, Decimal, DecValue, IndexOf, After, ReadExponent, AllDigits;
    NearPoint(ds, k);
    assert Kept(ds, neg) == ds;
    if k >= 0 { PlainHas(ds, k); } else { PointHas(ds, k); }
    ScientificHas(ds, k);
  }
}
