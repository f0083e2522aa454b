/** Powers of natural numbers, and of positive reals with any integer exponent. */
module Powers {

  function Pow(b: nat, n: nat): (r: nat)
    ensures b > 0 ==> r > 0
    decreases n
  {
    if n == 0 then 1 else b * Pow(b, n - 1)
  }

  lemma {:induction false} PowAdd(b: nat, m: nat, n: nat)
    ensures Pow(b, m + n) == Pow(b, m) * Pow(b, n)
    decreases m
  {
    if m > 0 {
      PowAdd(b, m - 1, n);
      assert Pow(b, m + n) == b * (Pow(b, m - 1) * Pow(b, n));
      Assoc(b, Pow(b, m - 1), Pow(b, n));
    }
  }

  lemma Assoc(x: int, y: int, z: int)
    ensures x * (y * z) == (x * y) * z
  {
  }

  lemma MulMono(x: nat, a: nat, y: nat, b: nat)
    requires x <= a && y <= b
    ensures x * y <= a * b
  {
    assert a * b - x * y == (a - x) * b + x * (b - y);
  }

  /** A larger exponent gives a larger power. */
  lemma {:induction false} PowMonotone(b: nat, m: nat, n: nat)
    requires b >= 2
    ensures m <= n ==> Pow(b, m) <= Pow(b, n)
    ensures m < n ==> Pow(b, m) < Pow(b, n)
    decreases n
  {
    if m < n {
      PowMonotone(b, m, n - 1);
      var p := Pow(b, n - 1);
      assert b * p >= 2 * p;
    }
  }

  ghost function RPow(b: real, n: int): (r: real)
    requires b > 0.0
    ensures r > 0.0
    decreases if n < 0 then -n else n
  {
    if n == 0 then 1.0
    else if n > 0 then b * RPow(b, n - 1)
    else RPow(b, n + 1) / b
  }

  lemma RPowStep(b: real, n: int)
    requires b > 0.0
    ensures RPow(b, n + 1) == b * RPow(b, n)
  {
    if n < 0 {
      assert RPow(b, n) == RPow(b, n + 1) / b;
      DivMul(RPow(b, n + 1), b);
    }
  }

  lemma DivMul(x: real, b: real)
    requires b != 0.0
    ensures b * (x / b) == x
  {
  }

  lemma RPowZero(b: real)
    requires b > 0.0
    ensures RPow(b, 0) == 1.0
  {
  }

  lemma {:induction false} RPowAdd(b: real, m: int, n: int)
    requires b > 0.0
    ensures RPow(b, m + n) == RPow(b, m) * RPow(b, n)
    decreases if m < 0 then -m else m
  {
    hide RPow;
    var p, q := RPow(b, m), RPow(b, n);
    if m == 0 {
      RPowZero(b);
    } else if m > 0 {
      calc {
        RPow(b, m + n);
        { RPowStep(b, m - 1 + n); }
        b * RPow(b, m - 1 + n);
        { RPowAdd(b, m - 1, n); }
        b * (RPow(b, m - 1) * q);
        { RAssoc(b, RPow(b, m - 1), q); }
        (b * RPow(b, m - 1)) * q;
        { RPowStep(b, m - 1); }
        p * q;
      }
    } else {
      calc {
        b * RPow(b, m + n);
        { RPowStep(b, m + n); }
        RPow(b, m + 1 + n);
        { RPowAdd(b, m + 1, n); }
        RPow(b, m + 1) * q;
        { RPowStep(b, m); }
        (b * p) * q;
        { RAssoc(b, p, q); }
        b * (p * q);
      }
      RCancel(b, RPow(b, m + n), p * q);
    }
  }

  lemma RAssoc(x: real, y: real, z: real)
    ensures x * (y * z) == (x * y) * z
  {
  }

  lemma RCancel(b: real, x: real, y: real)
    requires b > 0.0 && b * x == b * y
    ensures x == y
  {
  }

  /** Multiplying by a positive number keeps the order, and dividing by it too. */
  lemma ROrder(b: real, x: real, y: real)
    requires b > 0.0
    ensures x < y <==> b * x < b * y
    ensures x <= y <==> b * x <= b * y
  {
  }

  lemma {:induction false} RPowNat(b: nat, n: nat)
    requires b > 0
    ensures RPow(b as real, n) == Pow(b, n) as real
    decreases n
  {
    if n > 0 {
      RPowNat(b, n - 1);
      CastMul(b, Pow(b, n - 1));
    }
  }

  lemma CastMul(x: nat, y: nat)
    ensures (x * y) as real == (x as real) * (y as real)
  {
  }

  lemma RPowInverse(b: real, n: int)
    requires b > 0.0
    ensures RPow(b, n) * RPow(b, -n) == 1.0
  {
    RPowAdd(b, n, -n);
  }
}
