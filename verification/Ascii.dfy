/** Characters as octets, given by literals, and numerals written with the digits of a literal. */
module Ascii {
  import opened Bytes
  import opened Powers

  const UPPER: string := "ABCDEFGHIJKLMNOPQRSTUVWXYZ"
  const LOWER: string := "abcdefghijklmnopqrstuvwxyz"
  const DECIMAL: string := "0123456789"
  const UPPER_HEX: string := "0123456789ABCDEF"
  const LOWER_HEX: string := "0123456789abcdef"

  predicate IsAscii(text: string) {
    forall i :: 0 <= i < |text| ==> text[i] as int < 128
  }

  function Octets(text: string): (s: seq<Byte>)
    requires IsAscii(text)
    ensures |s| == |text| && forall i :: 0 <= i < |text| ==> s[i] == text[i] as int
  {
    seq(|text|, i requires 0 <= i < |text| => text[i] as int)
  }

  lemma LiteralsAreAscii()
    ensures IsAscii(DECIMAL) && IsAscii(UPPER_HEX) && IsAscii(LOWER_HEX)
  {
  }

  /** The place of an octet in a literal, or -1. */
  function Place(text: string, b: Byte): (r: int)
    ensures -1 <= r < |text| && (r >= 0 ==> text[r] as int == b)
    ensures r == -1 ==> forall i :: 0 <= i < |text| ==> text[i] as int != b
  {
    if text == "" then -1
    else if text[0] as int == b then 0
    else
      var r := Place(text[1..], b);
      if r < 0 then -1 else r + 1
  }

  /** The characters of the literals by their numbers. */
  lemma DigitsByNumber(i: nat)
    ensures i < 10 ==> DECIMAL[i] as int == 48 + i
    ensures i < 16 ==> UPPER_HEX[i] as int == if i < 10 then 48 + i else 55 + i
    ensures i < 16 ==> LOWER_HEX[i] as int == if i < 10 then 48 + i else 87 + i
  {
  }

  lemma LettersByNumber(i: nat)
    ensures |UPPER| == 26 && (i < 26 ==> UPPER[i] as int == 65 + i)
    ensures |LOWER| == 26 && (i < 26 ==> LOWER[i] as int == 97 + i)
  {
  }

  /** One of the letters. */
  predicate IsLetter(b: Byte) {
    Place(UPPER, b) >= 0 || Place(LOWER, b) >= 0
  }

  lemma IsLetterByNumber(b: Byte)
    ensures IsLetter(b) <==> 65 <= b <= 90 || 97 <= b <= 122
  {
    hide Place;
    LettersByNumber(0);
    if Place(UPPER, b) >= 0 { LettersByNumber(Place(UPPER, b)); }
    if Place(LOWER, b) >= 0 { LettersByNumber(Place(LOWER, b)); }
    if 65 <= b <= 90 { LettersByNumber(b - 65); }
    if 97 <= b <= 122 { LettersByNumber(b - 97); }
  }

  /** The value of a decimal digit, or -1. */
  function DecimalPlace(b: Byte): int {
    Place(DECIMAL, b)
  }

  /** The value of a hexadecimal digit in either case, or -1. */
  function HexPlace(b: Byte): int {
    if Place(UPPER_HEX, b) >= 0 then Place(UPPER_HEX, b) else Place(LOWER_HEX, b)
  }

  lemma PlacesByNumber(b: Byte)
    ensures DecimalPlace(b) == if 48 <= b <= 57 then b - 48 else -1
    ensures HexPlace(b) == if 48 <= b <= 57 then b - 48 else if 65 <= b <= 70 then b - 55
                           else if 97 <= b <= 102 then b - 87 else -1
  {
    hide Place;
    DecimalIs(b);
    UpperIs(b);
    LowerIs(b);
  }

  lemma DecimalIs(b: Byte)
    ensures Place(DECIMAL, b) == if 48 <= b <= 57 then b - 48 else -1
  {
    hide Place;
    var r := Place(DECIMAL, b);
    if r >= 0 { DigitsByNumber(r); }
    if 48 <= b <= 57 { DigitsByNumber(b - 48); }
  }

  lemma UpperIs(b: Byte)
    ensures Place(UPPER_HEX, b) == if 48 <= b <= 57 then b - 48 else if 65 <= b <= 70 then b - 55 else -1
  {
    hide Place;
    var r := Place(UPPER_HEX, b);
    if r >= 0 { DigitsByNumber(r); }
    if 48 <= b <= 57 { DigitsByNumber(b - 48); }
    if 65 <= b <= 70 { DigitsByNumber(b - 55); }
  }

  lemma LowerIs(b: Byte)
    ensures Place(LOWER_HEX, b) == if 48 <= b <= 57 then b - 48 else if 97 <= b <= 102 then b - 87 else -1
  {
    hide Place;
    var r := Place(LOWER_HEX, b);
    if r >= 0 { DigitsByNumber(r); }
    if 48 <= b <= 57 { DigitsByNumber(b - 48); }
    if 97 <= b <= 102 { DigitsByNumber(b - 87); }
  }

  lemma Smaller(n: nat, b: nat)
    requires b > 1
    ensures 0 <= n % b < b && n == n / b * b + n % b && (n >= b ==> 0 < n / b < n)
  {
    var q, r := n / b, n % b;
    assert n == q * b + r;
    if n >= b {
      assert q > 0;
      MulMono(q, q, 2, b);
    }
  }

  /** The numeral of a number: dividing by the number of digits, the least significant digit last. */
  function Written(digits: string, n: nat): (s: seq<Byte>)
    requires |digits| > 1 && IsAscii(digits)
    ensures s != []
    decreases n
  {
    Smaller(n, |digits|);
    (if n < |digits| then [] else Written(digits, n / |digits|)) + [digits[n % |digits|] as int]
  }

  /** A numeral of `k` digits is that of a number below the power. */
  lemma {:induction false} WrittenLength(digits: string, n: nat, k: nat)
    requires |digits| > 1 && IsAscii(digits) && k > 0
    ensures |Written(digits, n)| <= k <==> n < Pow(|digits|, k)
    decreases k
  {
    var b := |digits|;
    if k == 1 {
      assert Pow(b, 1) == b by { assert Pow(b, 0) == 1; }
    } else {
      assert Pow(b, k) == b * Pow(b, k - 1);
      hide Pow;
      Below(n, b, Pow(b, k - 1));
      WrittenLength(digits, n / b, k - 1);
      if n < b { MulMono(b, b, 1, Pow(b, k - 1)); }
    }
  }

  lemma Below(n: nat, b: nat, p: nat)
    requires b > 0
    ensures n / b < p <==> n < b * p
  {
    var q, r := n / b, n % b;
    assert n == b * q + r;
    if q < p {
      MulMono(b, b, q + 1, p);
    } else {
      MulMono(b, b, p, q);
    }
  }
}
