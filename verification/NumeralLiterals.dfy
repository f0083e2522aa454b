/** The digits of numerals against literals, in both directions. */
module NumeralLiterals {
  import opened Ascii
  import opened Bytes
  import opened NumeralsSpec

  lemma WrittenStep(digits: string, n: nat)
    requires |digits| > 1 && IsAscii(digits)
    ensures n < |digits| ==> Written(digits, n) == [digits[n] as int]
    ensures n >= |digits| ==>
              n / |digits| < n && Written(digits, n) == Written(digits, n / |digits|) + [digits[n % |digits|] as int]
  {
    Smaller(n, |digits|);
  }

  lemma NumeralStep(n: nat, base: nat)
    requires base == 10 || base == 16
    ensures n < base ==> Numeral(n, base) == [Digit(n)]
    ensures n >= base ==> Numeral(n, base) == Numeral(n / base, base) + [Digit(n % base)]
  {
  }

  lemma DigitsAreWritten(i: nat)
    ensures i < 10 ==> Digit(i) == DECIMAL[i] as int
    ensures i < 16 ==> Digit(i) == UPPER_HEX[i] as int
  {
    DigitsByNumber(i);
  }

  /** A decimal text is written with the digits 0123456789. */
  lemma {:induction false} DecimalIsWritten(n: nat)
    ensures IsAscii(DECIMAL) && Numeral(n, 10) == Written(DECIMAL, n)
  {
    hide Numeral, Written, Digit;
    LiteralsAreAscii();
    DigitsAreWritten(n % 10);
    WrittenStep(DECIMAL, n);
    NumeralStep(n, 10);
    if n >= 10 {
      DecimalIsWritten(n / 10);
    }
  }

  /** A hexadecimal text is written with the digits 0123456789ABCDEF. */
  lemma {:induction false} HexIsWritten(n: nat)
    ensures IsAscii(UPPER_HEX) && Numeral(n, 16) == Written(UPPER_HEX, n)
  {
    hide Numeral, Written, Digit;
    LiteralsAreAscii();
    DigitsAreWritten(n % 16);
    WrittenStep(UPPER_HEX, n);
    NumeralStep(n, 16);
    if n >= 16 {
      HexIsWritten(n / 16);
    }
  }

  /** The readers take a character for its place among the digits; the hexadecimal one takes both cases, and the ten
      control characters from 16 to 25 for the decimal digits. */
  lemma DigitsAreRead(b: Byte)
    ensures IsDigit(10, b) <==> DecimalPlace(b) >= 0
    ensures IsDigit(10, b) ==> DigitValue(10, b) == DecimalPlace(b)
    ensures IsDigit(16, b) <==> HexPlace(b) >= 0 || 16 <= b <= 25
    ensures IsDigit(16, b) ==> DigitValue(16, b) == if HexPlace(b) >= 0 then HexPlace(b) else b - 16
  {
    hide DecimalPlace, HexPlace;
    PlacesByNumber(b);
  }
}
