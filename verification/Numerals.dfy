/** Integers as text: the numeral of a number in a base, and what a text that begins with a numeral denotes. */
module NumeralsSpec {
  import opened Bytes
  import opened Options
  import opened Powers
  import opened Words

  const INT64_MAX: int := 0x7FFF_FFFF_FFFF_FFFF
  const INT64_MIN: int := -0x8000_0000_0000_0000

  const ZERO: Byte := 48
  const PLUS: Byte := 43
  const MINUS: Byte := 45
  const LOWER_X: Byte := 120

  /// Writing

  /** The character of a digit, cut to eight bits for the digits above Z. */
  function Digit(r: Byte): Byte {
    if r >= 10 then (55 + r) % 256 else 48 + r
  }

  /** The numeral of n, most significant digit first. */
  function Numeral(n: nat, base: nat): (t: seq<Byte>)
    requires 2 <= base < 256
    ensures |t| >= 1
  {
    if n < base then [Digit(n)] else Shrinks(n, base); Numeral(n / base, base) + [Digit(n % base)]
  }

  lemma Shrinks(n: nat, base: nat)
    requires base >= 2 && n > 0
    ensures 0 <= n / base < n
  {
    assert n == base * (n / base) + n % base;
  }

  function SignedNumeral(v: int): seq<Byte> {
    if v < 0 then [MINUS] + Numeral(-v, 10) else Numeral(v, 10)
  }

  /** A numeral has no more digits than its bound asks for. */
  lemma {:induction false} NumeralFits(n: nat, base: nat, k: nat)
    requires 2 <= base < 256 && k >= 1 && n < Pow(base, k)
    ensures |Numeral(n, base)| <= k
  {
    assert Pow(base, 1) == base;
    if n >= base {
      Shrinks(n, base);
      assert n == base * (n / base) + n % base;
      assert Pow(base, k) == base * Pow(base, k - 1);
      if n / base >= Pow(base, k - 1) {
        MulMono(base, base, Pow(base, k - 1), n / base);
        assert false;
      }
      NumeralFits(n / base, base, k - 1);
    }
  }

  /** No text is longer than twenty characters, the sign included. */
  lemma TextsAreShort(n: nat, v: int)
    requires n < W64 && INT64_MIN <= v <= INT64_MAX
    ensures |Numeral(n, 10)| <= 20 && |Numeral(n, 16)| <= 16 && |SignedNumeral(v)| <= 20
  {
    PowersOfTen();
    PowersOfSixteen();
    NumeralFits(n, 10, 20);
    NumeralFits(n, 16, 16);
    NumeralFits(if v < 0 then -v else v, 10, 19);
  }

  lemma PowersOfTen()
    ensures Pow(10, 19) == 10000000000000000000
    ensures Pow(10, 20) == 100000000000000000000
  {
    assert Pow(10, 4) == 10000;
    assert Pow(10, 8) == 100000000;
    assert Pow(10, 12) == 1000000000000;
    assert Pow(10, 16) == 10000000000000000;
  }

  lemma PowersOfSixteen()
    ensures Pow(16, 16) == W64
  {
    assert Pow(16, 4) == 0x1_0000;
    assert Pow(16, 8) == 0x1_0000_0000;
    assert Pow(16, 12) == 0x1_0000_0000_0000;
  }

  /// Reading

  /** The character with the bit of value 32 set, which turns upper case into lower case. */
  function Or32(b: Byte): Byte {
    if b / 32 % 2 == 1 then b else b + 32
  }

  predicate IsDigit(base: nat, b: Byte) {
    if base == 16 then 48 <= Or32(b) <= 57 || 97 <= Or32(b) <= 102 else 48 <= b <= 57
  }

  function DigitValue(base: nat, b: Byte): (v: nat)
    requires IsDigit(base, b)
    ensures v < if base == 16 then 16 else 10
  {
    if base == 16 then (if Or32(b) <= 57 then Or32(b) - 48 else Or32(b) - 87) else b - 48
  }

  /** Which characters the hexadecimal reader takes: beside the digits, ten control characters. */
  lemma HexDigits(b: Byte)
    ensures IsDigit(16, b) <==> 48 <= b <= 57 || 65 <= b <= 70 || 97 <= b <= 102 || 16 <= b <= 25
  {
  }

  ghost predicate AllDigits(base: nat, s: seq<Byte>) {
    forall i :: 0 <= i < |s| ==> IsDigit(base, s[i])
  }

  /** How many digits the text begins with. */
  function Run(base: nat, s: seq<Byte>): (k: nat)
    ensures k <= |s|
  {
    if s == [] || !IsDigit(base, s[0]) then 0 else 1 + Run(base, s[1..])
  }

  /** The number that digits denote, unbounded. */
  ghost function ValueOf(base: nat, s: seq<Byte>): nat
    requires AllDigits(base, s)
  {
    if s == [] then 0 else base * ValueOf(base, s[..|s| - 1]) + DigitValue(base, s[|s| - 1])
  }

  predicate IsHex(s: seq<Byte>) {
    |s| > 2 && s[0] == ZERO && Or32(s[1]) == LOWER_X
  }

  function Base(s: seq<Byte>): nat {
    if IsHex(s) then 16 else 10
  }

  function Skip(s: seq<Byte>): nat {
    if IsHex(s) then 2 else 0
  }

  lemma AllDigitsFirst(base: nat, s: seq<Byte>)
    requires s != []
    ensures AllDigits(base, s) <==> IsDigit(base, s[0]) && AllDigits(base, s[1..])
  {
    hide IsDigit;
    assert s == [s[0]] + s[1..];
    if IsDigit(base, s[0]) && AllDigits(base, s[1..]) {
      forall i | 0 <= i < |s|
        ensures IsDigit(base, s[i])
      {
        if i > 0 { assert s[i] == s[1..][i - 1]; }
      }
    }
  }

  lemma {:induction false} RunIsDigits(base: nat, s: seq<Byte>, k: nat)
    requires k <= |s|
    ensures k == Run(base, s) <==> AllDigits(base, s[..k]) && (k < |s| ==> !IsDigit(base, s[k]))
  {
    hide IsDigit;
    if s == [] {
    } else if !IsDigit(base, s[0]) {
      assert k > 0 ==> s[..k][0] == s[0];
    } else if k > 0 {
      hide AllDigits;
      RunIsDigits(base, s[1..], k - 1);
      assert s[..k][1..] == s[1..][..k - 1];
      AllDigitsFirst(base, s[..k]);
    }
  }

  /** The digits that the text begins with, after the prefix of a hexadecimal numeral. */
  ghost function Digits(s: seq<Byte>): (d: seq<Byte>)
    ensures AllDigits(Base(s), d)
  {
    var t := s[Skip(s)..];
    var k := Run(Base(s), t);
    RunIsDigits(Base(s), t, k);
    t[..k]
  }

  /// Reading into 64 bits

  /** What is left of the number in 64 bits. */
  ghost function Wrapped(base: nat, s: seq<Byte>): nat
    requires AllDigits(base, s)
  {
    ValueOf(base, s) % W64
  }

  /** The overflow test: after some digit the number left in 64 bits is smaller than before. */
  ghost predicate Drops(base: nat, s: seq<Byte>)
    requires AllDigits(base, s)
  {
    exists k :: 0 < k <= |s| && Wrapped(base, s[..k]) < Wrapped(base, s[..k - 1])
  }

  /** The number of characters read, zero upon failure, and the number stored, if any. */
  datatype Parsed = Parsed(len: nat, value: Option<int>)

  ghost function Unsigned(s: seq<Byte>): Parsed {
    var d := Digits(s);
    if Drops(Base(s), d) then Parsed(0, None)
    else Parsed(if IsHex(s) && d == [] then 0 else Skip(s) + |d|, Some(Wrapped(Base(s), d)))
  }

  ghost function Signed(s: seq<Byte>): Parsed
    requires s != []
  {
    var i := if s[0] == MINUS || s[0] == PLUS then 1 else 0;
    var u := Unsigned(s[i..]);
    if u.len == 0 || u.value.None? then Parsed(0, None)
    else if s[0] == MINUS then
      if u.value.value > INT64_MAX + 1 then Parsed(0, None) else Parsed(i + u.len, Some(-u.value.value))
    else
      if u.value.value > INT64_MAX then Parsed(0, None) else Parsed(i + u.len, u.value)
  }

  /** Fewer digits denote no more. */
  lemma {:induction false} PrefixIsSmaller(base: nat, s: seq<Byte>, k: nat)
    requires base >= 1 && AllDigits(base, s) && k <= |s|
    ensures AllDigits(base, s[..k]) && ValueOf(base, s[..k]) <= ValueOf(base, s)
  {
    if k == |s| {
      assert s[..k] == s;
    } else {
      var t := s[..|s| - 1];
      PrefixIsSmaller(base, t, k);
      assert t[..k] == s[..k];
      MulMono(1, base, ValueOf(base, t), ValueOf(base, t));
    }
  }

  /** A number that 64 bits can hold never trips the overflow test. */
  lemma FittingNeverDrops(base: nat, s: seq<Byte>)
    requires base >= 1 && AllDigits(base, s) && ValueOf(base, s) < W64
    ensures !Drops(base, s) && Wrapped(base, s) == ValueOf(base, s)
  {
    forall k | 0 < k <= |s|
      ensures Wrapped(base, s[..k - 1]) <= Wrapped(base, s[..k])
    {
      PrefixIsSmaller(base, s, k);
      PrefixIsSmaller(base, s[..k], k - 1);
      assert s[..k][..k - 1] == s[..k - 1];
    }
  }

  /** Reading is right exactly when the number fits: then it is read, and otherwise it is refused
      or something else is stored. */
  lemma RightIffFits(s: seq<Byte>)
    requires Digits(s) != []
    ensures Unsigned(s) == Parsed(Skip(s) + |Digits(s)|, Some(ValueOf(Base(s), Digits(s))))
      <==> ValueOf(Base(s), Digits(s)) < W64
  {
    if ValueOf(Base(s), Digits(s)) < W64 {
      FittingNeverDrops(Base(s), Digits(s));
    }
  }

  /** Which numbers the overflow test catches at the digit that overflows: the wrapped number must
      fall below the one before it. */
  lemma CaughtIff(base: nat, s: seq<Byte>, b: Byte)
    requires base >= 1 && AllDigits(base, s) && IsDigit(base, b)
    requires ValueOf(base, s) < W64
    ensures AllDigits(base, s + [b])
    ensures var v := base * ValueOf(base, s) + DigitValue(base, b);
            Drops(base, s + [b]) <==> v - ValueOf(base, s) < v / W64 * W64
  {
    var t := s + [b];
    assert t[..|t|] == t && t[..|t| - 1] == s;
    FittingNeverDrops(base, s);
    forall k | 0 < k <= |s|
      ensures Wrapped(base, t[..k]) >= Wrapped(base, t[..k - 1])
    {
      assert t[..k] == s[..k] && t[..k - 1] == s[..k - 1];
    }
    var v := ValueOf(base, t);
    assert v == v / W64 * W64 + v % W64;
  }

  /// Round trips

  lemma {:induction false} NumeralIsRead(n: nat, base: nat)
    requires base == 10 || base == 16
    ensures AllDigits(base, Numeral(n, base)) && ValueOf(base, Numeral(n, base)) == n
  {
    if n < base {
      DigitIsRead(n, base);
      assert [Digit(n)][..0] == [];
    } else {
      Shrinks(n, base);
      NumeralIsRead(n / base, base);
      DigitIsRead(n % base, base);
      var t := Numeral(n / base, base);
      assert (t + [Digit(n % base)])[..|t|] == t;
    }
  }

  lemma DigitIsRead(r: nat, base: nat)
    requires r < base && (base == 10 || base == 16)
    ensures IsDigit(base, Digit(r)) && DigitValue(base, Digit(r)) == r
  {
  }

  lemma {:induction false} LeadingZero(n: nat)
    ensures Numeral(n, 10)[0] == ZERO <==> n == 0
  {
    if n >= 10 {
      Shrinks(n, 10);
      LeadingZero(n / 10);
    }
  }

  lemma RunOf(base: nat, d: seq<Byte>, rest: seq<Byte>)
    requires AllDigits(base, d) && (rest != [] ==> !IsDigit(base, rest[0]))
    ensures Run(base, d + rest) == |d| && (d + rest)[..|d|] == d
  {
    assert (d + rest)[..|d|] == d;
    RunIsDigits(base, d + rest, |d|);
  }

  lemma DecimalIsRead(n: nat, rest: seq<Byte>)
    requires n < W64 && (rest != [] ==> !IsDigit(10, rest[0]))
    requires !IsHex(Numeral(n, 10) + rest)
    ensures Unsigned(Numeral(n, 10) + rest) == Parsed(|Numeral(n, 10)|, Some(n))
  {
    var d := Numeral(n, 10);
    NumeralIsRead(n, 10);
    RunOf(10, d, rest);
    assert (d + rest)[0..] == d + rest;
    assert Digits(d + rest) == d;
    FittingNeverDrops(10, d);
  }

  /** The one text that reads differently behind a decimal numeral: a zero before an x is the
      prefix of a hexadecimal numeral. */
  predicate LooksHex(n: nat, rest: seq<Byte>) {
    n == 0 && |rest| >= 2 && Or32(rest[0]) == LOWER_X
  }

  lemma LooksHexIff(n: nat, rest: seq<Byte>)
    requires rest != [] ==> !IsDigit(10, rest[0])
    ensures IsHex(Numeral(n, 10) + rest) <==> LooksHex(n, rest)
  {
    var d := Numeral(n, 10);
    LeadingZero(n);
    NumeralIsRead(n, 10);
    if |d| > 1 {
      assert IsDigit(10, d[1]);
    }
    assert n == 0 ==> d == [ZERO];
  }

  /** Behind a decimal numeral the reader returns its number and its length, whatever follows the
      digits, exactly when the text does not look hexadecimal. */
  lemma DecimalRoundTrip(n: nat, rest: seq<Byte>)
    requires n < W64 && (rest != [] ==> !IsDigit(10, rest[0]))
    ensures Unsigned(Numeral(n, 10) + rest) == Parsed(|Numeral(n, 10)|, Some(n)) <==> !LooksHex(n, rest)
  {
    LooksHexIff(n, rest);
    if LooksHex(n, rest) {
      assert |Numeral(n, 10)| == 1;
    } else {
      DecimalIsRead(n, rest);
    }
  }

  /** The prefix 0x and the numeral in base sixteen read as the number. */
  lemma HexRoundTrip(n: nat, rest: seq<Byte>)
    requires n < W64 && (rest != [] ==> !IsDigit(16, rest[0]))
    ensures Unsigned([ZERO, LOWER_X] + Numeral(n, 16) + rest) == Parsed(2 + |Numeral(n, 16)|, Some(n))
  {
    var d := Numeral(n, 16);
    var s := [ZERO, LOWER_X] + d + rest;
    assert s[2..] == d + rest;
    NumeralIsRead(n, 16);
    RunOf(16, d, rest);
    assert Digits(s) == d;
    FittingNeverDrops(16, d);
  }

  /** Every 64-bit integer, the least one included, reads back from its text. */
  lemma SignedRoundTrip(v: int, rest: seq<Byte>)
    requires INT64_MIN <= v <= INT64_MAX && (rest != [] ==> !IsDigit(10, rest[0]))
    requires !(v == 0 && LooksHex(0, rest))
    ensures Signed(SignedNumeral(v) + rest) == Parsed(|SignedNumeral(v)|, Some(v))
  {
    hide Unsigned, Numeral, ValueOf;
    var n := if v < 0 then -v else v;
    var d := Numeral(n, 10);
    var s := SignedNumeral(v) + rest;
    LooksHexIff(n, rest);
    DecimalIsRead(n, rest);
    if v < 0 {
      assert s[1..] == d + rest;
    } else {
      NumeralIsRead(n, 10);
      assert IsDigit(10, d[0]);
      assert s[0..] == d + rest;
    }
  }

  /** What is read from a numeral that fits and one more digit: the test catches the overflow
      exactly when the wrapped number falls below the numeral's own. */
  lemma DigitBehind(n: nat, b: Byte)
    requires 0 < n < W64 && IsDigit(10, b)
    ensures var s, v := Numeral(n, 10) + [b], 10 * n + DigitValue(10, b);
            Unsigned(s) == if v - n < v / W64 * W64 then Parsed(0, None) else Parsed(|s|, Some(v % W64))
  {
    hide Numeral, DigitValue;
    var d := Numeral(n, 10);
    var s := d + [b];
    NumeralIsRead(n, 10);
    CaughtIff(10, d, b);
    assert s[..|s| - 1] == d;
    LeadingZero(n);
    assert s[0] == d[0];
    RunOf(10, s, []);
    assert s[0..] == s + [];
    assert Digits(s) == s;
  }

  const MISSED: nat := 3000000000000000000

  /** The overflow test is not exact: for three times ten to the nineteenth another number is stored. */
  lemma OverflowIsMissed()
    ensures var s := Numeral(MISSED, 10) + [ZERO];
            Unsigned(s) == Parsed(|s|, Some(10 * MISSED - W64))
  {
    hide Numeral, Unsigned;
    DigitBehind(MISSED, ZERO);
  }
}

/** The writers, which put the digits down backwards and turn them round, and the readers. */
module Numerals {
  import opened Bytes
  import opened Options
  import opened NumeralsSpec
  import opened Words

  function Reversed(s: seq<Byte>): seq<Byte> {
    seq(|s|, k requires 0 <= k < |s| => s[|s| - 1 - k])
  }

  /** Turns the characters from lo to hi round. */
  method Reverse(buffer: array<Byte>, lo: nat, hi: nat)
    requires hi < buffer.Length
    modifies buffer
    ensures forall k :: 0 <= k < buffer.Length ==>
      buffer[k] == if lo <= k <= hi then old(buffer[lo + hi - k]) else old(buffer[k])
  {
    var i, j := lo, hi;
    while i < j
      invariant lo <= i && j <= hi && i + j == lo + hi && (i <= j + 1 || i == lo)
      invariant forall k :: 0 <= k < buffer.Length ==>
        buffer[k] == if lo <= k < i || j < k <= hi then old(buffer[lo + hi - k]) else old(buffer[k])
      decreases j - i
    {
      buffer[i], buffer[j] := buffer[j], buffer[i];
      i, j := i + 1, j - 1;
    }
  }

  method ReversePrefix(buffer: array<Byte>, n: nat)
    requires 0 < n <= buffer.Length
    modifies buffer
    ensures buffer[..n] == Reversed(old(buffer[..n]))
    ensures forall k :: n <= k < buffer.Length ==> buffer[k] == old(buffer[k])
  {
    Reverse(buffer, 0, n - 1);
  }

  /** The digits of n, least significant first; none for zero. */
  function Backward(n: nat, base: nat): seq<Byte>
    requires 2 <= base < 256
  {
    if n == 0 then [] else Shrinks(n, base); [Digit(n % base)] + Backward(n / base, base)
  }

  lemma ReversedCons(d: Byte, s: seq<Byte>)
    ensures Reversed([d] + s) == Reversed(s) + [d]
  {
  }

  lemma {:induction false} BackwardIsReversed(n: nat, base: nat)
    requires 2 <= base < 256 && n > 0
    ensures Reversed(Backward(n, base)) == Numeral(n, base)
  {
    Shrinks(n, base);
    ReversedCons(Digit(n % base), Backward(n / base, base));
    if n < base {
      Small(n, base);
      assert Reversed([]) == [];
    } else {
      Large(n, base);
      BackwardIsReversed(n / base, base);
    }
  }

  lemma Small(n: nat, base: nat)
    requires 0 <= n < base
    ensures n % base == n && n / base == 0
  {
  }

  lemma Large(n: nat, base: nat)
    requires 0 < base <= n
    ensures n / base > 0
  {
    assert n == base * (n / base) + n % base;
  }

  lemma ReversedLength(n: nat, base: nat)
    requires 2 <= base < 256
    ensures n > 0 ==> |Backward(n, base)| == |Numeral(n, base)|
  {
    if n > 0 {
      BackwardIsReversed(n, base);
    }
  }

  method Put(buffer: array<Byte>, i: nat, b: Byte)
    requires i < buffer.Length
    modifies buffer
    ensures buffer[..i + 1] == old(buffer[..i]) + [b]
    ensures forall k :: i < k < buffer.Length ==> buffer[k] == old(buffer[k])
  {
    buffer[i] := b;
  }

  /** One step of writing: the digit put down is the next of those still to come. */
  lemma PutStep(front: seq<Byte>, n: nat, base: nat)
    requires 2 <= base < 256 && n > 0
    ensures front + Backward(n, base) == front + [Digit(n % base)] + Backward(n / base, base)
    ensures |Backward(n, base)| == 1 + |Backward(n / base, base)|
  {
    Shrinks(n, base);
  }

  /** Writes the digits of a number, least significant first, and a zero for zero. */
  method PutDigits(value: nat, buffer: array<Byte>, base: nat) returns (i: nat)
    requires 2 <= base < 256 && |Numeral(value, base)| <= buffer.Length
    modifies buffer
    ensures i == |Numeral(value, base)| && Reversed(buffer[..i]) == Numeral(value, base)
    ensures forall k :: i <= k < buffer.Length ==> buffer[k] == old(buffer[k])
  {
    hide Numeral, Backward;
    var n: nat := value;
    i := 0;
    ReversedLength(value, base);
    while n != 0
      invariant i <= buffer.Length && (n > 0 ==> i + |Backward(n, base)| <= buffer.Length)
      invariant buffer[..i] + Backward(n, base) == Backward(value, base)
      invariant forall k :: i <= k < buffer.Length ==> buffer[k] == old(buffer[k])
      decreases n
    {
      var r := n % base;
      Shrinks(n, base);
      PutStep(buffer[..i], n, base);
      if r >= 10 {
        Put(buffer, i, (65 + (r - 10)) % 256);
      } else {
        Put(buffer, i, 48 + r);
      }
      i := i + 1;
      n := n / base;
    }
    NoDigits(value, base);
    if i == 0 {
      ZeroIsOneDigit(base);
      Put(buffer, i, 48);
      i := i + 1;
    } else {
      BackwardIsReversed(value, base);
    }
  }

  /** Only zero has no digits to write. */
  lemma NoDigits(value: nat, base: nat)
    requires 2 <= base < 256
    ensures Backward(0, base) == [] && (Backward(value, base) == [] <==> value == 0)
  {
  }

  lemma ZeroIsOneDigit(base: nat)
    requires 2 <= base < 256
    ensures Numeral(0, base) == [48] == Reversed([48])
  {
  }

  /** Writes a number in a base, terminated by a NUL, and returns the length of its text. */
  method ItoaUnsigned(value: nat, buffer: array<Byte>, base: nat) returns (n: nat)
    requires value < W64 && 2 <= base < 256 && |Numeral(value, base)| < buffer.Length
    modifies buffer
    ensures n == |Numeral(value, base)|
    ensures buffer[..n] == Numeral(value, base) && buffer[n] == 0
    ensures buffer[n + 1..] == old(buffer[n + 1..])
  {
    hide Numeral, Reversed;
    n := PutDigits(value, buffer, base);
    Put(buffer, n, 0);
    assert buffer[..n] == buffer[..n + 1][..n] && buffer[n] == buffer[..n + 1][n];
    ReversePrefix(buffer, n);
  }

  /** Writes a signed number in base ten, terminated by a NUL. */
  method ItoaSigned(value: int, buffer: array<Byte>) returns (n: nat)
    requires INT64_MIN <= value <= INT64_MAX && |SignedNumeral(value)| < buffer.Length
    modifies buffer
    ensures n == |SignedNumeral(value)|
    ensures buffer[..n] == SignedNumeral(value) && buffer[n] == 0
    ensures buffer[n + 1..] == old(buffer[n + 1..])
  {
    hide Numeral, Reversed;
    var magnitude: nat;
    if value == INT64_MIN {
      magnitude := INT64_MAX + 1;
    } else {
      magnitude := value % W64;
      if value < 0 {
        magnitude := -value;
      }
    }
    n := PutDigits(magnitude, buffer, 10);
    if value < 0 {
      ReversedSnoc(buffer[..n], MINUS);
      Put(buffer, n, MINUS);
      n := n + 1;
    }
    Put(buffer, n, 0);
    assert buffer[..n] == buffer[..n + 1][..n] && buffer[n] == buffer[..n + 1][n];
    ReversePrefix(buffer, n);
  }

  lemma ReversedSnoc(s: seq<Byte>, d: Byte)
    ensures Reversed(s + [d]) == [d] + Reversed(s)
  {
  }

  lemma WrapStep(base: nat, s: seq<Byte>, k: nat)
    requires base == 10 || base == 16
    requires k < |s| && AllDigits(base, s[..k]) && IsDigit(base, s[k])
    ensures AllDigits(base, s[..k + 1])
    ensures Wrapped(base, s[..k + 1]) == (base * Wrapped(base, s[..k]) + DigitValue(base, s[k])) % W64
  {
    var t := s[..k + 1];
    assert t[..k] == s[..k] && t[k] == s[k];
    forall i | 0 <= i < |t|
      ensures IsDigit(base, t[i])
    {
      if i < k {
        assert t[i] == s[..k][i];
      }
    }
    WrapDigit(base, ValueOf(base, s[..k]), DigitValue(base, s[k]));
  }

  lemma WrapDigit(base: nat, v: nat, d: nat)
    requires base == 10 || base == 16
    ensures (base * (v % W64) + d) % W64 == (base * v + d) % W64
  {
    var q := v / W64;
    assert base * v + d == base * (v % W64) + d + (base * q) * W64;
    Whole(base * (v % W64) + d, base * q);
  }

  lemma Whole(x: nat, q: nat)
    ensures (x + q * W64) % W64 == x % W64
  {
  }

  lemma Shifted(n: nat, d: nat)
    ensures (n * 8 % W64 + n * 2 % W64 + d) % W64 == (10 * n + d) % W64
  {
    var p, q := n * 8 / W64, n * 2 / W64;
    assert 10 * n + d == n * 8 % W64 + n * 2 % W64 + d + (p + q) * W64;
    Whole(n * 8 % W64 + n * 2 % W64 + d, p + q);
  }

  /** One more digit trips the overflow test or not. */
  lemma DropStep(base: nat, s: seq<Byte>, k: nat)
    requires k < |s| && AllDigits(base, s[..k + 1]) && AllDigits(base, s[..k])
    ensures Drops(base, s[..k + 1]) <==>
      Drops(base, s[..k]) || Wrapped(base, s[..k + 1]) < Wrapped(base, s[..k])
  {
    hide Wrapped, IsDigit;
    var t, u := s[..k + 1], s[..k];
    assert t[..k + 1] == t && t[..k] == u;
    if Drops(base, u) {
      var j :| 0 < j <= |u| && Wrapped(base, u[..j]) < Wrapped(base, u[..j - 1]);
      assert t[..j] == u[..j] && t[..j - 1] == u[..j - 1];
    }
    if Drops(base, t) {
      var j :| 0 < j <= |t| && Wrapped(base, t[..j]) < Wrapped(base, t[..j - 1]);
      if j <= k {
        assert t[..j] == u[..j] && t[..j - 1] == u[..j - 1];
      }
    }
  }

  /** Once the test has tripped it has tripped for every longer run of digits. */
  lemma {:induction false} DropsStay(base: nat, s: seq<Byte>, k: nat)
    requires AllDigits(base, s) && k <= |s| && AllDigits(base, s[..k]) && Drops(base, s[..k])
    ensures Drops(base, s)
  {
    var u := s[..k];
    var j :| 0 < j <= |u| && Wrapped(base, u[..j]) < Wrapped(base, u[..j - 1]);
    assert s[..j] == u[..j] && s[..j - 1] == u[..j - 1];
  }

  /** The value of a hexadecimal digit as the code computes it, or none. Its branch for upper case
      is never reached, because the bit that makes a letter lower case is already set. */
  function HexDigit(b: Byte): (r: Option<nat>)
    ensures r == if IsDigit(16, b) then Some(DigitValue(16, b)) else None
  {
    var c := Or32(b);
    if 48 <= c <= 57 then Some(c - 48)
    else if 97 <= c <= 102 then Some(c - 97 + 10)
    else None
  }

  /** The number read from the digits so far, none of which tripped the overflow test. */
  ghost predicate Reading(base: nat, s: seq<Byte>, k: nat, n: nat) {
    && k <= |s| && AllDigits(base, s[..k])
    && n == Wrapped(base, s[..k]) && !Drops(base, s[..k])
  }

  lemma ReadNothing(base: nat, s: seq<Byte>)
    ensures Reading(base, s, 0, 0)
  {
    var none: seq<Byte> := s[..0];
    assert none == [];
  }

  /** A further digit is taken in, or trips the test for good. */
  lemma ReadDigit(base: nat, s: seq<Byte>, k: nat, n: nat)
    requires base == 10 || base == 16
    requires Reading(base, s, k, n) && k < |s| && IsDigit(base, s[k])
    ensures var m := (base * n + DigitValue(base, s[k])) % W64;
            if m >= n then Reading(base, s, k + 1, m)
            else k < Run(base, s) && AllDigits(base, s[..Run(base, s)]) && Drops(base, s[..Run(base, s)])
  {
    hide Drops, Wrapped, IsDigit, Run;
    WrapStep(base, s, k);
    DropStep(base, s, k);
    var r := Run(base, s);
    RunIsDigits(base, s, r);
    if Drops(base, s[..k + 1]) {
      RunCovers(base, s, k + 1);
      assert s[..r][..k + 1] == s[..k + 1];
      DropsStay(base, s[..r], k + 1);
    }
  }

  lemma RunCovers(base: nat, s: seq<Byte>, k: nat)
    requires k <= |s| && AllDigits(base, s[..k])
    ensures k <= Run(base, s)
  {
    var r := Run(base, s);
    RunIsDigits(base, s, r);
  }

  lemma ReadAll(base: nat, s: seq<Byte>, k: nat, n: nat)
    requires Reading(base, s, k, n) && (k < |s| ==> !IsDigit(base, s[k]))
    ensures k == Run(base, s)
  {
    RunIsDigits(base, s, k);
  }

  /** Reads hexadecimal digits up to the first other character; None is the overflow return. */
  method ReadHex(s: seq<Byte>) returns (k: nat, result: Option<nat>)
    ensures k <= |s| && AllDigits(16, s[..Run(16, s)])
    ensures result.None? <==> Drops(16, s[..Run(16, s)])
    ensures result.Some? ==> k == Run(16, s) && result.value == Wrapped(16, s[..k])
  {
    hide Drops, Wrapped, Run, IsDigit;
    RunIsDigits(16, s, Run(16, s));
    k := 0;
    var n: nat, prev: nat := 0, 0;
    ReadNothing(16, s);
    while k < |s|
      invariant k <= |s| && prev == n && Reading(16, s, k, n)
    {
      var c := HexDigit(s[k]);
      if c.None? {
        break;
      }
      ReadDigit(16, s, k, n);
      n := (n * 16 + c.value) % W64;
      if n < prev {
        return k, None;
      }
      prev := n;
      k := k + 1;
    }
    ReadAll(16, s, k, n);
    return k, Some(n);
  }

  /** Reads decimal digits up to the first other character; None is the overflow return. */
  method ReadDecimal(s: seq<Byte>) returns (k: nat, result: Option<nat>)
    ensures k <= |s| && AllDigits(10, s[..Run(10, s)])
    ensures result.None? <==> Drops(10, s[..Run(10, s)])
    ensures result.Some? ==> k == Run(10, s) && result.value == Wrapped(10, s[..k])
  {
    hide Drops, Wrapped, Run;
    RunIsDigits(10, s, Run(10, s));
    k := 0;
    var n: nat, prev: nat := 0, 0;
    ReadNothing(10, s);
    while k < |s|
      invariant k <= |s| && prev == n && Reading(10, s, k, n)
    {
      if s[k] < 48 || s[k] > 57 {
        break;
      }
      ReadDigit(10, s, k, n);
      Shifted(n, s[k] - 48);
      n := (n * 8 % W64 + n * 2 % W64 + (s[k] - 48)) % W64;
      if n < prev {
        return k, None;
      }
      prev := n;
      k := k + 1;
    }
    ReadAll(10, s, k, n);
    return k, Some(n);
  }

  /** Reads an unsigned number at the start of a text. */
  method ParseUInt64(s: seq<Byte>) returns (r: Parsed)
    ensures r == Unsigned(s)
  {
    hide Drops, Wrapped, Run, IsDigit;
    if |s| > 2 && s[0] == 48 && Or32(s[1]) == 120 {
      var k, n := ReadHex(s[2..]);
      if n.None? {
        return Parsed(0, None);
      }
      return Parsed(if k > 0 then 2 + k else 0, Some(n.value));
    }
    assert s[0..] == s;
    var k, n := ReadDecimal(s);
    if n.None? {
      return Parsed(0, None);
    }
    return Parsed(k, Some(n.value));
  }

  /** Reads a signed number at the start of a text that holds at least one character. */
  method ParseInt64(s: seq<Byte>) returns (r: Parsed)
    requires |s| >= 1
    ensures r == Signed(s)
  {
    hide Unsigned;
    var i, neg := 0, false;
    if s[0] == MINUS || s[0] == PLUS {
      neg := s[0] == MINUS;
      i := i + 1;
    }
    var u := ParseUInt64(s[i..]);
    if u.len == 0 || u.value.None? {
      return Parsed(0, None);
    }
    var n := u.value.value;
    if !neg {
      if n > 9223372036854775807 {
        return Parsed(0, None);
      }
      return Parsed(u.len + i, Some(n));
    }
    if n > 9223372036854775808 {
      return Parsed(0, None);
    }
    return Parsed(u.len + i, Some(if n == 9223372036854775808 then -9223372036854775807 - 1 else -n));
  }
}
