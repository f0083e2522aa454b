/** Octet classes and references against literals: which octets make names, and which character a reference stands
    for. */
module YxmlReferences {
  import opened Ascii
  import opened Bytes
  import opened Powers
  import opened YxmlClient
  import opened YxmlData
  import opened YxmlMarkup
  import opened YxmlSpec

  /// Octet classes

  predicate In(text: string, b: Byte) {
    exists i :: 0 <= i < |text| && text[i] as int == b
  }

  /** The classes of the table, each against its literal. */
  lemma ClassesAre(c: Byte)
    ensures IsSpace(c) <==> In(" \t\n", c)
    ensures IsQuote(c) <==> In("'\"", c)
    ensures IsAlpha(c) <==> IsLetter(c)
    ensures IsNum(c) <==> DecimalPlace(c) >= 0
    ensures IsNameStart(c) <==> IsLetter(c) || In(":_", c) || c >= 128
    ensures IsName(c) <==> IsLetter(c) || DecimalPlace(c) >= 0 || In(":_-.", c) || c >= 128
    ensures IsRef(c) <==> IsLetter(c) || DecimalPlace(c) >= 0 || In("#", c)
    ensures IsEncName(c) <==> IsLetter(c) || DecimalPlace(c) >= 0 || In("._-", c)
  {
    hide IsLetter, DecimalPlace;
    IsLetterByNumber(c);
    PlacesByNumber(c);
    InShort(c);
  }

  lemma InShort(c: Byte)
    ensures In(" \t\n", c) <==> c == 32 || c == 9 || c == 10
    ensures In("'\"", c) <==> c == 39 || c == 34
    ensures In(":_", c) <==> c == 58 || c == 95
    ensures In(":_-.", c) <==> c == 58 || c == 95 || c == 45 || c == 46
    ensures In("#", c) <==> c == 35
    ensures In("._-", c) <==> c == 46 || c == 95 || c == 45
  {
    assert " \t\n"[0] as int == 32 && " \t\n"[1] as int == 9 && " \t\n"[2] as int == 10;
    assert "'\""[0] as int == 39 && "'\""[1] as int == 34;
    assert ":_"[0] as int == 58 && ":_"[1] as int == 95;
    assert ":_-."[0] as int == 58 && ":_-."[1] as int == 95 && ":_-."[2] as int == 45 && ":_-."[3] as int == 46;
    assert "#"[0] as int == 35;
    assert "._-"[0] as int == 46 && "._-"[1] as int == 95 && "._-"[2] as int == 45;
  }

  /** The name that no instruction may have. */
  lemma XmlIs(n: Name)
    ensures IsXml(n) <==> |n| == 3 && In("xX", n[0]) && In("mM", n[1]) && In("lL", n[2])
  {
    assert "xX"[0] as int == 120 && "xX"[1] as int == 88;
    assert "mM"[0] as int == 109 && "mM"[1] as int == 77;
    assert "lL"[0] as int == 108 && "lL"[1] as int == 76;
  }

  /// Numbers

  /** Decimal or hexadecimal. */
  datatype Base = Ten | Sixteen

  function Digit(base: Base, b: Byte): int {
    if base == Ten then DecimalPlace(b) else HexPlace(b)
  }

  function Times(base: Base, n: nat): nat {
    if base == Ten then n * 10 else n * 16
  }

  predicate AreDigits(base: Base, ds: seq<Byte>) {
    forall i :: 0 <= i < |ds| ==> Digit(base, ds[i]) >= 0
  }

  /** The number that digits denote, from the left. */
  function NumberOf(base: Base, ds: seq<Byte>): nat
    requires AreDigits(base, ds)
  {
    if ds == [] then 0 else Times(base, NumberOf(base, ds[..|ds| - 1])) + Digit(base, ds[|ds| - 1])
  }

  lemma NumberSnoc(base: Base, ds: seq<Byte>, b: Byte)
    requires AreDigits(base, ds) && Digit(base, b) >= 0
    ensures AreDigits(base, ds + [b]) && NumberOf(base, ds + [b]) == Times(base, NumberOf(base, ds)) + Digit(base, b)
  {
    hide Digit, Times;
    assert (ds + [b])[..|ds|] == ds;
  }

  /** What the parser's readers make of digits. */
  function Reading(base: Base, r: seq<Byte>, acc: nat): nat {
    if base == Ten then DecValue(r, acc) else HexValue(r, acc)
  }

  lemma DigitStep(base: Base, r: seq<Byte>, acc: nat)
    requires r != []
    ensures Reading(base, r, acc) ==
            if Digit(base, r[0]) >= 0 then Reading(base, r[1..], Times(base, acc) + Digit(base, r[0])) else 0
  {
    hide Digit;
    DigitByNumber(r[0]);
  }

  lemma DigitByNumber(b: Byte)
    ensures Digit(Ten, b) == if 48 <= b <= 57 then b - 48 else -1
    ensures Digit(Sixteen, b) == if 48 <= b <= 57 then b - 48 else if 65 <= b <= 70 then b - 55
                            else if 97 <= b <= 102 then b - 87 else -1
  {
    hide DecimalPlace, HexPlace;
    PlacesByNumber(b);
  }

  /** Reading digits behind those that were read. */
  lemma {:induction false} ReadsOn(base: Base, done: seq<Byte>, r: seq<Byte>)
    requires AreDigits(base, done)
    ensures Reading(base, r, NumberOf(base, done)) ==
            if AreDigits(base, r) then (JoinDigits(base, done, r); NumberOf(base, done + r)) else 0
    decreases |r|
  {
    hide Digit, Times;
    if r == [] {
      assert done + r == done;
    } else {
      hide Reading;
      DigitStep(base, r, NumberOf(base, done));
      FirstDigit(base, r);
      if Digit(base, r[0]) >= 0 {
        NumberSnoc(base, done, r[0]);
        ReadsOn(base, done + [r[0]], r[1..]);
        assert done + [r[0]] + r[1..] == done + r;
      }
    }
  }

  lemma JoinDigits(base: Base, a: seq<Byte>, b: seq<Byte>)
    requires AreDigits(base, a) && AreDigits(base, b)
    ensures AreDigits(base, a + b)
  {
    hide Digit;
  }

  lemma FirstDigit(base: Base, r: seq<Byte>)
    requires r != []
    ensures AreDigits(base, r) <==> Digit(base, r[0]) >= 0 && AreDigits(base, r[1..])
  {
    hide Digit;
    assert r == [r[0]] + r[1..];
    if Digit(base, r[0]) >= 0 && AreDigits(base, r[1..]) { JoinDigits(base, [r[0]], r[1..]); }
  }

  lemma NumbersRead(base: Base, r: seq<Byte>)
    ensures Reading(base, r, 0) == if AreDigits(base, r) then NumberOf(base, r) else 0
  {
    hide Digit, Reading;
    ReadsOn(base, [], r);
    assert [] + r == r;
  }

  /// What a reference stands for

  /** The five names, and numbers in two notations. */
  predicate Denotes(n: seq<Byte>, ch: nat) {
    || (n == Octets("lt") && ch == 60)
    || (n == Octets("gt") && ch == 62)
    || (n == Octets("amp") && ch == 38)
    || (n == Octets("apos") && ch == 39)
    || (n == Octets("quot") && ch == 34)
    || (|n| > 1 && n[0] == 35 && AreDigits(Ten, n[1..]) && NumberOf(Ten, n[1..]) == ch)
    || (|n| > 2 && n[0] == 35 && n[1] == 120 && AreDigits(Sixteen, n[2..]) && NumberOf(Sixteen, n[2..]) == ch)
  }

  lemma SameText(text: string)
    requires IsAscii(text) && forall i :: 0 <= i < |text| ==> text[i] as int < 256
    ensures Text(text) == Octets(text)
  {
  }

  /** The code point that is read from a name is the one that it denotes; every other name reads as zero, which is
      refused. */
  lemma RefDenotes(n: seq<Byte>, ch: nat)
    requires ch != 0
    ensures RefValue(n) == ch <==> Denotes(n, ch)
  {
    hide DecValue, HexValue, Digit, AreDigits, NumberOf;
    if n != [] && n[0] == 35 {
      HashDenotes(n, ch);
      Names();
    } else {
      NameDenotes(n, ch);
    }
  }

  lemma Names()
    ensures Octets("lt")[0] == 108 && Octets("gt")[0] == 103 && Octets("amp")[0] == 97
    ensures Octets("apos")[0] == 97 && Octets("quot")[0] == 113
  {
  }

  lemma NameDenotes(n: seq<Byte>, ch: nat)
    requires ch != 0 && (n == [] || n[0] != 35)
    ensures RefValue(n) == ch <==> Denotes(n, ch)
  {
    hide DecValue, HexValue, Digit, AreDigits, NumberOf;
    SameText("lt");
    SameText("gt");
    SameText("amp");
    SameText("apos");
    SameText("quot");
    Names();
    assert |Octets("lt")| == 2 && |Octets("gt")| == 2 && |Octets("amp")| == 3 && |Octets("apos")| == 4;
  }

  /** No digit is an x, so the two notations do not meet. */
  lemma HashDenotes(n: seq<Byte>, ch: nat)
    requires ch != 0 && n != [] && n[0] == 35
    ensures RefValue(n) == ch <==>
              || (|n| > 1 && AreDigits(Ten, n[1..]) && NumberOf(Ten, n[1..]) == ch)
              || (|n| > 2 && n[1] == 120 && AreDigits(Sixteen, n[2..]) && NumberOf(Sixteen, n[2..]) == ch)
  {
    hide DecValue, HexValue, Digit;
    NumbersRead(Ten, n[1..]);
    if |n| > 1 && n[1] == 120 {
      NumbersRead(Sixteen, n[2..]);
      NoX();
      FirstDigit(Ten, n[1..]);
      if |n| == 2 { assert n[2..] == []; }
    } else if |n| == 1 {
      assert n[1..] == [];
    }
  }

  lemma NoX()
    ensures Digit(Ten, 120) < 0
  {
    hide Digit;
    DigitByNumber(120);
  }

  /// Numerals

  /** A numeral denotes its number. */
  lemma {:induction false} NumeralReads(base: Base, digits: string, ch: nat)
    requires |digits| == (if base == Ten then 10 else 16) && IsAscii(digits)
    requires forall d :: 0 <= d < |digits| ==> Digit(base, digits[d] as int) == d
    ensures AreDigits(base, Written(digits, ch)) && NumberOf(base, Written(digits, ch)) == ch
    decreases ch
  {
    hide Digit, AreDigits, NumberOf;
    var b := |digits|;
    Smaller(ch, b);
    var init := if ch < b then [] else Written(digits, ch / b);
    if ch >= b {
      NumeralReads(base, digits, ch / b);
    } else {
      NoNumber(base);
    }
    NumberSnoc(base, init, digits[ch % b] as int);
  }

  lemma NoNumber(base: Base)
    ensures AreDigits(base, []) && NumberOf(base, []) == 0
  {
  }

  lemma DecimalDigit(d: nat)
    requires d < 10
    ensures Digit(Ten, DECIMAL[d] as int) == d
  {
    hide Digit;
    DigitsByNumber(d);
    DigitByNumber(DECIMAL[d] as int);
  }

  lemma HexDigit(digits: string, d: nat)
    requires (digits == UPPER_HEX || digits == LOWER_HEX) && d < 16
    ensures |digits| == 16 && IsAscii(digits) && Digit(Sixteen, digits[d] as int) == d
  {
    hide Digit;
    LiteralsAreAscii();
    DigitsByNumber(d);
    DigitByNumber(digits[d] as int);
  }

  /** A hash sign and the decimal numeral, or `#x` and the hexadecimal one in either case, denote the number. */
  lemma NumeralsDenote(ch: nat, digits: string)
    requires digits == UPPER_HEX || digits == LOWER_HEX
    ensures |DECIMAL| == 10 && IsAscii(DECIMAL) && |digits| == 16 && IsAscii(digits)
    ensures Denotes([35] + Written(DECIMAL, ch), ch) && Denotes([35, 120] + Written(digits, ch), ch)
  {
    hide Digit, IsAscii, AreDigits, NumberOf, Written;
    LiteralsAreAscii();
    forall d | 0 <= d < 10
      ensures Digit(Ten, DECIMAL[d] as int) == d
    {
      DecimalDigit(d);
    }
    HexDigit(digits, 0);
    forall d | 0 <= d < 16
      ensures Digit(Sixteen, digits[d] as int) == d
    {
      HexDigit(digits, d);
    }
    NumeralReads(Ten, DECIMAL, ch);
    NumeralReads(Sixteen, digits, ch);
    var a, b := [35] + Written(DECIMAL, ch), [35, 120] + Written(digits, ch);
    assert a[1..] == Written(DECIMAL, ch) && b[2..] == Written(digits, ch);
  }

  /// In a document

  /** References are exactly the names of at most seven octets that denote an allowed character, and the data is the
      UTF-8 of this character. */
  lemma ReferenceIff(n: seq<Byte>, ch: nat)
    requires ch != 0
    ensures IsReference(n) && RefValue(n) == ch <==> |n| <= 7 && Denotes(n, ch) && RefAllowed(ch)
    ensures IsReference(n) && RefValue(n) == ch ==> RefData(n) == Utf8(ch)
  {
    hide RefValue, RefAllowed, Denotes, IsRef;
    RefDenotes(n, ch);
    if Denotes(n, ch) { DenotesIsRef(n, ch); }
  }

  lemma DenotesIsRef(n: seq<Byte>, ch: nat)
    requires Denotes(n, ch)
    ensures forall i :: 0 <= i < |n| ==> IsRef(n[i])
  {
    if n != [] && n[0] == 35 {
      Names();
      hide NumberOf, IsRef, Denotes;
      HashIsRef(n, ch);
    } else {
      hide Digit, AreDigits, NumberOf;
    }
  }

  lemma HashIsRef(n: seq<Byte>, ch: nat)
    requires Denotes(n, ch) && n != [] && n[0] == 35
    ensures forall i :: 0 <= i < |n| ==> IsRef(n[i])
  {
    Names();
    hide NumberOf, IsRef, Digit;
    RefLetters();
    if |n| > 1 && AreDigits(Ten, n[1..]) {
      forall i | 1 <= i < |n|
        ensures IsRef(n[i])
      {
        assert n[i] == n[1..][i - 1];
        DigitIsRef(n[i]);
      }
    } else {
      forall i | 2 <= i < |n|
        ensures IsRef(n[i])
      {
        assert n[i] == n[2..][i - 2];
        DigitIsRef(n[i]);
      }
    }
  }

  lemma RefLetters()
    ensures IsRef(35) && IsRef(120)
  {
  }

  lemma DigitIsRef(b: Byte)
    ensures Digit(Ten, b) >= 0 || Digit(Sixteen, b) >= 0 ==> IsRef(b)
  {
    hide Digit;
    DigitByNumber(b);
  }

  /** In content and in values: a reference that denotes an allowed character is seen as its UTF-8 octets. */
  lemma DenotedIsSeen(room: nat, p: Parser, from: State, stack: seq<Name>, n: seq<Byte>, ch: nat) returns (p': Parser)
    requires On(p, from, stack) && (from.Misc2? || from.Attr3?) && |n| <= 7 && Denotes(n, ch) && RefAllowed(ch)
    ensures On(p', from, stack) && Goes(room, p, [38] + n + [59], p', DataTokens(RefRet(from), Utf8(ch)))
  {
    hide On, Goes, Denotes, RefAllowed, IsReference, RefData, DataTokens;
    AllowedIsNotZero(ch);
    ReferenceIff(n, ch);
    p' := RefGoes(room, p, from, stack, n);
  }

  lemma AllowedIsNotZero(ch: nat)
    requires RefAllowed(ch)
    ensures ch != 0
  {
  }

  /** The five names in a document. */
  lemma NamesAreSeen(room: nat, p: Parser, from: State, stack: seq<Name>, name: string, ch: nat) returns (p': Parser)
    requires On(p, from, stack) && (from.Misc2? || from.Attr3?)
    requires (name, ch) in {("lt", 60), ("gt", 62), ("amp", 38), ("apos", 39), ("quot", 34)}
    ensures IsAscii(name) && On(p', from, stack)
    ensures Goes(room, p, [38] + Octets(name) + [59], p', DataTokens(RefRet(from), [ch]))
  {
    hide On, Goes, DataTokens;
    p' := DenotedIsSeen(room, p, from, stack, Octets(name), ch);
  }
  /** Every allowed character by its number, in decimal and in hexadecimal, as far as the numeral fits the buffer. */
  lemma NumbersAreSeen(room: nat, p: Parser, from: State, stack: seq<Name>, ch: nat, digits: string)
    returns (p1: Parser, p2: Parser)
    requires On(p, from, stack) && (from.Misc2? || from.Attr3?) && RefAllowed(ch)
    requires digits == UPPER_HEX || digits == LOWER_HEX
    ensures |DECIMAL| == 10 && IsAscii(DECIMAL) && |digits| == 16 && IsAscii(digits)
    ensures var n := [35] + Written(DECIMAL, ch);
            |n| <= 7 ==> On(p1, from, stack) && Goes(room, p, [38] + n + [59], p1, DataTokens(RefRet(from), Utf8(ch)))
    ensures var n := [35, 120] + Written(digits, ch);
            |n| <= 7 ==> On(p2, from, stack) && Goes(room, p, [38] + n + [59], p2, DataTokens(RefRet(from), Utf8(ch)))
  {
    hide On, Goes, DataTokens, RefAllowed, Denotes, Written, IsAscii;
    NumeralsDenote(ch, digits);
    p1, p2 := p, p;
    var a, b := [35] + Written(DECIMAL, ch), [35, 120] + Written(digits, ch);
    if |a| <= 7 { p1 := DenotedIsSeen(room, p, from, stack, a, ch); }
    if |b| <= 7 { p2 := DenotedIsSeen(room, p, from, stack, b, ch); }
  }
}
