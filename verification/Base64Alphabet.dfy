/** Base64 against its alphabet, given as a literal: which characters stand where in an encoding, and which ones the
    decoder takes. */
module Base64Alphabet {
  import opened Ascii
  import opened Base64Spec
  import opened Bytes

  /** The alphabet of section 4 of RFC 4648. */
  const OTHERS: string := "0123456789+/"
  const ALPHABET: string := UPPER + LOWER + OTHERS

  /** The two characters that section 5 puts in the place of the last two. */
  const PLUS_FOR_NAMES: char := '-'
  const SLASH_FOR_NAMES: char := '_'

  lemma OtherLetters(k: nat)
    ensures |OTHERS| == 12 && (k < 10 ==> OTHERS[k] as int == 48 + k) && OTHERS[10] == '+' && OTHERS[11] == '/'
  {
  }

  /** The letter for a code is the character of the literal at this place. */
  lemma LettersAre(k: Sextet)
    ensures |ALPHABET| == 64 && Letter(k) == ALPHABET[k] as int
  {
    LettersByNumber(if k < 26 then k else if k < 52 then k - 26 else 0);
    OtherLetters(if k >= 52 then k - 52 else 0);
  }

  /** The decoder takes the characters of the literal for their places, the two other ones for the last places, the
      equals sign as padding, four characters as blanks, and nothing else. */
  lemma CodesAre(b: Byte)
    ensures |ALPHABET| == 64
    ensures match KindOf(b)
            case Code(v) => b == ALPHABET[v] as int || (v == 62 && b == PLUS_FOR_NAMES as int)
                            || (v == 63 && b == SLASH_FOR_NAMES as int)
            case Pad => b == '=' as int
            case Blank => b == ' ' as int || b == '\t' as int || b == '\r' as int || b == '\n' as int
            case Alien => b != '=' as int && b != ' ' as int && b != '\t' as int && b != '\r' as int && b != '\n' as int
    ensures KindOf(PLUS_FOR_NAMES as int) == Code(62) && KindOf(SLASH_FOR_NAMES as int) == Code(63)
    ensures KindOf('=' as int) == Pad && KindOf(' ' as int) == Blank
    ensures KindOf('\t' as int) == Blank && KindOf('\r' as int) == Blank && KindOf('\n' as int) == Blank
  {
    LettersAre(0);
    if KindOf(b).Code? { LettersAre(KindOf(b).v); }
  }

  /** And each character of the literal is taken. */
  lemma AlphabetIsTaken(k: Sextet)
    ensures |ALPHABET| == 64 && ALPHABET[k] as int < 256 && KindOf(ALPHABET[k] as int) == Code(k)
  {
    LettersAre(k);
  }

  /// The encoding, character by character

  /** The octet at a place, or zero behind the end. */
  function At(s: seq<Byte>, i: nat): Byte {
    if i < |s| then s[i] else 0
  }

  /** The 24 bits of group `i`, as one number. */
  function Group(s: seq<Byte>, i: nat): nat {
    var a: nat, b: nat, c: nat := At(s, 3 * i), At(s, 3 * i + 1), At(s, 3 * i + 2);
    0x1_0000 * a + 0x100 * b + c
  }

  /** Six of these bits, from the left. */
  function Bits(group: nat, j: nat): (k: Sextet) {
    if j == 0 then group / 0x4_0000 % 64
    else if j == 1 then group / 0x1000 % 64
    else if j == 2 then group / 0x40 % 64
    else group % 64
  }

  lemma SplitBits(a: Byte, b: Byte, c: Byte)
    ensures var x: nat, y: nat, z: nat := a, b, c;
            var g := 0x1_0000 * x + 0x100 * y + z;
            First(a) == Bits(g, 0) && Second(a, b) == Bits(g, 1) && Third(b, c) == Bits(g, 2) && Fourth(c) == Bits(g, 3)
  {
    var x: nat, y: nat, z: nat := a, b, c;
    var g := 0x1_0000 * x + 0x100 * y + z;
    FirstBits(x, y, z);
    SecondBits(x, y, z);
    ThirdBits(x, y, z);
  }

  lemma FirstBits(x: nat, y: nat, z: nat)
    requires x < 256 && y < 256 && z < 256
    ensures (0x1_0000 * x + 0x100 * y + z) / 0x4_0000 % 64 == x / 4
    ensures (0x1_0000 * x + 0x100 * y + z) % 64 == z % 64
  {
  }

  lemma SecondBits(x: nat, y: nat, z: nat)
    requires x < 256 && y < 256 && z < 256
    ensures (0x1_0000 * x + 0x100 * y + z) / 0x1000 % 64 == x % 4 * 16 + y / 16
  {
    var g := 0x1_0000 * x + 0x100 * y + z;
    assert g / 0x1000 == 16 * x + y / 16;
    assert (16 * x + y / 16) % 64 == x % 4 * 16 + y / 16;
  }

  lemma ThirdBits(x: nat, y: nat, z: nat)
    requires x < 256 && y < 256 && z < 256
    ensures (0x1_0000 * x + 0x100 * y + z) / 0x40 % 64 == y % 16 * 4 + z / 64
  {
    var g := 0x1_0000 * x + 0x100 * y + z;
    assert g / 0x40 == 1024 * x + 4 * y + z / 64;
    assert (1024 * x + 4 * y + z / 64) % 64 == y % 16 * 4 + z / 64;
  }

  /** The four characters of the first group. */
  lemma FirstGroup(s: seq<Byte>, j: nat)
    requires s != [] && j < 4
    ensures |Encode(s)| >= 4 && |ALPHABET| == 64
    ensures Encode(s)[j] == if j > |s| then '=' as int else ALPHABET[Bits(Group(s, 0), j)] as int
  {
    hide Letter, KindOf, First, Second, Third, Fourth, Bits;
    SplitBits(At(s, 0), At(s, 1), At(s, 2));
    LettersAre(Bits(Group(s, 0), j));
  }

  /** Every character of an encoding: the padding where no octet is left, and otherwise the character of the literal
      that the six bits at its place name. */
  lemma {:induction false} EncodedAt(s: seq<Byte>, i: nat, j: nat)
    requires 3 * i < |s| && j < 4
    ensures 4 * i + j < |Encode(s)| && |ALPHABET| == 64
    ensures Encode(s)[4 * i + j] == if 3 * i + j > |s| then '=' as int else ALPHABET[Bits(Group(s, i), j)] as int
    decreases i
  {
    hide Letter, KindOf, First, Second, Third, Fourth, Bits;
    if i == 0 {
      FirstGroup(s, j);
    } else {
      EncodedAt(s[3..], i - 1, j);
      assert Group(s[3..], i - 1) == Group(s, i);
      EncodeStep(s);
    }
  }

  lemma EncodeStep(s: seq<Byte>)
    requires |s| > 3
    ensures |Encode(s)| == 4 + |Encode(s[3..])|
    ensures forall k :: 4 <= k < |Encode(s)| ==> Encode(s)[k] == Encode(s[3..])[k - 4]
  {
    hide Letter, KindOf, First, Second, Third, Fourth;
  }
}
