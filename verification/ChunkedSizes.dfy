/** Chunk sizes in numbers: a writer that puts sizes down with the digits of a literal, and what the decoder makes
    of its bodies. */
module ChunkedSizes {
  import opened Ascii
  import opened Bytes
  import opened ChunkedSpec
  import opened Powers
  import opened Words

  /** The digits of a size are exactly the hexadecimal ones, in either case, with their places as values. */
  lemma DigitValues(b: Byte)
    ensures HexValue(b) == HexPlace(b)
  {
    PlacesByNumber(b);
  }

  /** A size by its digits, from the left. */
  function SizeOf(ds: seq<Byte>): int {
    if ds == [] then 0 else SizeOf(ds[..|ds| - 1]) * 16 + HexPlace(ds[|ds| - 1])
  }

  lemma {:induction false} HexNumberIs(ds: seq<Byte>)
    requires forall i :: 0 <= i < |ds| ==> HexValue(ds[i]) >= 0
    ensures HexNumber(ds) == SizeOf(ds)
  {
    hide HexPlace;
    if ds != [] {
      HexNumberIs(ds[..|ds| - 1]);
      DigitValues(ds[|ds| - 1]);
    }
  }

  predicate IsHexLiteral(digits: string) {
    digits == UPPER_HEX || digits == LOWER_HEX
  }

  lemma HexLiteral(digits: string, i: nat)
    requires IsHexLiteral(digits)
    ensures |digits| == 16 && IsAscii(digits) && (i < 16 ==> HexValue(digits[i] as int) == i)
  {
    LiteralsAreAscii();
    if i < 16 { DigitsByNumber(i); }
  }

  /** The numeral of a size, read back. */
  lemma {:induction false} NumeralReads(digits: string, n: nat)
    requires IsHexLiteral(digits)
    ensures |digits| == 16 && IsAscii(digits)
    ensures forall i :: 0 <= i < |Written(digits, n)| ==> HexValue(Written(digits, n)[i]) >= 0
    ensures HexNumber(Written(digits, n)) == n
    decreases n
  {
    hide HexValue, IsHexLiteral, IsAscii;
    HexLiteral(digits, n % 16);
    var w := Written(digits, n);
    var init := if n < 16 then [] else Written(digits, n / 16);
    assert w == init + [digits[n % 16] as int];
    assert w[..|w| - 1] == init;
    if n >= 16 { NumeralReads(digits, n / 16); }
  }

  lemma NumeralFits(digits: string, n: nat)
    requires IsHexLiteral(digits)
    ensures |digits| == 16 && IsAscii(digits) && (|Written(digits, n)| <= 16 <==> n < W64)
  {
    hide IsHexLiteral, IsAscii;
    HexLiteral(digits, 0);
    WrittenLength(digits, n, 16);
    SixteenDigits();
  }

  lemma SixteenDigits()
    ensures Pow(16, 16) == W64
  {
    assert Pow(16, 4) == 0x1_0000;
    PowAdd(16, 4, 4);
    PowAdd(16, 8, 8);
    hide Pow;
  }

  /// Bodies

  /** A chunk without extension, written out. */
  function WrittenChunk(digits: string, data: seq<Byte>): seq<Byte>
    requires |digits| > 1 && IsAscii(digits)
  {
    Written(digits, |data|) + [13, 10] + data + [13, 10]
  }

  function WrittenBody(digits: string, datas: seq<seq<Byte>>): seq<Byte>
    requires |digits| > 1 && IsAscii(digits)
  {
    if datas == [] then ['0' as int] + [13, 10] else WrittenChunk(digits, datas[0]) + WrittenBody(digits, datas[1..])
  }

  function Joined(datas: seq<seq<Byte>>): seq<Byte> {
    if datas == [] then [] else datas[0] + Joined(datas[1..])
  }

  lemma WrittenIsProper(digits: string, data: seq<Byte>)
    requires IsHexLiteral(digits) && |data| < W64
    ensures |digits| == 16 && IsAscii(digits)
    ensures var c := Chunk(Written(digits, |data|), [], data);
            Proper(c) && Coded(c) == WrittenChunk(digits, data) && Header(c) == Written(digits, |data|) + [13, 10]
  {
    hide IsHexLiteral, IsAscii, Written, HexNumber, HexValue;
    NumeralReads(digits, |data|);
    NumeralFits(digits, |data|);
    var w := Written(digits, |data|);
    assert w + ([] + [CR, LF]) == w + [13, 10];
    assert w + [13, 10] + (data + [CR, LF]) == w + [13, 10] + data + [13, 10];
  }

  /** A chunk whose header is the numeral of its size is read as exactly its data. */
  lemma SizedChunkDecodes(trailer: bool, digits: string, data: seq<Byte>, rest: seq<Byte>)
    requires IsHexLiteral(digits) && 0 < |data| < W64
    ensures |digits| == 16 && IsAscii(digits) && Sound(FRESH)
    ensures var c := WrittenChunk(digits, data);
            Decode(trailer, FRESH, c + rest) == After(data, |c|, Decode(trailer, FRESH, rest))
  {
    hide IsHexLiteral, IsAscii, Written, Proper, Coded, Decode, WrittenChunk;
    WrittenIsProper(digits, data);
    ChunkRead(trailer, Chunk(Written(digits, |data|), [], data), rest);
  }

  /** The chunks of such a body. */
  function ChunksOf(digits: string, datas: seq<seq<Byte>>): (cs: seq<Chunk>)
    requires |digits| > 1 && IsAscii(digits)
    ensures |cs| == |datas|
  {
    if datas == [] then []
    else [Chunk(Written(digits, |datas[0]|), [], datas[0])] + ChunksOf(digits, datas[1..])
  }

  predicate AreData(datas: seq<seq<Byte>>) {
    forall i :: 0 <= i < |datas| ==> 0 < |datas[i]| < W64
  }

  lemma {:induction false} BodyIsCoded(digits: string, datas: seq<seq<Byte>>)
    requires IsHexLiteral(digits) && AreData(datas)
    ensures |digits| == 16 && IsAscii(digits)
    ensures var cs, last := ChunksOf(digits, datas), Chunk(['0' as int], [], []);
            AllProper(cs) && Body(cs, last) == WrittenBody(digits, datas) && Content(cs) == Joined(datas)
    decreases |datas|
  {
    hide IsHexLiteral, IsAscii, Written, Proper, Coded, Header, WrittenChunk;
    HexLiteral(digits, 0);
    var cs := ChunksOf(digits, datas);
    if datas == [] {
      LastHeader();
    } else {
      WrittenIsProper(digits, datas[0]);
      BodyIsCoded(digits, datas[1..]);
      assert cs[1..] == ChunksOf(digits, datas[1..]);
      assert cs[0] == Chunk(Written(digits, |datas[0]|), [], datas[0]);
    }
  }

  lemma LastHeader()
    ensures var last := Chunk(['0' as int], [], []); Proper(last) && Header(last) == ['0' as int] + [13, 10]
  {
    var o := ['0' as int];
    assert o[..0] == [] && HexNumber([]) == 0;
    assert o + ([] + [CR, LF]) == o + [13, 10];
  }

  /** A body written with either literal, of any pieces of data shorter than 2^64 octets, is read as exactly these
      pieces and ends behind its last header. */
  lemma WrittenBodyDecodes(digits: string, datas: seq<seq<Byte>>, rest: seq<Byte>)
    requires IsHexLiteral(digits) && AreData(datas)
    ensures |digits| == 16 && IsAscii(digits) && Sound(FRESH)
    ensures var body := WrittenBody(digits, datas);
            var r := Decode(false, FRESH, body + rest);
            r.outcome == Complete && r.out == Joined(datas) && r.used == |body|
  {
    hide IsHexLiteral, IsAscii, Proper, Body, Content, Decode, ChunksOf, WrittenBody;
    BodyIsCoded(digits, datas);
    LastHeader();
    BodyDecodes(ChunksOf(digits, datas), Chunk(['0' as int], [], []), rest);
  }
}
