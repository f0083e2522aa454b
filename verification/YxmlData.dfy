/** The data that goes with a token: what the parser leaves in its small buffer for the client. */
module YxmlData {
  import opened Bytes
  import opened YxmlSpec

  /// Code points as UTF-8

  function Utf8(ch: nat): (s: seq<Byte>)
    requires ch <= 0x10FFFF
    ensures 1 <= |s| <= 4
  {
    if ch <= 0x7F then [ch]
    else if ch <= 0x7FF then [0xC0 + ch / 64, 0x80 + ch % 64]
    else if ch <= 0xFFFF then [0xE0 + ch / 4096, 0x80 + ch / 64 % 64, 0x80 + ch % 64]
    else [0xF0 + ch / 262144, 0x80 + ch / 4096 % 64, 0x80 + ch / 64 % 64, 0x80 + ch % 64]
  }

  /** An octet without its mark. */
  function Bits(octet: Byte, mark: int): int {
    octet as int - mark
  }

  /** The code point that a reader of UTF-8 finds: the first octet says how many follow. */
  function Codepoint(s: seq<Byte>): int {
    if |s| == 1 && s[0] < 0x80 then s[0]
    else if |s| == 2 && s[0] >= 0xC0 then Bits(s[0], 0xC0) * 64 + Bits(s[1], 0x80)
    else if |s| == 3 && s[0] >= 0xE0 then Bits(s[0], 0xE0) * 4096 + Bits(s[1], 0x80) * 64 + Bits(s[2], 0x80)
    else if |s| == 4 && s[0] >= 0xF0 then
      Bits(s[0], 0xF0) * 262144 + Bits(s[1], 0x80) * 4096 + Bits(s[2], 0x80) * 64 + Bits(s[3], 0x80)
    else -1
  }

  lemma Sixes(ch: nat)
    ensures ch == ch / 64 * 64 + ch % 64 && ch / 64 == ch / 4096 * 64 + ch / 64 % 64
    ensures ch / 4096 == ch / 262144 * 64 + ch / 4096 % 64
  {
    assert ch / 64 / 64 == ch / 4096 && ch / 4096 / 64 == ch / 262144;
  }

  /** Every code point is read back, from octets none of which is zero unless the code point is. */
  lemma Utf8ReadsBack(ch: nat)
    requires ch <= 0x10FFFF
    ensures Codepoint(Utf8(ch)) == ch
    ensures forall i :: 0 <= i < |Utf8(ch)| ==> Utf8(ch)[i] != 0 || ch == 0
  {
    Sixes(ch);
  }

  /// Characters that references may stand for

  /** A Char of XML 1.1. */
  predicate IsXmlChar(ch: nat) {
    0 < ch <= 0xD7FF || 0xE000 <= ch <= 0xFFFD || 0x1_0000 <= ch <= 0x10_FFFF
  }

  /** References are held to the characters of XML 1.1 but for surrogates, of which all but the last are let
      through, and for the first code points behind them, which are refused. */
  lemma RefCharsIff(ch: nat)
    ensures (RefAllowed(ch) <==> IsXmlChar(ch)) <==> !(0xD800 <= ch <= 0xDFFE) && !(0xE000 <= ch <= 0xE7FD)
  {
  }

  /// Data

  const BRACKET: Byte := 93
  const QUESTION: Byte := 63

  /** Tabs and line feeds in the value of an attribute become spaces. */
  function Normal(octet: Byte): Byte {
    if octet == 0x09 || octet == 0x0A then 0x20 else octet
  }

  /** What an action leaves in the buffer. */
  function Data(a: Action, reference: seq<Byte>, ch: Byte): (d: seq<Byte>)
    ensures |d| <= 4
  {
    match a
    case Content | PiContent => [ch]
    case Content1 => [BRACKET, ch]
    case Content2 => [BRACKET, BRACKET, ch]
    case PiContent1 => [QUESTION, ch]
    case AttrValue => [Normal(ch)]
    case RefContent | RefAttrValue => if RefAllowed(RefValue(reference)) then Utf8(RefValue(reference)) else []
    case _ => []
  }

  /** What an octet leaves in the buffer. */
  function DataOf(p: YxmlSpec.Parser, octet: Byte): (d: seq<Byte>)
    ensures |d| <= 4
  {
    if octet == 0 || p.ignore == octet then []
    else
      var ch := if octet == 0x0D then 0x0A else octet;
      Data(Control(p.ctl, ch).action, p.reference, ch)
  }

  predicate IsData(r: Ret) {
    r.ContentToken? || r.AttrValueToken? || r.PiContentToken?
  }

  /** A token of content, of a value or of an instruction has data, and nothing else has. */
  lemma DataIffToken(room: nat, p: YxmlSpec.Parser, octet: Byte)
    requires Shape(p)
    ensures var r := Parse(room, p, octet); !IsError(r.ret) ==> (IsData(r.ret) <==> DataOf(p, octet) != [])
  {
    hide Control, Shape, RefValue, RefAllowed;
  }
}
