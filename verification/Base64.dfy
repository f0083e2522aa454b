/** Base64 (section 4 of RFC 4648): the coding by blocks of four characters, with the blanks
    that section 6.8 of RFC 2045 allows and both alphabets of section 5 of RFC 4648.

    Shifts and masks on octets are written as products, quotients and remainders; the octets
    that the code joins with a bitwise or never share a bit. */
module Base64Spec {
  import opened Bytes
  import opened Options

  type Sextet = x: nat | x < 64

  const EQUALS: Byte := 61

  /** The alphabet: upper case, lower case, digits, plus and slash. */
  function Letter(k: Sextet): (b: Byte)
    ensures KindOf(b) == Code(k)
  {
    if k < 26 then 65 + k
    else if k < 52 then 71 + k
    else if k < 62 then k - 4
    else if k == 62 then 43
    else 47
  }

  datatype Kind = Code(v: Sextet) | Pad | Blank | Alien

  /** What a character of the text stands for. */
  function KindOf(b: Byte): Kind {
    if 65 <= b <= 90 then Code(b - 65)
    else if 97 <= b <= 122 then Code(b - 71)
    else if 48 <= b <= 57 then Code(b + 4)
    else if b == 43 || b == 45 then Code(62)
    else if b == 47 || b == 95 then Code(63)
    else if b == EQUALS then Pad
    else if b == 9 || b == 10 || b == 13 || b == 32 then Blank
    else Alien
  }

  /// Encoding

  function First(a: Byte): Sextet { a / 4 }

  function Second(a: Byte, b: Byte): Sextet { a % 4 * 16 + b / 16 }

  function Third(b: Byte, c: Byte): Sextet { b % 16 * 4 + c / 64 }

  function Fourth(c: Byte): Sextet { c % 64 }

  function Quad(a: Byte, b: Byte, c: Byte): (r: seq<Byte>)
    ensures |r| == 4
  {
    [Letter(First(a)), Letter(Second(a, b)), Letter(Third(b, c)), Letter(Fourth(c))]
  }

  function PairTail(a: Byte, b: Byte): (r: seq<Byte>)
    ensures |r| == 4
  {
    [Letter(First(a)), Letter(Second(a, b)), Letter(Third(b, 0)), EQUALS]
  }

  function SingleTail(a: Byte): (r: seq<Byte>)
    ensures |r| == 4
  {
    [Letter(First(a)), Letter(Second(a, 0)), EQUALS, EQUALS]
  }

  function Encode(s: seq<Byte>): seq<Byte> {
    if s == [] then []
    else if |s| == 1 then SingleTail(s[0])
    else if |s| == 2 then PairTail(s[0], s[1])
    else Quad(s[0], s[1], s[2]) + Encode(s[3..])
  }

  /** Three octets, begun or complete, take four characters. */
  lemma {:induction false} EncodedLength(s: seq<Byte>)
    ensures |Encode(s)| == 4 * ((|s| + 2) / 3)
  {
    hide KindOf, Letter, First, Second, Third, Fourth;
    if |s| >= 3 {
      EncodedLength(s[3..]);
    }
  }

  /// Decoding

  /** Four characters: two codes, then codes or padding, and no code after padding. */
  predicate IsBlock(q: seq<Byte>) {
    && |q| == 4
    && KindOf(q[0]).Code? && KindOf(q[1]).Code?
    && (KindOf(q[2]).Code? ==> KindOf(q[3]).Code? || KindOf(q[3]).Pad?)
    && (KindOf(q[2]).Pad? ==> KindOf(q[3]).Pad?)
    && (KindOf(q[2]).Code? || KindOf(q[2]).Pad?)
  }

  predicate Padded(q: seq<Byte>)
    requires |q| == 4
  {
    KindOf(q[3]).Pad?
  }

  function Octet0(v: Sextet, w: Sextet): Byte { v * 4 + w / 16 }

  function Octet1(v: Sextet, w: Sextet): Byte { v % 16 * 16 + w / 4 }

  function Octet2(v: Sextet, w: Sextet): Byte { v % 4 * 64 + w }

  function Octets(q: seq<Byte>): (r: seq<Byte>)
    requires IsBlock(q)
    ensures 1 <= |r| <= 3
    ensures |r| == 3 <==> !Padded(q)
  {
    var v, w := KindOf(q[0]).v, KindOf(q[1]).v;
    if KindOf(q[2]).Pad? then [Octet0(v, w)]
    else
      var x := KindOf(q[2]).v;
      if KindOf(q[3]).Pad? then [Octet0(v, w), Octet1(w, x)]
      else [Octet0(v, w), Octet1(w, x), Octet2(x, KindOf(q[3]).v)]
  }

  function Blocks(t: seq<Byte>): Option<seq<Byte>> {
    if t == [] then Some([])
    else if |t| < 4 || !IsBlock(t[..4]) then None
    else
      var rest := Blocks(t[4..]);
      if rest.None? then None else Some(Octets(t[..4]) + rest.value)
  }

  function Kept(b: Byte): seq<Byte> {
    if KindOf(b).Blank? then [] else [b]
  }

  /** The text without its blanks. */
  function Strip(s: seq<Byte>): seq<Byte> {
    if s == [] then [] else Kept(s[0]) + Strip(s[1..])
  }

  function Decode(s: seq<Byte>): Option<seq<Byte>> {
    Blocks(Strip(s))
  }

  lemma Associate(x: seq<Byte>, y: seq<Byte>, z: seq<Byte>)
    ensures x + (y + z) == x + y + z
  {
  }

  lemma {:induction false} StripConcat(s: seq<Byte>, t: seq<Byte>)
    ensures Strip(s + t) == Strip(s) + Strip(t)
  {
    hide Kept;
    if s == [] {
      assert s + t == t;
    } else {
      StripConcat(s[1..], t);
      assert (s + t)[1..] == s[1..] + t;
      Associate(Kept(s[0]), Strip(s[1..]), Strip(t));
    }
  }

  lemma {:induction false} StripIdle(s: seq<Byte>)
    requires forall i :: 0 <= i < |s| ==> !KindOf(s[i]).Blank?
    ensures Strip(s) == s
  {
    if s != [] {
      StripIdle(s[1..]);
    }
  }

  /** What the blocks of a text and of a further text decode to together. */
  function Joined(x: Option<seq<Byte>>, y: Option<seq<Byte>>): Option<seq<Byte>> {
    if x.None? || y.None? then None else Some(x.value + y.value)
  }

  lemma JoinedAgain(x: seq<Byte>, y: Option<seq<Byte>>, z: Option<seq<Byte>>)
    ensures Joined(Some(x), Joined(y, z)) == Joined(Joined(Some(x), y), z)
    ensures Joined(Some([]), z) == z
  {
    if z.Some? {
      assert [] + z.value == z.value;
      if y.Some? {
        assert x + (y.value + z.value) == x + y.value + z.value;
      }
    }
  }

  lemma NoBlocks()
    ensures Blocks([]) == Some([])
  {
  }

  lemma FirstBlock(t: seq<Byte>)
    requires t != [] && Blocks(t).Some?
    ensures |t| >= 4 && IsBlock(t[..4]) && Blocks(t[4..]).Some?
  {
    hide IsBlock, Octets;
  }

  lemma BlocksStep(t: seq<Byte>)
    requires |t| >= 4 && IsBlock(t[..4])
    ensures Blocks(t) == Joined(Some(Octets(t[..4])), Blocks(t[4..]))
  {
  }

  /** Complete blocks in front are decoded on their own. */
  lemma {:induction false} BlocksConcat(s: seq<Byte>, t: seq<Byte>)
    requires Blocks(s).Some?
    ensures |s| % 4 == 0
    ensures Blocks(s + t) == Joined(Blocks(s), Blocks(t))
  {
    hide IsBlock, Octets, Joined, Blocks;
    if s == [] {
      assert s + t == t;
      NoBlocks();
      JoinedAgain([], None, Blocks(t));
    } else {
      FirstBlock(s);
      BlocksConcat(s[4..], t);
      assert (s + t)[..4] == s[..4];
      assert (s + t)[4..] == s[4..] + t;
      BlocksStep(s + t);
      BlocksStep(s);
      JoinedAgain(Octets(s[..4]), Blocks(s[4..]), Blocks(t));
    }
  }

  /** Blanks may stand anywhere. */
  lemma BlanksAreIgnored(s: seq<Byte>, blank: Byte, t: seq<Byte>)
    requires KindOf(blank).Blank?
    ensures Decode(s + [blank] + t) == Decode(s + t)
  {
    StripConcat(s + [blank], t);
    StripConcat(s, [blank]);
    StripConcat(s, t);
    assert Strip(s) + Strip([blank]) == Strip(s);
  }

  /** Decoding takes a concatenation of valid texts to the concatenation of their octets. */
  lemma DecodeConcat(s: seq<Byte>, t: seq<Byte>)
    requires Decode(s).Some? && Decode(t).Some?
    ensures Decode(s + t) == Some(Decode(s).value + Decode(t).value)
  {
    StripConcat(s, t);
    BlocksConcat(Strip(s), Strip(t));
  }

  /** A text whose last block lacks its padding is refused. */
  lemma UnpaddedIsRefused(s: seq<Byte>)
    requires |Strip(s)| % 4 != 0
    ensures Decode(s) == None
  {
    if Decode(s).Some? {
      BlocksConcat(Strip(s), []);
    }
  }

  /// Round trips

  lemma Sextets(a: Byte, b: Byte, c: Byte)
    ensures Octet0(First(a), Second(a, b)) == a
    ensures Octet1(Second(a, b), Third(b, c)) == b
    ensures Octet2(Third(b, c), Fourth(c)) == c
  {
  }

  lemma SextetsBack(v: Sextet, w: Sextet, x: Sextet, y: Sextet)
    ensures First(Octet0(v, w)) == v
    ensures Second(Octet0(v, w), Octet1(w, x)) == w
    ensures Third(Octet1(w, x), Octet2(x, y)) == x
    ensures Fourth(Octet2(x, y)) == y
  {
  }

  lemma PairBack(v: Sextet, w: Sextet, x: Sextet)
    ensures First(Octet0(v, w)) == v
    ensures Second(Octet0(v, w), Octet1(w, x)) == w
    ensures Third(Octet1(w, x), 0) == x <==> x % 4 == 0
  {
  }

  lemma SingleBack(v: Sextet, w: Sextet)
    ensures First(Octet0(v, w)) == v
    ensures Second(Octet0(v, w), 0) == w <==> w % 16 == 0
  {
  }

  lemma QuadIsBlock(a: Byte, b: Byte, c: Byte)
    ensures IsBlock(Quad(a, b, c)) && Octets(Quad(a, b, c)) == [a, b, c]
  {
    hide KindOf, First, Second, Third, Fourth, Octet0, Octet1, Octet2;
    Sextets(a, b, c);
  }

  lemma PairIsBlock(a: Byte, b: Byte)
    ensures IsBlock(PairTail(a, b)) && Octets(PairTail(a, b)) == [a, b]
  {
    hide First, Second, Third, Fourth, Octet0, Octet1, Octet2;
    Sextets(a, b, 0);
  }

  lemma SingleIsBlock(a: Byte)
    ensures IsBlock(SingleTail(a)) && Octets(SingleTail(a)) == [a]
  {
    hide First, Second, Third, Fourth, Octet0, Octet1, Octet2;
    Sextets(a, 0, 0);
  }

  lemma OneBlock(q: seq<Byte>)
    requires IsBlock(q)
    ensures Blocks(q) == Some(Octets(q))
  {
    assert q[..4] == q && q[4..] == [];
    assert Octets(q) + [] == Octets(q);
  }

  lemma {:induction false} EncodedBlocks(s: seq<Byte>)
    ensures Blocks(Encode(s)) == Some(s)
  {
    if |s| == 1 {
      SingleIsBlock(s[0]);
      OneBlock(SingleTail(s[0]));
      assert s == [s[0]];
    } else if |s| == 2 {
      PairIsBlock(s[0], s[1]);
      OneBlock(PairTail(s[0], s[1]));
      assert s == [s[0], s[1]];
    } else if |s| >= 3 {
      var q := Quad(s[0], s[1], s[2]);
      QuadIsBlock(s[0], s[1], s[2]);
      OneBlock(q);
      EncodedBlocks(s[3..]);
      BlocksConcat(q, Encode(s[3..]));
      assert s == [s[0], s[1], s[2]] + s[3..];
    }
  }

  lemma {:induction false} EncodedHasNoBlanks(s: seq<Byte>)
    ensures forall i :: 0 <= i < |Encode(s)| ==> !KindOf(Encode(s)[i]).Blank?
  {
    if |s| >= 3 {
      EncodedHasNoBlanks(s[3..]);
    }
  }

  /** Decoding undoes encoding, wherever blanks were put into the text since. */
  lemma DecodeEncoded(s: seq<Byte>, text: seq<Byte>)
    requires Strip(text) == Encode(s)
    ensures Decode(text) == Some(s)
  {
    EncodedBlocks(s);
  }

  lemma RoundTrip(s: seq<Byte>)
    ensures Decode(Encode(s)) == Some(s)
  {
    EncodedHasNoBlanks(s);
    StripIdle(Encode(s));
    EncodedBlocks(s);
  }

  /// Texts without padding

  /** The text without the padding at its end. */
  function Unpadded(t: seq<Byte>): seq<Byte> {
    if t != [] && t[|t| - 1] == EQUALS then Unpadded(t[..|t| - 1]) else t
  }

  /** Characters in front of the last letter stay. */
  lemma {:induction false} UnpaddedBehind(q: seq<Byte>, t: seq<Byte>)
    requires q != [] && q[|q| - 1] != EQUALS
    ensures Unpadded(q + t) == q + Unpadded(t)
    decreases |t|
  {
    if t == [] {
      assert q + t == q && q + Unpadded(t) == q;
    } else if t[|t| - 1] == EQUALS {
      assert (q + t)[..|q + t| - 1] == q + t[..|t| - 1];
      UnpaddedBehind(q, t[..|t| - 1]);
    }
  }

  lemma LettersAreNotPadding(k: Sextet)
    ensures Letter(k) != EQUALS
  {
  }

  /** A last block loses exactly its padding. */
  lemma UnpaddedTails(a: Byte, b: Byte)
    ensures |Unpadded(SingleTail(a))| == 2 && |Unpadded(PairTail(a, b))| == 3
  {
    LettersAreNotPadding(Second(a, 0));
    LettersAreNotPadding(Third(b, 0));
    hide Letter, KindOf, First, Second, Third;
    var l, m, n := Letter(First(a)), Letter(Second(a, b)), Letter(Third(b, 0));
    UnpaddedBehind([l, m, n], [EQUALS]);
    assert [l, m, n] + [EQUALS] == PairTail(a, b);
    var k := Letter(Second(a, 0));
    UnpaddedBehind([l, k], [EQUALS, EQUALS]);
    assert [l, k] + [EQUALS, EQUALS] == SingleTail(a);
    assert [EQUALS, EQUALS][..1] == [EQUALS] && [EQUALS][..0] == [];
  }

  lemma NothingUnpadded()
    ensures Unpadded([]) == []
  {
  }

  lemma QuadEnds(a: Byte, b: Byte, c: Byte)
    ensures Quad(a, b, c)[3] != EQUALS
  {
    LettersAreNotPadding(Fourth(c));
  }

  /** Nothing is dropped exactly if the octets fill their blocks, and otherwise the last block stays short. */
  lemma {:induction false} UnpaddedEncoded(s: seq<Byte>)
    ensures |s| % 3 == 0 ==> Unpadded(Encode(s)) == Encode(s)
    ensures |s| % 3 != 0 ==> |Unpadded(Encode(s))| % 4 != 0
  {
    hide Quad, SingleTail, PairTail, Unpadded;
    if s == [] {
      NothingUnpadded();
    } else if |s| == 1 {
      UnpaddedTails(s[0], 0);
    } else if |s| == 2 {
      UnpaddedTails(s[0], s[1]);
    } else if |s| >= 3 {
      UnpaddedEncoded(s[3..]);
      QuadEnds(s[0], s[1], s[2]);
      UnpaddedBehind(Quad(s[0], s[1], s[2]), Encode(s[3..]));
      WholeBlock(|s|, |Unpadded(Encode(s[3..]))|);
    }
  }

  lemma WholeBlock(n: nat, k: nat)
    ensures n >= 3 ==> (n - 3) % 3 == n % 3
    ensures (4 + k) % 4 == k % 4
  {
  }

  lemma {:induction false} UnpaddedKeeps(t: seq<Byte>)
    requires forall i :: 0 <= i < |t| ==> !KindOf(t[i]).Blank?
    ensures forall i :: 0 <= i < |Unpadded(t)| ==> !KindOf(Unpadded(t)[i]).Blank?
  {
    hide KindOf;
    if t != [] && t[|t| - 1] == EQUALS { UnpaddedKeeps(t[..|t| - 1]); }
  }

  /** An encoding without its padding is read exactly if it never had any, which is if the number of octets is a
      multiple of three. */
  lemma UnpaddedIsReadIff(s: seq<Byte>)
    ensures Decode(Unpadded(Encode(s))) == Some(s) <==> |s| % 3 == 0
    ensures |s| % 3 != 0 ==> Decode(Unpadded(Encode(s))) == None
  {
    hide Decode, Encode, Unpadded;
    UnpaddedEncoded(s);
    if |s| % 3 == 0 {
      RoundTrip(s);
    } else {
      EncodedHasNoBlanks(s);
      UnpaddedKeeps(Encode(s));
      StripIdle(Unpadded(Encode(s)));
      UnpaddedIsRefused(Unpadded(Encode(s)));
    }
  }

  /// Canonical texts

  /** The character is the encoder's own for what it stands for. */
  predicate Standard(b: Byte) {
    KindOf(b).Pad? || (KindOf(b).Code? && b == Letter(KindOf(b).v))
  }

  /** Only the encoder's alphabet, and no bits set that the padding drops. */
  predicate CanonicalBlock(q: seq<Byte>) {
    && IsBlock(q)
    && Standard(q[0]) && Standard(q[1]) && Standard(q[2]) && Standard(q[3])
    && (KindOf(q[2]).Pad? ==> KindOf(q[1]).v % 16 == 0)
    && (Padded(q) && KindOf(q[2]).Code? ==> KindOf(q[2]).v % 4 == 0)
  }

  /** Canonical blocks, of which only the last may be padded. */
  predicate Canonical(t: seq<Byte>) {
    t == [] || (|t| >= 4 && CanonicalBlock(t[..4]) && (Padded(t[..4]) ==> |t| == 4) && Canonical(t[4..]))
  }

  lemma PadIsEquals(b: Byte)
    ensures KindOf(b).Pad? <==> b == EQUALS
  {
  }

  lemma SingleIsEncoded(q: seq<Byte>)
    requires IsBlock(q) && KindOf(q[2]).Pad?
    ensures SingleTail(Octets(q)[0]) == q <==> CanonicalBlock(q)
  {
    hide KindOf, Letter, First, Second, Octet0;
    PadIsEquals(q[2]);
    PadIsEquals(q[3]);
    SingleBack(KindOf(q[0]).v, KindOf(q[1]).v);
    assert q == [q[0], q[1], q[2], q[3]];
  }

  lemma PairIsEncoded(q: seq<Byte>)
    requires IsBlock(q) && KindOf(q[2]).Code? && Padded(q)
    ensures PairTail(Octets(q)[0], Octets(q)[1]) == q <==> CanonicalBlock(q)
  {
    hide KindOf, Letter, First, Second, Third, Octet0, Octet1;
    PadIsEquals(q[3]);
    PairBack(KindOf(q[0]).v, KindOf(q[1]).v, KindOf(q[2]).v);
    assert q == [q[0], q[1], q[2], q[3]];
  }

  lemma QuadIsEncoded(q: seq<Byte>)
    requires IsBlock(q) && !Padded(q)
    ensures Quad(Octets(q)[0], Octets(q)[1], Octets(q)[2]) == q <==> CanonicalBlock(q)
  {
    hide KindOf, Letter, First, Second, Third, Fourth, Octet0, Octet1, Octet2;
    SextetsBack(KindOf(q[0]).v, KindOf(q[1]).v, KindOf(q[2]).v, KindOf(q[3]).v);
    assert q == [q[0], q[1], q[2], q[3]];
  }

  lemma BlockIsEncoded(q: seq<Byte>)
    requires IsBlock(q)
    ensures Encode(Octets(q)) == q <==> CanonicalBlock(q)
  {
    hide KindOf, Quad, PairTail, SingleTail, CanonicalBlock;
    if KindOf(q[2]).Pad? {
      SingleIsEncoded(q);
    } else if Padded(q) {
      PairIsEncoded(q);
    } else {
      QuadIsEncoded(q);
      var o := Octets(q);
      assert Encode(o[3..]) == [];
      assert Encode(o) == Quad(o[0], o[1], o[2]);
    }
  }

  /** Padding that is not at the end is not the encoder's. */
  lemma PaddingIsLast(x: seq<Byte>, t: seq<Byte>)
    requires |t| > 4 && Padded(t[..4])
    ensures Encode(x) != t
  {
    EncodedLength(x);
  }

  /** Encoding undoes decoding on exactly the canonical texts. */
  lemma {:induction false} EncodeDecoded(t: seq<Byte>)
    requires Blocks(t).Some?
    ensures Encode(Blocks(t).value) == t <==> Canonical(t)
  {
    if t != [] {
      var q, x := t[..4], Blocks(t[4..]).value;
      BlockIsEncoded(q);
      EncodeDecoded(t[4..]);
      if Padded(q) {
        if |t| > 4 {
          PaddingIsLast(Octets(q) + x, t);
        } else {
          assert t == q;
          assert Octets(q) + x == Octets(q);
        }
      } else {
        var o := Octets(q);
        assert o[3..] == [];
        assert (o + x)[3..] == x;
        assert Encode(o) == Quad(o[0], o[1], o[2]);
        assert Encode(o + x) == Encode(o) + Encode(x);
        assert t == q + t[4..];
      }
    }
  }

  /** The bits that padding drops are not looked at, so texts may differ and share their octets. */
  lemma SlackIsDropped(v: Sextet, w: Sextet, x: Sextet)
    requires w / 16 == x / 16
    ensures Blocks([Letter(v), Letter(w), EQUALS, EQUALS])
         == Blocks([Letter(v), Letter(x), EQUALS, EQUALS])
         == Some([Octet0(v, w)])
  {
    hide Letter;
    OneBlock([Letter(v), Letter(w), EQUALS, EQUALS]);
    OneBlock([Letter(v), Letter(x), EQUALS, EQUALS]);
  }
}

/** The encoder and the decoder, as loops over their buffers. */
module Base64 {
  import opened Bytes
  import opened Options
  import opened Base64Spec

  /** Encodes into a buffer and returns the number of characters written. */
  method EncodeInto(src: seq<Byte>, out: array<Byte>) returns (n: nat)
    requires out.Length >= 4 * ((|src| + 2) / 3)
    modifies out
    ensures n == 4 * ((|src| + 2) / 3)
    ensures out[..n] == Encode(src)
    ensures out[n..] == old(out[n..])
  {
    hide Encode, Quad, PairTail, SingleTail;
    var i := 0;
    n := 0;
    ghost var before := out[..];
    Start(src);
    while |src| - i >= 3
      invariant 0 <= i <= |src| && i % 3 == 0 && n == 4 * (i / 3) && n <= out.Length
      invariant out[..n] + Encode(src[i..]) == Encode(src)
      invariant out[n..] == before[n..]
    {
      label L:
      WriteFour(out, n, Quad(src[i], src[i + 1], src[i + 2]));
      Pieces(src, i);
      Associate(old@L(out[..n]), Quad(src[i], src[i + 1], src[i + 2]), Encode(src[i + 3..]));
      n := n + 4;
      i := i + 3;
    }
    Ends(src, i);
    if |src| - i != 0 {
      if |src| - i == 1 {
        WriteFour(out, n, SingleTail(src[i]));
      } else {
        WriteFour(out, n, PairTail(src[i], src[i + 1]));
      }
      n := n + 4;
    }
  }

  lemma Start(src: seq<Byte>)
    ensures src[0..] == src && [] + Encode(src) == Encode(src)
  {
  }

  lemma Pieces(src: seq<Byte>, i: nat)
    requires i + 3 <= |src|
    ensures Encode(src[i..]) == Quad(src[i], src[i + 1], src[i + 2]) + Encode(src[i + 3..])
  {
    assert src[i..][3..] == src[i + 3..];
  }

  lemma Ends(src: seq<Byte>, i: nat)
    requires i <= |src| < i + 3
    ensures |src| == i ==> Encode(src[i..]) == []
    ensures |src| == i + 1 ==> Encode(src[i..]) == SingleTail(src[i])
    ensures |src| == i + 2 ==> Encode(src[i..]) == PairTail(src[i], src[i + 1])
  {
  }

  method WriteFour(out: array<Byte>, n: nat, q: seq<Byte>)
    requires n + 4 <= out.Length && |q| == 4
    modifies out
    ensures out[..n + 4] == old(out[..n]) + q
    ensures out[n + 4..] == old(out[n + 4..])
  {
    out[n], out[n + 1], out[n + 2], out[n + 3] := q[0], q[1], q[2], q[3];
  }

  const ALIEN: nat := 0x80
  const BLANK: nat := 0x7f

  /** The decoding table. */
  function Lookup(b: Byte): (r: Byte)
    requires b < 128
    ensures match KindOf(b)
            case Code(v) => r == v && b != EQUALS
            case Pad => r == 0 && b == EQUALS
            case Blank => r == BLANK
            case Alien => r == ALIEN
  {
    if 65 <= b <= 90 then b - 65
    else if 97 <= b <= 122 then b - 71
    else if 48 <= b <= 57 then b + 4
    else if b == 43 || b == 45 then 62
    else if b == 47 || b == 95 then 63
    else if b == 61 then 0
    else if b == 9 || b == 10 || b == 13 || b == 32 then BLANK
    else ALIEN
  }

  /** The characters of a block that has begun, and can still be completed. */
  predicate Begun(p: seq<Byte>) {
    && |p| <= 4
    && (forall i :: 0 <= i < |p| ==> KindOf(p[i]).Code? || KindOf(p[i]).Pad?)
    && (forall i :: 0 <= i < |p| && i < 2 ==> KindOf(p[i]).Code?)
    && (|p| == 4 && KindOf(p[2]).Pad? ==> KindOf(p[3]).Pad?)
  }

  lemma BegunIsBlock(p: seq<Byte>)
    requires |p| == 4
    ensures Begun(p) <==> IsBlock(p)
  {
  }

  /** No text that goes on from an impossible block decodes. */
  lemma Impossible(done: seq<Byte>, p: seq<Byte>, rest: seq<Byte>)
    requires Blocks(done).Some? && 0 < |p| <= 4 && !Begun(p)
    ensures Blocks(done + (p + rest)).None?
  {
    BlocksConcat(done, p + rest);
    var t := p + rest;
    if |t| >= 4 {
      BegunIsBlock(t[..4]);
      assert forall i :: 0 <= i < |p| ==> t[..4][i] == p[i];
    }
  }

  /** What the code keeps of a character: its value, or zero for padding. */
  function Value(b: Byte): Byte {
    if KindOf(b).Code? then KindOf(b).v else 0
  }

  function Pads(p: seq<Byte>): nat
    requires |p| <= 4
  {
    (if |p| >= 3 && KindOf(p[2]).Pad? then 1 else 0) + (if |p| == 4 && KindOf(p[3]).Pad? then 1 else 0)
  }

  /** The block buffer holds the values of the block that has begun. */
  predicate Holds(block: seq<Byte>, p: seq<Byte>) {
    |p| <= |block| && forall i :: 0 <= i < |p| ==> block[i] == Value(p[i])
  }

  /** Reads one character into the block; false means that the block became impossible. */
  method TakeCharacter(b: Byte, block: array<Byte>, count: nat, pad: nat, ghost p: seq<Byte>)
    returns (ok: bool, count': nat, pad': nat)
    requires block.Length == 4 && count == |p| < 4 && pad == Pads(p)
    requires Begun(p) && Holds(block[..], p)
    modifies block
    ensures ok <==> KindOf(b).Blank? || Begun(p + [b])
    ensures ok ==> count' == |p + Kept(b)| && pad' == Pads(p + Kept(b)) && Begun(p + Kept(b))
    ensures ok ==> Holds(block[..], p + Kept(b))
  {
    ok, count', pad' := true, count, pad;
    if b >= 128 {
      ok := false;
      assert KindOf((p + [b])[|p|]).Alien?;
      return;
    }
    var tmp := Lookup(b);
    if tmp == ALIEN {
      ok := false;
      assert KindOf((p + [b])[|p|]).Alien?;
      return;
    }
    if tmp == BLANK {
      assert p + Kept(b) == p;
      return;
    }
    block[count'] := tmp;
    count' := count' + 1;
    if b == EQUALS {
      if count' < 3 {
        ok := false;
        assert !KindOf((p + [b])[|p|]).Code?;
        return;
      }
      block[count' - 1] := 0;
      pad' := pad' + 1;
    } else if pad' > 0 {
      ok := false;
      return;
    }
  }

  /** The octets of four values, each cut to eight bits. */
  lemma Cut0(v: Sextet, w: Sextet)
    ensures (v * 4 + w / 16) % 256 == Octet0(v, w)
  {
  }

  lemma Cut1(w: Sextet, x: Sextet)
    ensures (w * 16 % 256 + x / 4) % 256 == Octet1(w, x)
  {
    assert w * 16 == 256 * (w / 16) + w % 16 * 16;
  }

  lemma Cut2(x: Sextet, y: Sextet)
    ensures (x * 64 % 256 + y) % 256 == Octet2(x, y)
  {
    assert x * 64 == 256 * (x / 4) + x % 4 * 64;
  }

  /** A block's octets are the first of the three that its values give. */
  lemma OctetsOfValues(q: seq<Byte>)
    requires IsBlock(q)
    ensures forall i :: 0 <= i < 4 ==> Value(q[i]) < 64
    ensures Octets(q) == [Octet0(Value(q[0]), Value(q[1])), Octet1(Value(q[1]), Value(q[2])),
                          Octet2(Value(q[2]), Value(q[3]))][..3 - Pads(q)]
  {
    hide KindOf, Octet0, Octet1, Octet2;
  }

  /** Writes the octets of a complete block and steps back over those that were padding. */
  method WriteOctets(out: array<Byte>, pos: nat, block: array<Byte>, pad: nat, ghost q: seq<Byte>)
    returns (pos': nat)
    requires out != block && block.Length == 4 && pos + 3 <= out.Length
    requires IsBlock(q) && pad == Pads(q) && Holds(block[..], q)
    modifies out
    ensures pos' <= pos + 3
    ensures out[..pos'] == old(out[..pos]) + Octets(q)
  {
    hide KindOf, Value, Octets, Octet0, Octet1, Octet2;
    OctetsOfValues(q);
    var v: nat, w: nat, x: nat, y: nat := block[0], block[1], block[2], block[3];
    Cut0(v, w);
    Cut1(w, x);
    Cut2(x, y);
    out[pos] := (v * 4 + w / 16) % 256;
    out[pos + 1] := (w * 16 % 256 + x / 4) % 256;
    out[pos + 2] := (x * 64 % 256 + y) % 256;
    pos' := pos + 3;
    pos' := pos' - pad;
  }

  lemma {:induction false} Advance(src: seq<Byte>, i: nat)
    requires i < |src|
    ensures Strip(src[..i + 1]) == Strip(src[..i]) + Kept(src[i])
    ensures Strip(src) == Strip(src[..i + 1]) + Strip(src[i + 1..])
  {
    StripConcat(src[..i], [src[i]]);
    assert src[..i + 1] == src[..i] + [src[i]];
    assert Strip([src[i]]) == Kept(src[i]);
    StripConcat(src[..i + 1], src[i + 1..]);
    assert src == src[..i + 1] + src[i + 1..];
  }

  /** The text read so far is a run of decoded blocks and a block that has begun. */
  ghost predicate Reading(text: seq<Byte>, done: seq<Byte>, p: seq<Byte>, octets: seq<Byte>) {
    && text == done + p
    && |p| < 4 && Begun(p)
    && Blocks(done) == Some(octets) && |octets| <= 3 * (|done| / 4) && |done| % 4 == 0
  }

  lemma Refuse(src: seq<Byte>, i: nat, done: seq<Byte>, p: seq<Byte>, octets: seq<Byte>)
    requires i < |src| && Reading(Strip(src[..i]), done, p, octets)
    requires !KindOf(src[i]).Blank? && !Begun(p + [src[i]])
    ensures Decode(src) == None
  {
    hide Begun, Blocks, Strip, KindOf;
    Advance(src, i);
    var rest := Strip(src[i + 1..]);
    Impossible(done, p + [src[i]], rest);
    assert done + p + [src[i]] + rest == done + (p + [src[i]] + rest);
  }

  lemma Complete(done: seq<Byte>, q: seq<Byte>, octets: seq<Byte>)
    requires Blocks(done) == Some(octets) && |octets| <= 3 * (|done| / 4) && |done| % 4 == 0
    requires IsBlock(q)
    ensures Reading(done + q, done + q, [], octets + Octets(q))
  {
    hide Blocks, Octets, KindOf;
    OneBlock(q);
    BlocksConcat(done, q);
    assert done + q == done + q + [];
  }

  /** A block that has begun at the end of the text makes it invalid. */
  lemma Finished(text: seq<Byte>, done: seq<Byte>, p: seq<Byte>, octets: seq<Byte>)
    requires Reading(text, done, p, octets)
    ensures Blocks(text) == if p == [] then Some(octets) else None
  {
    BlocksConcat(done, p);
    assert p == [] ==> octets + [] == octets;
  }

  /** Decodes a text into a new buffer; None stands for the error return. */
  method Unbase64(src: seq<Byte>) returns (result: Option<seq<Byte>>)
    ensures result == Decode(src)
  {
    hide Begun, Blocks, IsBlock, Octets, Strip, Kept, Holds, Pads;
    if |src| == 0 {
      EmptyText();
      return Some([]);
    }
    var out := new Byte[|src| / 4 * 3 + 4];
    var block := new Byte[4];
    var pad: nat, count: nat, pos: nat := 0, 0, 0;
    ghost var done: seq<Byte>, p: seq<Byte> := [], [];
    EmptyText();
    Nothing(block[..]);
    for i := 0 to |src|
      invariant count == |p| < 4 && pad == Pads(p) && Holds(block[..], p)
      invariant pos <= out.Length && |done| + |p| <= i
      invariant Reading(Strip(src[..i]), done, p, out[..pos])
    {
      var b, ok := src[i], true;
      ok, count, pad := TakeCharacter(b, block, count, pad, p);
      if !ok {
        Refuse(src, i, done, p, out[..pos]);
        return None;
      }
      Advance(src, i);
      KeptIsShort(b);
      assert done + p + Kept(b) == done + (p + Kept(b));
      p := p + Kept(b);
      if count == 4 {
        BegunIsBlock(p);
        Complete(done, p, out[..pos]);
        PadsAreFew(p);
        pos := WriteOctets(out, pos, block, pad, p);
        count := 0;
        pad := 0;
        done, p := done + p, [];
        Nothing(block[..]);
      }
    }
    assert src[..|src|] == src;
    Finished(Strip(src), done, p, out[..pos]);
    if count > 0 {
      return None;
    }
    return Some(out[..pos]);
  }

  lemma EmptyText()
    ensures Decode([]) == Some([])
    ensures Reading(Strip([]), [], [], [])
  {
  }

  lemma Nothing(block: seq<Byte>)
    ensures Holds(block, []) && Pads([]) == 0
  {
  }

  lemma KeptIsShort(b: Byte)
    ensures |Kept(b)| <= 1
  {
  }

  /** The test for more than two padding characters in a block never holds. */
  lemma PadsAreFew(p: seq<Byte>)
    requires |p| <= 4
    ensures Pads(p) <= 2
  {
  }
}
