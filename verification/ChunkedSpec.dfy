/** Chunked transfer coding (section 7.1 of RFC 9112): the decoder as a machine that takes one octet at a time,
    and the coding it decodes. */
module ChunkedSpec {
  import opened Bytes
  import opened Powers
  import opened Words

  const TAB: Byte := 9
  const LF: Byte := 10
  const CR: Byte := 13
  const SPACE: Byte := 32
  const SEMICOLON: Byte := 59

  const HEX_DIGITS: nat := 16

  datatype State = Size | Ext | HeaderLf | Data | DataCr | DataLf | TrailerHead | TrailerMiddle

  /** `left` is the size read so far, or the number of data octets to come; `hex` counts digits of the size. */
  datatype Decoder = Decoder(state: State, left: nat, hex: nat)

  const FRESH: Decoder := Decoder(Size, 0, 0)

  datatype Outcome = Incomplete | Complete | Failed

  function HexValue(b: Byte): int {
    if 48 <= b <= 57 then b - 48
    else if 65 <= b <= 70 then b - 55
    else if 97 <= b <= 102 then b - 87
    else -1
  }

  /// One octet

  datatype Step = Next(d: Decoder, out: seq<Byte>) | Done(d: Decoder) | Error(d: Decoder)

  function InSize(d: Decoder, b: Byte): Step {
    var v := HexValue(b);
    if v >= 0 then
      if d.hex == HEX_DIGITS then Error(d) else Next(Decoder(Size, d.left * 16 + v, d.hex + 1), [])
    else if d.hex == 0 then Error(d)
    else if b != SPACE && b != TAB && b != SEMICOLON && b != LF && b != CR then Error(d)
    else InExt(Decoder(Ext, d.left, 0), b)
  }

  function InExt(d: Decoder, b: Byte): Step {
    if b == CR then Next(d.(state := HeaderLf), []) else if b == LF then Error(d) else Next(d, [])
  }

  function InHeaderLf(trailer: bool, d: Decoder, b: Byte): Step {
    if b != LF then Error(d)
    else if d.left > 0 then Next(d.(state := Data), [])
    else if trailer then Next(d.(state := TrailerHead), [])
    else Done(d)
  }

  function InData(d: Decoder, b: Byte): Step
    requires d.left > 0
  {
    Next(Decoder(if d.left == 1 then DataCr else Data, d.left - 1, d.hex), [b])
  }

  function Take(trailer: bool, d: Decoder, b: Byte): Step
    requires Sound(d)
  {
    match d.state
    case Size => InSize(d, b)
    case Ext => InExt(d, b)
    case HeaderLf => InHeaderLf(trailer, d, b)
    case Data => InData(d, b)
    case DataCr => if b == CR then Next(d.(state := DataLf), []) else Error(d)
    case DataLf => if b == LF then Next(d.(state := Size), []) else Error(d)
    case TrailerHead =>
      if b == CR then Next(d, []) else if b == LF then Done(d) else Next(d.(state := TrailerMiddle), [])
    case TrailerMiddle => Next(if b == LF then d.(state := TrailerHead) else d, [])
  }

  /** The size has at most 16 digits, so it fits 64 bits; data is only expected where some is left. */
  predicate Sound(d: Decoder) {
    && d.hex <= HEX_DIGITS && d.left < W64
    && (d.state == Size ==> d.left < Pow(16, d.hex))
    && (d.state != Size ==> d.hex == 0)
    && (d.state == Data ==> d.left > 0)
    && (d.state != Size && d.state != Ext && d.state != HeaderLf && d.state != Data ==> d.left == 0)
  }

  /** The size stays within 64 bits, because more digits are refused. */
  lemma StaysSound(trailer: bool, d: Decoder, b: Byte)
    requires Sound(d)
    ensures var r := Take(trailer, d, b); Sound(r.d)
  {
    hide Pow;
    if d.state == Size {
      if HexValue(b) >= 0 && d.hex < HEX_DIGITS {
        NextDigit(d.left, d.hex, HexValue(b));
        SizeFits(d.hex + 1);
      }
    } else {
      NoDigits();
    }
  }

  lemma NextDigit(left: nat, hex: nat, v: nat)
    requires left < Pow(16, hex) && v < 16
    ensures left * 16 + v < Pow(16, hex + 1)
  {
  }

  lemma NoDigits()
    ensures Pow(16, 0) == 1
  {
  }

  lemma SizeFits(n: nat)
    requires n <= HEX_DIGITS
    ensures Pow(16, n) <= W64
  {
    var p4, p8 := Pow(16, 4), Pow(16, 8);
    assert p4 == 0x1_0000;
    PowAdd(16, 4, 4);
    PowAdd(16, 8, 8);
    hide Pow;
    PowMonotone(16, n, HEX_DIGITS);
  }

  /// A run over octets

  datatype Run = Run(d: Decoder, out: seq<Byte>, outcome: Outcome, used: nat)

  function Decode(trailer: bool, d: Decoder, s: seq<Byte>): (r: Run)
    requires Sound(d)
    ensures Sound(r.d) && r.used <= |s| && (r.outcome == Incomplete ==> r.used == |s|) && |r.out| <= r.used
    decreases |s|
  {
    if s == [] then Run(d, [], Incomplete, 0)
    else
      StaysSound(trailer, d, s[0]);
      match Take(trailer, d, s[0])
      case Error(d') => Run(d', [], Failed, 0)
      case Done(d') => Run(d', [], Complete, 1)
      case Next(d', out) => After(out, 1, Decode(trailer, d', s[1..]))
  }

  function After(out: seq<Byte>, used: nat, r: Run): Run {
    Run(r.d, out + r.out, r.outcome, used + r.used)
  }

  lemma AfterAfter(o1: seq<Byte>, u1: nat, o2: seq<Byte>, u2: nat, r: Run)
    ensures After(o1, u1, After(o2, u2, r)) == After(o1 + o2, u1 + u2, r)
  {
  }

  /** Decoding in two pieces is decoding at once. */
  lemma {:induction false} DecodeSplits(trailer: bool, d: Decoder, y: seq<Byte>, z: seq<Byte>)
    requires Sound(d)
    ensures var r := Decode(trailer, d, y);
            Decode(trailer, d, y + z) == if r.outcome == Incomplete
              then After(r.out, |y|, Decode(trailer, r.d, z)) else r
    decreases |y|
  {
    hide Sound;
    if y == [] {
      assert y + z == z;
    } else {
      StaysSound(trailer, d, y[0]);
      hide Take;
      assert (y + z)[0] == y[0] && (y + z)[1..] == y[1..] + z;
      var t := Take(trailer, d, y[0]);
      if t.Next? {
        DecodeSplits(trailer, t.d, y[1..], z);
        var r := Decode(trailer, t.d, y[1..]);
        AfterAfter(t.out, 1, r.out, |y| - 1, Decode(trailer, r.d, z));
      }
    }
  }

  /** Data octets are copied in a block. */
  lemma {:induction false} DecodeData(trailer: bool, d: Decoder, s: seq<Byte>, n: nat)
    requires Sound(d) && d.state == Data && n <= |s| && n <= d.left
    ensures var d' := Decoder(if n == d.left then DataCr else Data, d.left - n, d.hex);
            Sound(d') && Decode(trailer, d, s) == After(s[..n], n, Decode(trailer, d', s[n..]))
    decreases n
  {
    hide Pow, Decode;
    NoDigits();
    var d' := Decoder(if n == d.left then DataCr else Data, d.left - n, d.hex);
    if n == 0 {
      assert s[..0] == [] && s[0..] == s;
    } else {
      var d1 := InData(d, s[0]).d;
      assert Take(trailer, d, s[0]) == Next(d1, [s[0]]);
      DecodeNext(trailer, d, s);
      if n > 1 {
        DecodeData(trailer, d1, s[1..], n - 1);
        SliceStep(s, n);
        hide After, Take, Sound;
        AfterAfter([s[0]], 1, s[1..][..n - 1], n - 1, Decode(trailer, d', s[n..]));
      } else {
        assert s[..1] == [s[0]];
      }
    }
  }

  lemma SliceStep(s: seq<Byte>, n: nat)
    requires 1 <= n <= |s|
    ensures s[1..][n - 1..] == s[n..] && s[..n] == [s[0]] + s[1..][..n - 1]
  {
  }

  lemma DecodeNext(trailer: bool, d: Decoder, s: seq<Byte>)
    requires Sound(d) && s != [] && Take(trailer, d, s[0]).Next?
    ensures var t := Take(trailer, d, s[0]);
            Sound(t.d) && Decode(trailer, d, s) == After(t.out, 1, Decode(trailer, t.d, s[1..]))
  {
    StaysSound(trailer, d, s[0]);
    hide Take, Sound;
  }

  /** One octet without output. */
  lemma DecodeSkips(trailer: bool, d: Decoder, s: seq<Byte>)
    requires Sound(d) && s != [] && Take(trailer, d, s[0]).Next? && Take(trailer, d, s[0]).out == []
    ensures var d' := Take(trailer, d, s[0]).d;
            Sound(d') && Decode(trailer, d, s) == After([], 1, Decode(trailer, d', s[1..]))
  {
    hide Take, Sound;
    DecodeNext(trailer, d, s);
  }

  /// Calls

  const OVERHEAD_LIMIT: nat := 100 * 1024

  /** The decoder between calls, with the octets read and the coding overhead so far. */
  datatype Session = Session(d: Decoder, read: nat, overhead: nat)

  /** The result is -2 for more, -1 for an error, else the number of octets behind the body. */
  datatype Called = Called(session: Session, ret: int, out: seq<Byte>, behind: seq<Byte>)

  predicate TooMuchOverhead(read: nat, overhead: int) {
    overhead >= OVERHEAD_LIMIT && read - overhead < read / 4
  }

  function Call(trailer: bool, session: Session, s: seq<Byte>): Called
    requires Sound(session.d)
  {
    var r := Decode(trailer, session.d, s);
    var read := session.read + |s|;
    match r.outcome
    case Failed => Called(Session(r.d, read, session.overhead), -1, r.out, s[r.used..])
    case Complete => Called(Session(r.d, read, session.overhead), |s| - r.used, r.out, s[r.used..])
    case Incomplete =>
      var overhead := session.overhead + |s| - |r.out|;
      Called(Session(r.d, read, overhead), if TooMuchOverhead(read, overhead) then -1 else -2, r.out, [])
  }

  /** Two calls, the first of which asks for more, do what one call does with all octets: the same output, result,
      octets behind the body and decoder. The overhead counted so far is also the same unless the body ends. */
  lemma CallsSplit(trailer: bool, session: Session, y: seq<Byte>, z: seq<Byte>)
    requires Sound(session.d) && Call(trailer, session, y).ret == -2
    ensures var c1 := Call(trailer, session, y);
            var c2, c := Call(trailer, c1.session, z), Call(trailer, session, y + z);
            && c.out == c1.out + c2.out && c.ret == c2.ret && c.behind == c2.behind
            && c.session.d == c2.session.d && c.session.read == c2.session.read
            && (Decode(trailer, session.d, y + z).outcome == Incomplete ==> c == c2.(out := c1.out + c2.out))
  {
    hide Sound, Decode;
    DecodeSplits(trailer, session.d, y, z);
    var r := Decode(trailer, session.d, y);
    var r2 := Decode(trailer, r.d, z);
    assert (y + z)[|y| + r2.used..] == z[r2.used..];
  }

  /** Below 100 KiB of overhead the guard never speaks. */
  lemma GuardIsSilent(trailer: bool, session: Session, s: seq<Byte>)
    requires Sound(session.d) && session.overhead + |s| < OVERHEAD_LIMIT
    ensures var r := Decode(trailer, session.d, s);
            Call(trailer, session, s).ret == -2 <==> r.outcome == Incomplete
  {
    hide Sound, Decode;
  }

  /// The coding

  /** A chunk: its size in hexadecimal, an extension, and its data. */
  datatype Chunk = Chunk(digits: seq<Byte>, ext: seq<Byte>, data: seq<Byte>)

  function HexNumber(ds: seq<Byte>): nat
    requires forall i :: 0 <= i < |ds| ==> HexValue(ds[i]) >= 0
  {
    if ds == [] then 0 else HexNumber(ds[..|ds| - 1]) * 16 + HexValue(ds[|ds| - 1])
  }

  predicate Plain(s: seq<Byte>) {
    forall i :: 0 <= i < |s| ==> s[i] != CR && s[i] != LF
  }

  predicate Proper(c: Chunk) {
    && 1 <= |c.digits| <= HEX_DIGITS && (forall i :: 0 <= i < |c.digits| ==> HexValue(c.digits[i]) >= 0)
    && HexNumber(c.digits) == |c.data|
    && Plain(c.ext) && (c.ext != [] ==> c.ext[0] == SPACE || c.ext[0] == TAB || c.ext[0] == SEMICOLON)
  }

  function Header(c: Chunk): seq<Byte> {
    c.digits + (c.ext + [CR, LF])
  }

  function Coded(c: Chunk): seq<Byte> {
    Header(c) + (c.data + [CR, LF])
  }

  predicate AllProper(chunks: seq<Chunk>) {
    forall i :: 0 <= i < |chunks| ==> Proper(chunks[i]) && chunks[i].data != []
  }

  function Body(chunks: seq<Chunk>, last: Chunk): seq<Byte> {
    if chunks == [] then Header(last) else Coded(chunks[0]) + Body(chunks[1..], last)
  }

  function Content(chunks: seq<Chunk>): seq<Byte> {
    if chunks == [] then [] else chunks[0].data + Content(chunks[1..])
  }

  predicate NoLf(line: seq<Byte>) {
    forall k :: 0 <= k < |line| ==> line[k] != LF
  }

  predicate OnlyCr(line: seq<Byte>) {
    forall k :: 0 <= k < |line| ==> line[k] == CR
  }

  /** Field lines behind the body: anything up to a line feed but carriage returns alone, which end the trailer. */
  predicate Lines(lines: seq<seq<Byte>>) {
    forall i :: 0 <= i < |lines| ==> NoLf(lines[i]) && !OnlyCr(lines[i])
  }

  /** The lines and the empty line behind them; `end` is a carriage return, but any number of them is taken. */
  function Trailer(lines: seq<seq<Byte>>, end: seq<Byte>): seq<Byte> {
    if lines == [] then end + [LF] else lines[0] + ([LF] + Trailer(lines[1..], end))
  }

  predicate Digits(ds: seq<Byte>) {
    |ds| <= HEX_DIGITS && forall i :: 0 <= i < |ds| ==> HexValue(ds[i]) >= 0
  }

  /** The decoder behind the digits of a size. */
  ghost function SizeRead(ds: seq<Byte>): (d: Decoder)
    requires Digits(ds)
    ensures Sound(d) && d.left < W64
  {
    NumberFits(ds);
    Decoder(Size, HexNumber(ds), |ds|)
  }

  lemma DigitStep(trailer: bool, ds: seq<Byte>, b: Byte, rest: seq<Byte>)
    requires Digits(ds + [b])
    ensures Digits(ds)
    ensures Decode(trailer, SizeRead(ds), [b] + rest) == After([], 1, Decode(trailer, SizeRead(ds + [b]), rest))
  {
    assert Digits(ds) by { assert forall i :: 0 <= i < |ds| ==> (ds + [b])[i] == ds[i]; }
    var d, s := SizeRead(ds), [b] + rest;
    assert (ds + [b])[..|ds|] == ds && s[0] == b && s[1..] == rest;
    hide Decode, Pow;
    assert Take(trailer, d, b) == Next(SizeRead(ds + [b]), []);
    hide Take, SizeRead, Sound;
    DecodeSkips(trailer, d, s);
  }

  lemma {:induction false} DigitsRead(trailer: bool, ds: seq<Byte>, k: nat, rest: seq<Byte>)
    requires k <= |ds| && Digits(ds)
    ensures Digits(ds[..k])
    ensures Decode(trailer, SizeRead(ds[..k]), ds[k..] + rest)
            == After([], |ds| - k, Decode(trailer, SizeRead(ds), rest))
    decreases |ds| - k
  {
    DigitsPrefix(ds, k);
    hide SizeRead, Decode, Digits, Sound;
    OctetStep(ds, k, rest);
    if k < |ds| {
      DigitsRead(trailer, ds, k + 1, rest);
      DigitStep(trailer, ds[..k], ds[k], ds[k + 1..] + rest);
    }
  }

  lemma DigitsPrefix(ds: seq<Byte>, k: nat)
    requires Digits(ds) && k <= |ds|
    ensures Digits(ds[..k])
  {
  }

  lemma OctetStep(ds: seq<Byte>, k: nat, rest: seq<Byte>)
    requires k <= |ds|
    ensures k == |ds| ==> ds[..k] == ds && ds[k..] + rest == rest
    ensures k < |ds| ==> ds[..k + 1] == ds[..k] + [ds[k]] && ds[k..] + rest == [ds[k]] + (ds[k + 1..] + rest)
  {
  }

  lemma {:induction false} NumberFits(ds: seq<Byte>)
    requires |ds| <= HEX_DIGITS && forall i :: 0 <= i < |ds| ==> HexValue(ds[i]) >= 0
    ensures HexNumber(ds) < Pow(16, |ds|) <= W64
    decreases |ds|
  {
    SizeFits(|ds|);
    if ds == [] {
      NoDigits();
    } else {
      NumberFits(ds[..|ds| - 1]);
      hide Pow;
      NextDigit(HexNumber(ds[..|ds| - 1]), |ds| - 1, HexValue(ds[|ds| - 1]));
    }
  }

  /** An extension and the end of the line. */
  lemma {:induction false} ExtRead(trailer: bool, left: nat, ext: seq<Byte>, rest: seq<Byte>)
    requires left < W64 && Plain(ext)
    ensures var d, d' := Decoder(Ext, left, 0), Decoder(HeaderLf, left, 0);
            && Sound(d) && Sound(d')
            && Decode(trailer, d, ext + [CR] + rest) == After([], |ext| + 1, Decode(trailer, d', rest))
    decreases |ext|
  {
    hide Pow;
    NoDigits();
    var d, s := Decoder(Ext, left, 0), ext + [CR] + rest;
    if ext == [] {
      assert s[0] == CR && s[1..] == rest;
      DecodeSkips(trailer, d, s);
    } else {
      assert s[0] == ext[0] && s[1..] == ext[1..] + [CR] + rest;
      DecodeSkips(trailer, d, s);
      ExtRead(trailer, left, ext[1..], rest);
      hide Sound, After;
      AfterAfter([], 1, [], |ext|, Decode(trailer, Decoder(HeaderLf, left, 0), rest));
    }
  }

  /** The header of a chunk up to its line feed. */
  lemma HeaderRead(trailer: bool, c: Chunk, rest: seq<Byte>)
    requires Proper(c)
    ensures var d := Decoder(HeaderLf, |c.data|, 0);
            && Sound(FRESH) && Sound(d)
            && Decode(trailer, FRESH, Header(c) + rest) == After([], |Header(c)| - 1, Decode(trailer, d, [LF] + rest))
  {
    var more := c.ext + [CR] + ([LF] + rest);
    assert Header(c) + rest == c.digits[0..] + more && c.digits[..0] == [];
    assert SizeRead(c.digits[..0]) == FRESH && SizeRead(c.digits) == Decoder(Size, |c.data|, |c.digits|);
    NumberFits(c.digits);
    hide Pow, Sound, Decode, SizeRead;
    DigitsRead(trailer, c.digits, 0, more);
    SizeEnds(trailer, c, more);
    var d := Decoder(Ext, |c.data|, 0);
    if c.ext == [] {
      ExtRead(trailer, |c.data|, [], [LF] + rest);
      assert [] + [CR] + ([LF] + rest) == more;
    } else {
      ExtRead(trailer, |c.data|, c.ext, [LF] + rest);
    }
    hide Proper, After;
    AfterAfter([], |c.digits|, [], |c.ext| + 1, Decode(trailer, Decoder(HeaderLf, |c.data|, 0), [LF] + rest));
  }

  /** The first octet behind the digits is read as part of the extension. */
  lemma SizeEnds(trailer: bool, c: Chunk, more: seq<Byte>)
    requires Proper(c) && c.ext + [CR] <= more
    ensures var d, d' := Decoder(Size, |c.data|, |c.digits|), Decoder(Ext, |c.data|, 0);
            Sound(d) && Sound(d') && Decode(trailer, d, more) == Decode(trailer, d', more)
  {
    NumberFits(c.digits);
    hide Pow;
    NoDigits();
    assert more[0] == (c.ext + [CR])[0];
    var d, d' := Decoder(Size, |c.data|, |c.digits|), Decoder(Ext, |c.data|, 0);
    assert Take(trailer, d, more[0]) == Take(trailer, d', more[0]);
  }

  /** The line end behind the data. */
  lemma DataEndRead(trailer: bool, rest: seq<Byte>)
    ensures var d := Decoder(DataCr, 0, 0);
            Sound(d) && Sound(FRESH) && Decode(trailer, d, [CR, LF] + rest)
              == After([], 2, Decode(trailer, FRESH, rest))
  {
    hide Pow, Decode;
    NoDigits();
    var s := [CR, LF] + rest;
    assert s[0] == CR && s[1..][0] == LF && s[1..][1..] == rest;
    DecodeSkips(trailer, Decoder(DataCr, 0, 0), s);
    DecodeSkips(trailer, Decoder(DataLf, 0, 0), s[1..]);
  }

  lemma DataStarts(trailer: bool, n: nat, behind: seq<Byte>)
    requires 0 < n < W64
    ensures var d, d' := Decoder(HeaderLf, n, 0), Decoder(Data, n, 0);
            Sound(d) && Sound(d') && Decode(trailer, d, [LF] + behind) == After([], 1, Decode(trailer, d', behind))
  {
    hide Pow, Decode;
    NoDigits();
    var s := [LF] + behind;
    assert s[0] == LF && s[1..] == behind;
    DecodeSkips(trailer, Decoder(HeaderLf, n, 0), s);
  }

  lemma DataBlock(trailer: bool, data: seq<Byte>, more: seq<Byte>)
    requires 0 < |data| < W64
    ensures var d, d' := Decoder(Data, |data|, 0), Decoder(DataCr, 0, 0);
            Sound(d) && Sound(d') && Decode(trailer, d, data + more) == After(data, |data|, Decode(trailer, d', more))
  {
    hide Pow, Decode;
    NoDigits();
    var s := data + more;
    assert s[..|data|] == data && s[|data|..] == more;
    DecodeData(trailer, Decoder(Data, |data|, 0), s, |data|);
  }

  /** The line feed behind a header, and the data. */
  lemma DataRead(trailer: bool, data: seq<Byte>, rest: seq<Byte>)
    requires 0 < |data| < W64
    ensures var d := Decoder(HeaderLf, |data|, 0);
            && Sound(d) && Sound(FRESH)
            && Decode(trailer, d, [LF] + (data + ([CR, LF] + rest)))
               == After(data, |data| + 3, Decode(trailer, FRESH, rest))
  {
    hide Pow, Decode, Sound, Take, After;
    DataStarts(trailer, |data|, data + ([CR, LF] + rest));
    DataBlock(trailer, data, [CR, LF] + rest);
    DataEndRead(trailer, rest);
    var r := Decode(trailer, FRESH, rest);
    AfterAfter(data, |data|, [], 2, r);
    AfterAfter([], 1, data + [], |data| + 2, r);
    assert [] + (data + []) == data;
  }

  lemma ChunkRead(trailer: bool, c: Chunk, rest: seq<Byte>)
    requires Proper(c) && c.data != []
    ensures Sound(FRESH) && Decode(trailer, FRESH, Coded(c) + rest)
            == After(c.data, |Coded(c)|, Decode(trailer, FRESH, rest))
  {
    var behind := c.data + ([CR, LF] + rest);
    assert Coded(c) + rest == Header(c) + behind;
    NumberFits(c.digits);
    HeaderRead(trailer, c, behind);
    DataRead(trailer, c.data, rest);
    hide Decode, Sound, Proper, Header, Pow;
  }

  /** The chunks before the last one give their data. */
  lemma {:induction false} ChunksRead(trailer: bool, chunks: seq<Chunk>, last: Chunk, rest: seq<Byte>)
    requires AllProper(chunks)
    ensures Sound(FRESH) && |Body(chunks, last)| >= |Header(last)|
    ensures var body := Body(chunks, last);
            Decode(trailer, FRESH, body + rest) ==
            After(Content(chunks), |body| - |Header(last)|, Decode(trailer, FRESH, Header(last) + rest))
    decreases |chunks|
  {
    hide Decode, Header, Coded, Proper;
    NoDigits();
    if chunks != [] {
      var more := Body(chunks[1..], last);
      assert Body(chunks, last) + rest == Coded(chunks[0]) + (more + rest);
      assert Proper(chunks[0]);
      ChunkRead(trailer, chunks[0], more + rest);
      assert AllProper(chunks[1..]);
      ChunksRead(trailer, chunks[1..], last, rest);
      AfterAfter(chunks[0].data, |Coded(chunks[0])|, Content(chunks[1..]), |more| - |Header(last)|,
                 Decode(trailer, FRESH, Header(last) + rest));
    }
  }

  /** A coded body gives the data of its chunks and ends behind its last header. */
  lemma BodyDecodes(chunks: seq<Chunk>, last: Chunk, rest: seq<Byte>)
    requires AllProper(chunks) && Proper(last) && last.data == []
    ensures Sound(FRESH)
    ensures var body := Body(chunks, last);
            var r := Decode(false, FRESH, body + rest);
            r.outcome == Complete && r.out == Content(chunks) && r.used == |body|
  {
    hide Proper, Body, Content, Header;
    ChunksRead(false, chunks, last, rest);
    HeaderRead(false, last, rest);
    NoDigits();
    assert ([LF] + rest)[0] == LF;
    assert Decode(false, Decoder(HeaderLf, 0, 0), [LF] + rest) == Run(Decoder(HeaderLf, 0, 0), [], Complete, 1);
    hide Decode, Sound;
  }

  lemma {:induction false} LineRead(line: seq<Byte>, rest: seq<Byte>)
    requires NoLf(line)
    ensures var d, d' := Decoder(TrailerMiddle, 0, 0), Decoder(TrailerHead, 0, 0);
            Sound(d) && Sound(d') && Decode(true, d, line + ([LF] + rest))
              == After([], |line| + 1, Decode(true, d', rest))
    decreases |line|
  {
    hide Pow, Decode;
    NoDigits();
    var d, s := Decoder(TrailerMiddle, 0, 0), line + ([LF] + rest);
    if line == [] {
      assert s[0] == LF && s[1..] == rest;
      DecodeSkips(true, d, s);
    } else {
      assert s[0] == line[0] && s[1..] == line[1..] + ([LF] + rest);
      DecodeSkips(true, d, s);
      LineRead(line[1..], rest);
      AfterAfter([], 1, [], |line|, Decode(true, Decoder(TrailerHead, 0, 0), rest));
    }
  }

  lemma LineStep(line: seq<Byte>, more: seq<Byte>)
    requires line != []
    ensures (line + more)[0] == line[0] && (line + more)[1..] == line[1..] + more
  {
  }

  lemma CrStep(line: seq<Byte>)
    requires line != []
    ensures OnlyCr(line) <==> line[0] == CR && OnlyCr(line[1..])
    ensures NoLf(line) <==> line[0] != LF && NoLf(line[1..])
  {
    assert line == [line[0]] + line[1..];
    if line[0] == CR && OnlyCr(line[1..]) {
      forall k | 0 <= k < |line|
        ensures line[k] == CR
      {
        if k > 0 { assert line[k] == line[1..][k - 1]; }
      }
    }
    if line[0] != LF && NoLf(line[1..]) {
      forall k | 0 <= k < |line|
        ensures line[k] != LF
      {
        if k > 0 { assert line[k] == line[1..][k - 1]; }
      }
    }
  }

  /** A line from its beginning: carriage returns alone end the trailer, anything else is a field line. */
  lemma {:induction false} WholeLineRead(line: seq<Byte>, rest: seq<Byte>)
    requires NoLf(line)
    ensures var d := Decoder(TrailerHead, 0, 0);
            && Sound(d)
            && Decode(true, d, line + ([LF] + rest)) ==
               if OnlyCr(line) then Run(d, [], Complete, |line| + 1) else After([], |line| + 1, Decode(true, d, rest))
    decreases |line|
  {
    hide Pow;
    NoDigits();
    var d, s := Decoder(TrailerHead, 0, 0), line + ([LF] + rest);
    if line == [] {
      assert s[0] == LF;
    } else {
      hide Decode;
      LineStep(line, [LF] + rest);
      CrStep(line);
      DecodeSkips(true, d, s);
      if line[0] == CR {
        assert Take(true, d, s[0]) == Next(d, []);
        WholeLineRead(line[1..], rest);
        AfterAfter([], 1, [], |line|, Decode(true, d, rest));
      } else {
        assert Take(true, d, s[0]) == Next(Decoder(TrailerMiddle, 0, 0), []);
        LineRead(line[1..], rest);
        AfterAfter([], 1, [], |line|, Decode(true, d, rest));
      }
    }
  }

  lemma {:induction false} TrailerRead(lines: seq<seq<Byte>>, end: seq<Byte>, rest: seq<Byte>)
    requires Lines(lines) && OnlyCr(end)
    ensures var d := Decoder(TrailerHead, 0, 0);
            Sound(d) && Decode(true, d, Trailer(lines, end) + rest) == Run(d, [], Complete, |Trailer(lines, end)|)
    decreases |lines|
  {
    hide Decode, Sound;
    var d, s := Decoder(TrailerHead, 0, 0), Trailer(lines, end) + rest;
    if lines == [] {
      assert s == end + ([LF] + rest);
      WholeLineRead(end, rest);
    } else {
      var line, more := lines[0], Trailer(lines[1..], end);
      assert s == line + ([LF] + (more + rest));
      WholeLineRead(line, more + rest);
      TrailerRead(lines[1..], end, rest);
    }
  }

  /** The same with a trailer section. */
  lemma BodyWithTrailerDecodes(chunks: seq<Chunk>, last: Chunk, lines: seq<seq<Byte>>, end: seq<Byte>, rest: seq<Byte>)
    requires AllProper(chunks) && Proper(last) && last.data == [] && Lines(lines) && OnlyCr(end)
    ensures Sound(FRESH)
    ensures var all := Body(chunks, last) + Trailer(lines, end);
            var r := Decode(true, FRESH, all + rest);
            r.outcome == Complete && r.out == Content(chunks) && r.used == |all|
  {
    hide Proper, Body, Content, Header, Trailer, Lines, OnlyCr, Decode, Pow;
    NoDigits();
    var more := Trailer(lines, end) + rest;
    assert Body(chunks, last) + Trailer(lines, end) + rest == Body(chunks, last) + more;
    ChunksRead(true, chunks, last, more);
    HeaderRead(true, last, more);
    var s := [LF] + more;
    assert s[0] == LF && s[1..] == more;
    DecodeSkips(true, Decoder(HeaderLf, 0, 0), s);
    TrailerRead(lines, end, rest);
  }

  /// Nothing else is accepted

  lemma {:induction false} DigitsScanned(trailer: bool, s: seq<Byte>, k: nat) returns (n: nat)
    requires k <= |s| && Digits(s[..k]) && Decode(trailer, SizeRead(s[..k]), s[k..]).outcome == Complete
    ensures 1 <= n < |s| && k <= n && Digits(s[..n])
    ensures s[n] == SPACE || s[n] == TAB || s[n] == SEMICOLON || s[n] == CR
    ensures var d := Decoder(Ext, SizeRead(s[..n]).left, 0);
            Sound(d) && Decode(trailer, SizeRead(s[..k]), s[k..]) == After([], n - k, Decode(trailer, d, s[n..]))
    decreases |s| - k
  {
    hide Decode, Pow, SizeRead, Digits;
    FirstTaken(trailer, SizeRead(s[..k]), s[k..]);
    if HexValue(s[k]) >= 0 {
      DigitScanned(trailer, s, k);
      n := DigitsScanned(trailer, s, k + 1);
    } else {
      n := k;
      SizeScanned(trailer, s[..k], s[k..]);
    }
  }

  lemma FirstTaken(trailer: bool, d: Decoder, s: seq<Byte>)
    requires Sound(d) && Decode(trailer, d, s).outcome == Complete
    ensures s != [] && !Take(trailer, d, s[0]).Error?
  {
    hide Sound, Take;
  }

  lemma SizeScanned(trailer: bool, ds: seq<Byte>, s: seq<Byte>)
    requires Digits(ds) && s != [] && HexValue(s[0]) < 0 && !Take(trailer, SizeRead(ds), s[0]).Error?
    ensures 1 <= |ds| && (s[0] == SPACE || s[0] == TAB || s[0] == SEMICOLON || s[0] == CR)
    ensures var d := Decoder(Ext, SizeRead(ds).left, 0);
            Sound(d) && Decode(trailer, SizeRead(ds), s) == After([], 0, Decode(trailer, d, s))
  {
    hide Pow;
    NoDigits();
    assert Take(trailer, SizeRead(ds), s[0]) == Take(trailer, Decoder(Ext, SizeRead(ds).left, 0), s[0]);
  }

  lemma DigitScanned(trailer: bool, s: seq<Byte>, k: nat)
    requires k < |s| && Digits(s[..k]) && HexValue(s[k]) >= 0 && !Take(trailer, SizeRead(s[..k]), s[k]).Error?
    ensures Digits(s[..k + 1])
    ensures Decode(trailer, SizeRead(s[..k]), s[k..]) == After([], 1, Decode(trailer, SizeRead(s[..k + 1]), s[k + 1..]))
  {
    assert s[..k + 1] == s[..k] + [s[k]] && s[k..] == [s[k]] + s[k + 1..];
    assert Digits(s[..k + 1]);
    hide Decode, Sound, Take, SizeRead;
    DigitStep(trailer, s[..k], s[k], s[k + 1..]);
  }

  lemma {:induction false} ExtScanned(trailer: bool, d: Decoder, s: seq<Byte>) returns (m: nat)
    requires Sound(d) && d.state == Ext && Decode(trailer, d, s).outcome == Complete
    ensures m < |s| && Plain(s[..m]) && s[m] == CR
    ensures var d' := Decoder(HeaderLf, d.left, 0);
            Sound(d') && Decode(trailer, d, s) == After([], m + 1, Decode(trailer, d', s[m + 1..]))
    decreases |s|
  {
    hide Pow, Decode;
    FirstTaken(trailer, d, s);
    DecodeSkips(trailer, d, s);
    if s[0] == CR {
      m := 0;
    } else {
      assert Take(trailer, d, s[0]) == Next(d, []);
      hide Take, Sound;
      var k := ExtScanned(trailer, d, s[1..]);
      m := k + 1;
      OctetSkip(s, k);
      AfterAfter([], 1, [], k + 1, Decode(trailer, Decoder(HeaderLf, d.left, 0), s[m + 1..]));
    }
  }

  lemma OctetSkip(s: seq<Byte>, k: nat)
    requires s != [] && k < |s| - 1 && Plain(s[1..][..k]) && s[0] != CR && s[0] != LF
    ensures Plain(s[..k + 1]) && s[1..][k] == s[k + 1] && s[1..][k + 1..] == s[k + 2..]
  {
    var p := s[..k + 1];
    forall i | 0 <= i < |p|
      ensures p[i] != CR && p[i] != LF
    {
      if i > 0 { assert p[i] == s[1..][..k][i - 1]; }
    }
  }

  /** An accepted input begins with the header of a chunk. */
  lemma HeaderScanned(trailer: bool, s: seq<Byte>) returns (digits: seq<Byte>, ext: seq<Byte>, rest: seq<Byte>)
    requires Sound(FRESH) && Decode(trailer, FRESH, s).outcome == Complete
    ensures 1 <= |digits| && Digits(digits) && SizeRead(digits).left < W64 && s == digits + (ext + [CR, LF]) + rest
    ensures Plain(ext) && (ext != [] ==> ext[0] == SPACE || ext[0] == TAB || ext[0] == SEMICOLON)
    ensures var d := Decoder(HeaderLf, SizeRead(digits).left, 0);
            Sound(d) && Decode(trailer, FRESH, s) == After([], |digits| + |ext| + 1, Decode(trailer, d, [LF] + rest))
  {
    assert s[..0] == [] && s[0..] == s && SizeRead(s[..0]) == FRESH;
    hide Pow, Decode, Sound, SizeRead, Digits, Plain, Take;
    var n := DigitsScanned(trailer, s, 0);
    digits := s[..n];
    var d := Decoder(Ext, SizeRead(digits).left, 0);
    var m := ExtScanned(trailer, d, s[n..]);
    ext := s[n..][..m];
    var t := s[n..][m + 1..];
    var d' := Decoder(HeaderLf, d.left, 0);
    LineFeedNext(trailer, d', t);
    rest := t[1..];
    HeaderPieces(s, n, m);
    AfterAfter([], n, [], m + 1, Decode(trailer, d', t));
  }

  lemma HeaderPieces(s: seq<Byte>, n: nat, m: nat)
    requires n + m + 1 < |s| && s[n..][m] == CR && s[n..][m + 1..] == [LF] + s[n..][m + 1..][1..]
    ensures s == s[..n] + (s[n..][..m] + [CR, LF]) + s[n..][m + 1..][1..]
    ensures m > 0 ==> s[n..][..m][0] == s[n]
  {
    var t := s[n..];
    assert t == t[..m] + [CR] + t[m + 1..];
    assert t == t[..m] + [CR, LF] + t[m + 1..][1..];
    assert s == s[..n] + t;
  }

  lemma LineFeedNext(trailer: bool, d: Decoder, t: seq<Byte>)
    requires Sound(d) && d.state == HeaderLf && Decode(trailer, d, t).outcome == Complete
    ensures t != [] && t == [LF] + t[1..]
  {
    hide Sound, Pow;
    assert t != [] && t[0] == LF;
  }

  lemma DataScanned(trailer: bool, left: nat, rest: seq<Byte>) returns (more: seq<Byte>)
    requires 0 < left < W64 && Sound(FRESH)
    requires Sound(Decoder(HeaderLf, left, 0))
             && Decode(trailer, Decoder(HeaderLf, left, 0), [LF] + rest).outcome == Complete
    ensures left <= |rest| && rest == rest[..left] + [CR, LF] + more
    ensures Decode(trailer, Decoder(HeaderLf, left, 0), [LF] + rest)
            == After(rest[..left], left + 3, Decode(trailer, FRESH, more))
  {
    hide Pow, Decode, Take;
    NoDigits();
    DataStarts(trailer, left, rest);
    if |rest| < left { DataTooShort(trailer, left, rest); }
    hide Sound;
    var data, t := rest[..left], rest[left..];
    assert rest == data + t;
    DataBlock(trailer, data, t);
    DataEndScanned(trailer, t);
    more := t[2..];
    assert data + t == data + [CR, LF] + more;
    DataRead(trailer, data, more);
  }

  lemma DataTooShort(trailer: bool, left: nat, rest: seq<Byte>)
    requires |rest| < left < W64
    ensures Sound(Decoder(Data, left, 0)) && Decode(trailer, Decoder(Data, left, 0), rest).outcome == Incomplete
  {
    hide Pow;
    NoDigits();
    DecodeData(trailer, Decoder(Data, left, 0), rest, |rest|);
    assert Decode(trailer, Decoder(Data, left - |rest|, 0), []).outcome == Incomplete;
  }

  lemma DataEndScanned(trailer: bool, t: seq<Byte>)
    requires Sound(Decoder(DataCr, 0, 0)) && Decode(trailer, Decoder(DataCr, 0, 0), t).outcome == Complete
    ensures |t| >= 2 && t == [CR, LF] + t[2..]
  {
    hide Decode, Sound;
    CrScanned(trailer, t);
    LfScanned(trailer, t[1..]);
    hide *;
    TwoOctets(t, CR, LF);
  }

  lemma TwoOctets(t: seq<Byte>, a: Byte, b: Byte)
    requires t != [] && t[0] == a && t[1..] != [] && t[1..][0] == b
    ensures |t| >= 2 && t == [a, b] + t[2..]
  {
  }

  lemma CrScanned(trailer: bool, t: seq<Byte>)
    requires Sound(Decoder(DataCr, 0, 0)) && Decode(trailer, Decoder(DataCr, 0, 0), t).outcome == Complete
    ensures t != [] && t[0] == CR
    ensures Sound(Decoder(DataLf, 0, 0)) && Decode(trailer, Decoder(DataLf, 0, 0), t[1..]).outcome == Complete
  {
    hide Pow, Decode;
    FirstTaken(trailer, Decoder(DataCr, 0, 0), t);
    assert Take(trailer, Decoder(DataCr, 0, 0), t[0]) == Next(Decoder(DataLf, 0, 0), []);
    DecodeSkips(trailer, Decoder(DataCr, 0, 0), t);
  }

  lemma LfScanned(trailer: bool, t: seq<Byte>)
    requires Sound(Decoder(DataLf, 0, 0)) && Decode(trailer, Decoder(DataLf, 0, 0), t).outcome == Complete
    ensures t != [] && t[0] == LF
  {
    hide Pow, Decode;
    FirstTaken(trailer, Decoder(DataLf, 0, 0), t);
  }

  lemma {:induction false} MiddleScanned(s: seq<Byte>) returns (n: nat)
    requires Sound(Decoder(TrailerMiddle, 0, 0)) && Decode(true, Decoder(TrailerMiddle, 0, 0), s).outcome == Complete
    ensures n < |s| && NoLf(s[..n]) && s[n] == LF
    decreases |s|
  {
    hide Pow, Decode;
    var d := Decoder(TrailerMiddle, 0, 0);
    FirstTaken(true, d, s);
    if s[0] == LF {
      n := 0;
    } else {
      DecodeSkips(true, d, s);
      assert Take(true, d, s[0]) == Next(d, []);
      var k := MiddleScanned(s[1..]);
      n := k + 1;
      assert s[..n][1..] == s[1..][..k] && s[n] == s[1..][k];
      CrStep(s[..n]);
    }
  }

  /** The first line of a trailer that is accepted ends. */
  lemma {:induction false} HeadScanned(s: seq<Byte>) returns (n: nat)
    requires Sound(Decoder(TrailerHead, 0, 0)) && Decode(true, Decoder(TrailerHead, 0, 0), s).outcome == Complete
    ensures n < |s| && NoLf(s[..n]) && s[n] == LF
    decreases |s|
  {
    hide Pow, Decode;
    NoDigits();
    var d := Decoder(TrailerHead, 0, 0);
    FirstTaken(true, d, s);
    if s[0] == LF {
      n := 0;
    } else {
      DecodeSkips(true, d, s);
      var k;
      if s[0] == CR {
        assert Take(true, d, s[0]) == Next(d, []);
        k := HeadScanned(s[1..]);
      } else {
        assert Take(true, d, s[0]) == Next(Decoder(TrailerMiddle, 0, 0), []);
        k := MiddleScanned(s[1..]);
      }
      n := k + 1;
      assert s[..n][1..] == s[1..][..k] && s[n] == s[1..][k];
      CrStep(s[..n]);
    }
  }

  /** A trailer that is accepted is some field lines and an empty one. */
  lemma {:induction false} TrailerScanned(s: seq<Byte>) returns (lines: seq<seq<Byte>>, end: seq<Byte>)
    requires Sound(Decoder(TrailerHead, 0, 0)) && Decode(true, Decoder(TrailerHead, 0, 0), s).outcome == Complete
    ensures Lines(lines) && OnlyCr(end)
    ensures var r := Decode(true, Decoder(TrailerHead, 0, 0), s); r.out == [] && s[..r.used] == Trailer(lines, end)
    decreases |s|
  {
    hide Decode, Sound;
    var n := HeadScanned(s);
    var line, more := s[..n], s[n + 1..];
    assert s == line + ([LF] + more);
    WholeLineRead(line, more);
    if OnlyCr(line) {
      lines, end := [], line;
      assert s[..n + 1] == line + [LF];
    } else {
      var rest;
      rest, end := TrailerScanned(more);
      lines := [line] + rest;
      assert lines[1..] == rest;
      var used := Decode(true, Decoder(TrailerHead, 0, 0), more).used;
      assert s[..n + 1 + used] == line + ([LF] + more[..used]);
    }
  }

  /** What stands behind the last header: a trailer if the decoder is to consume it. */
  ghost predicate FitEnding(trailer: bool, lines: seq<seq<Byte>>, end: seq<Byte>) {
    if trailer then Lines(lines) && OnlyCr(end) else lines == [] && end == []
  }

  function Ending(trailer: bool, lines: seq<seq<Byte>>, end: seq<Byte>): seq<Byte> {
    if trailer then Trailer(lines, end) else []
  }

  /** The line feed behind the last header, and the trailer. */
  lemma LastScanned(trailer: bool, rest: seq<Byte>) returns (lines: seq<seq<Byte>>, end: seq<Byte>)
    requires Sound(Decoder(HeaderLf, 0, 0)) && Decode(trailer, Decoder(HeaderLf, 0, 0), [LF] + rest).outcome == Complete
    ensures FitEnding(trailer, lines, end)
    ensures var r := Decode(trailer, Decoder(HeaderLf, 0, 0), [LF] + rest);
            r.out == [] && r.used == 1 + |Ending(trailer, lines, end)| && Ending(trailer, lines, end) <= rest
  {
    NoDigits();
    var d, s := Decoder(HeaderLf, 0, 0), [LF] + rest;
    assert s[0] == LF && s[1..] == rest;
    if trailer {
      hide Pow, Decode;
      DecodeSkips(true, d, s);
      lines, end := TrailerScanned(rest);
    } else {
      lines, end := [], [];
    }
  }

  /** A body that is accepted is coded: some chunks, a last one without data and, if it is to be consumed, a
      trailer; the output is the content of the chunks. */
  lemma {:induction false} OnlyBodiesDecode(trailer: bool, s: seq<Byte>)
    returns (chunks: seq<Chunk>, last: Chunk, lines: seq<seq<Byte>>, end: seq<Byte>)
    requires Sound(FRESH) && Decode(trailer, FRESH, s).outcome == Complete
    ensures AllProper(chunks) && Proper(last) && last.data == [] && FitEnding(trailer, lines, end)
    ensures var r := Decode(trailer, FRESH, s);
            s[..r.used] == Body(chunks, last) + Ending(trailer, lines, end) && r.out == Content(chunks)
    decreases |s|
  {
    hide Decode, Sound, Pow, SizeRead, Proper, FitEnding, Ending;
    var digits, ext, rest := HeaderScanned(trailer, s);
    var left := SizeRead(digits).left;
    if left == 0 {
      last, chunks := Chunk(digits, ext, []), [];
      ScannedIsProper(last);
      lines, end := LastScanned(trailer, rest);
      var tail := Ending(trailer, lines, end);
      assert s[..|Header(last)| + |tail|] == Header(last) + tail;
    } else {
      var more := DataScanned(trailer, left, rest);
      var c := Chunk(digits, ext, rest[..left]);
      ScannedIsProper(c);
      var others;
      others, last, lines, end := OnlyBodiesDecode(trailer, more);
      chunks := [c] + others;
      assert chunks[1..] == others;
      hide Header, Body, Content;
      ScannedChunk(s, c, rest, more);
      hide Coded;
      PrependChunk(s, chunks, last, Ending(trailer, lines, end), more, Decode(trailer, FRESH, more).used);
    }
  }

  lemma PrependChunk(s: seq<Byte>, chunks: seq<Chunk>, last: Chunk, tail: seq<Byte>, more: seq<Byte>, used: nat)
    requires chunks != [] && s == Coded(chunks[0]) + more && used <= |more|
    requires more[..used] == Body(chunks[1..], last) + tail
    ensures s[..|Coded(chunks[0])| + used] == Body(chunks, last) + tail
    ensures Content(chunks) == chunks[0].data + Content(chunks[1..])
  {
    hide Coded;
    AddChunk(chunks, last);
    hide Body, Content;
    var c := chunks[0];
    assert s[..|Coded(c)| + used] == Coded(c) + more[..used];
    assert Coded(c) + (Body(chunks[1..], last) + tail) == Coded(c) + Body(chunks[1..], last) + tail;
  }

  lemma AddChunk(chunks: seq<Chunk>, last: Chunk)
    requires chunks != []
    ensures Body(chunks, last) == Coded(chunks[0]) + Body(chunks[1..], last)
    ensures Content(chunks) == chunks[0].data + Content(chunks[1..])
  {
  }

  lemma ScannedChunk(s: seq<Byte>, c: Chunk, rest: seq<Byte>, more: seq<Byte>)
    requires s == Header(c) + rest && rest == c.data + [CR, LF] + more
    ensures s == Coded(c) + more && |Coded(c)| == |Header(c)| + |c.data| + 2
  {
  }

  lemma ScannedIsProper(c: Chunk)
    requires 1 <= |c.digits| && Digits(c.digits) && SizeRead(c.digits).left == |c.data|
    requires Plain(c.ext) && (c.ext != [] ==> c.ext[0] == SPACE || c.ext[0] == TAB || c.ext[0] == SEMICOLON)
    ensures Proper(c)
  {
  }
}
