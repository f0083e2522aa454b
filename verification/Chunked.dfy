/** The chunked decoder as it works on a buffer: the coding is removed in place, the decoder keeps its state
    between buffers. */
module Chunked {
  import opened Bytes
  import opened ChunkedSpec

  /// Progress of a scan without output

  /** `used` octets of `t` took the decoder from `d0` to `d`. */
  ghost predicate Reached(trailer: bool, d0: Decoder, t: seq<Byte>, used: nat, d: Decoder) {
    Sound(d0) && Sound(d) && used <= |t| && Decode(trailer, d0, t) == After([], used, Decode(trailer, d, t[used..]))
  }

  lemma Starts(trailer: bool, d: Decoder, t: seq<Byte>)
    requires Sound(d)
    ensures Reached(trailer, d, t, 0, d)
  {
    hide Sound, Decode;
    assert t[0..] == t;
  }

  lemma Advances(trailer: bool, d0: Decoder, t: seq<Byte>, used: nat, d: Decoder)
    requires Reached(trailer, d0, t, used, d) && used < |t| && Take(trailer, d, t[used]).Next?
             && Take(trailer, d, t[used]).out == []
    ensures Reached(trailer, d0, t, used + 1, Take(trailer, d, t[used]).d)
  {
    hide Sound, Decode, Take;
    assert t[used..][0] == t[used] && t[used..][1..] == t[used + 1..];
    DecodeSkips(trailer, d, t[used..]);
    AfterAfter([], used, [], 1, Decode(trailer, Take(trailer, d, t[used]).d, t[used + 1..]));
  }

  /** How a scan ends: out of octets, with an error, or with the body. */
  lemma Ends(trailer: bool, d0: Decoder, t: seq<Byte>, used: nat, d: Decoder)
    requires Reached(trailer, d0, t, used, d)
    ensures used == |t| ==> Decode(trailer, d0, t) == Run(d, [], Incomplete, used)
    ensures used < |t| && Take(trailer, d, t[used]).Error?
            ==> Decode(trailer, d0, t) == Run(Take(trailer, d, t[used]).d, [], Failed, used)
    ensures used < |t| && Take(trailer, d, t[used]).Done?
            ==> Decode(trailer, d0, t) == Run(Take(trailer, d, t[used]).d, [], Complete, used + 1)
  {
    hide Sound, Take;
    if used < |t| { assert t[used..][0] == t[used]; }
  }

  /** Leaving the digits without taking an octet. */
  lemma SizeToExt(trailer: bool, d0: Decoder, t: seq<Byte>, used: nat, d: Decoder)
    requires Reached(trailer, d0, t, used, d) && used < |t| && d.state == Size && HexValue(t[used]) < 0 && d.hex > 0
    requires var b := t[used]; b == SPACE || b == TAB || b == SEMICOLON || b == LF || b == CR
    ensures Reached(trailer, d0, t, used, Decoder(Ext, d.left, 0))
  {
    var d' := Decoder(Ext, d.left, 0);
    SizeRange(d);
    assert t[used..][0] == t[used];
    assert Take(trailer, d, t[used]) == Take(trailer, d', t[used]);
    hide Sound, Take;
  }

  lemma SizeRange(d: Decoder)
    requires Sound(d) && d.state == Size
    ensures Sound(Decoder(Ext, d.left, 0))
  {
    NoDigits();
  }

  /** The result of a scan: it stopped with an outcome, or goes on in another state. */
  datatype Scan = Stopped(outcome: Outcome) | GoesOn

  class ChunkedDecoder {
    const consumeTrailer: bool
    var bytesLeft: nat
    var hexCount: nat
    var state: State
    var totalRead: nat
    var totalOverhead: nat

    ghost predicate Valid()
      reads this
    {
      Sound(D())
    }

    function D(): Decoder
      reads this
    {
      Decoder(state, bytesLeft, hexCount)
    }

    function Counters(): Session
      reads this
    {
      Session(D(), totalRead, totalOverhead)
    }

    constructor (consumeTrailer: bool)
      ensures Valid() && this.consumeTrailer == consumeTrailer && Counters() == Session(FRESH, 0, 0)
    {
      this.consumeTrailer := consumeTrailer;
      bytesLeft, hexCount, state, totalRead, totalOverhead := 0, 0, Size, 0, 0;
      new;
      NoDigits();
    }

    /** From decoder `d0` and the octets `t`, the scan took `used` of them and ended in `r`. */
    ghost predicate Scanned(d0: Decoder, t: seq<Byte>, used: int, r: Scan)
      reads this
    {
      && Valid() && 0 <= used <= |t|
      && match r
         case GoesOn => Reached(consumeTrailer, d0, t, used, D())
         case Stopped(outcome) => Sound(d0) && Decode(consumeTrailer, d0, t) == Run(D(), [], outcome, used)
    }

    /// Scanning the coding

    /** The digits of a size. */
    method ScanSize(buf: array<Byte>, from: nat, bufsz: nat) returns (src: nat, r: Scan)
      requires Valid() && state == Size && from <= bufsz <= buf.Length
      modifies this`bytesLeft, this`hexCount, this`state
      ensures from <= src <= bufsz && Scanned(old(D()), buf[from..bufsz], src - from, r)
      ensures r.GoesOn? ==> state == Ext
    {
      hide Sound, Take, Reached, Decode;
      ghost var d0, t := D(), buf[from..bufsz];
      src := from;
      Starts(consumeTrailer, d0, t);
      while true
        invariant from <= src <= bufsz && state == Size && Reached(consumeTrailer, d0, t, src - from, D()) && Valid()
        decreases bufsz - src
      {
        Ends(consumeTrailer, d0, t, src - from, D());
        if src == bufsz { return src, Stopped(Incomplete); }
        SizeTakes(consumeTrailer, D(), t[src - from]);
        var b := buf[src];
        var v := HexValue(b);
        if v == -1 {
          if hexCount == 0 { return src, Stopped(Failed); }
          if b != SPACE && b != TAB && b != SEMICOLON && b != LF && b != CR { return src, Stopped(Failed); }
          break;
        }
        if hexCount == HEX_DIGITS { return src, Stopped(Failed); }
        Advances(consumeTrailer, d0, t, src - from, D());
        bytesLeft := bytesLeft * 16 + v;
        hexCount := hexCount + 1;
        ReachedIsSound(consumeTrailer, d0, t, src + 1 - from, D());
        src := src + 1;
      }
      SizeToExt(consumeTrailer, d0, t, src - from, D());
      hexCount := 0;
      state := Ext;
      ReachedIsSound(consumeTrailer, d0, t, src - from, D());
      r := GoesOn;
    }

    /** The rest of a header line. */
    method ScanExt(buf: array<Byte>, from: nat, bufsz: nat) returns (src: nat, r: Scan)
      requires Valid() && state == Ext && from <= bufsz <= buf.Length
      modifies this`state
      ensures from <= src <= bufsz && Scanned(old(D()), buf[from..bufsz], src - from, r)
      ensures r.GoesOn? ==> state == HeaderLf && src > from
    {
      hide Sound, Reached, Decode;
      ghost var d0, t := D(), buf[from..bufsz];
      src := from;
      Starts(consumeTrailer, d0, t);
      while true
        invariant from <= src <= bufsz && state == Ext && Reached(consumeTrailer, d0, t, src - from, D()) && Valid()
        decreases bufsz - src
      {
        Ends(consumeTrailer, d0, t, src - from, D());
        if src == bufsz { return src, Stopped(Incomplete); }
        if buf[src] == CR { break; }
        if buf[src] == LF { return src, Stopped(Failed); }
        Advances(consumeTrailer, d0, t, src - from, D());
        src := src + 1;
      }
      Advances(consumeTrailer, d0, t, src - from, D());
      src := src + 1;
      state := HeaderLf;
      ReachedIsSound(consumeTrailer, d0, t, src - from, D());
      r := GoesOn;
    }

    /** The end of a header line. */
    method ExpectHeaderLf(buf: array<Byte>, from: nat, bufsz: nat) returns (src: nat, r: Scan)
      requires Valid() && state == HeaderLf && from <= bufsz <= buf.Length
      modifies this`state
      ensures from <= src <= bufsz && Scanned(old(D()), buf[from..bufsz], src - from, r)
      ensures r.GoesOn? ==> src > from && state != Size
    {
      hide Sound, Reached, Decode;
      ghost var d0, t := D(), buf[from..bufsz];
      src := from;
      Starts(consumeTrailer, d0, t);
      Ends(consumeTrailer, d0, t, 0, d0);
      if src == bufsz { return src, Stopped(Incomplete); }
      if buf[src] != LF { return src, Stopped(Failed); }
      src := src + 1;
      if bytesLeft == 0 {
        if consumeTrailer {
          Advances(consumeTrailer, d0, t, 0, d0);
          state := TrailerHead;
          ReachedIsSound(consumeTrailer, d0, t, src - from, D());
          return src, GoesOn;
        } else {
          return src, Stopped(Complete);
        }
      }
      Advances(consumeTrailer, d0, t, 0, d0);
      state := Data;
      ReachedIsSound(consumeTrailer, d0, t, src - from, D());
      r := GoesOn;
    }

    /** The line end behind the data. */
    method ExpectDataEnd(buf: array<Byte>, from: nat, bufsz: nat) returns (src: nat, r: Scan)
      requires Valid() && (state == DataCr || state == DataLf) && from <= bufsz <= buf.Length
      modifies this`state
      ensures from <= src <= bufsz && Scanned(old(D()), buf[from..bufsz], src - from, r)
      ensures r.GoesOn? ==> src > from
    {
      hide Sound, Reached, Decode;
      ghost var d0, t := D(), buf[from..bufsz];
      src := from;
      Starts(consumeTrailer, d0, t);
      Ends(consumeTrailer, d0, t, 0, d0);
      if src == bufsz { return src, Stopped(Incomplete); }
      if buf[src] != (if state == DataCr then CR else LF) { return src, Stopped(Failed); }
      Advances(consumeTrailer, d0, t, 0, d0);
      src := src + 1;
      state := if state == DataCr then DataLf else Size;
      ReachedIsSound(consumeTrailer, d0, t, src - from, D());
      r := GoesOn;
    }

    /** The start of a trailer line. */
    method ScanTrailerHead(buf: array<Byte>, from: nat, bufsz: nat) returns (src: nat, r: Scan)
      requires Valid() && state == TrailerHead && from <= bufsz <= buf.Length
      modifies this`state
      ensures from <= src <= bufsz && Scanned(old(D()), buf[from..bufsz], src - from, r)
      ensures r.GoesOn? ==> state == TrailerMiddle && src > from
    {
      hide Sound, Reached, Decode;
      ghost var d0, t := D(), buf[from..bufsz];
      src := from;
      Starts(consumeTrailer, d0, t);
      while true
        invariant from <= src <= bufsz && state == TrailerHead && Reached(consumeTrailer, d0, t, src - from, D())
                  && Valid()
        decreases bufsz - src
      {
        Ends(consumeTrailer, d0, t, src - from, D());
        if src == bufsz { return src, Stopped(Incomplete); }
        if buf[src] != CR { break; }
        Advances(consumeTrailer, d0, t, src - from, D());
        src := src + 1;
      }
      if buf[src] == LF { return src + 1, Stopped(Complete); }
      Advances(consumeTrailer, d0, t, src - from, D());
      src := src + 1;
      state := TrailerMiddle;
      ReachedIsSound(consumeTrailer, d0, t, src - from, D());
      r := GoesOn;
    }

    /** The rest of a trailer line. */
    method ScanTrailerMiddle(buf: array<Byte>, from: nat, bufsz: nat) returns (src: nat, r: Scan)
      requires Valid() && state == TrailerMiddle && from <= bufsz <= buf.Length
      modifies this`state
      ensures from <= src <= bufsz && Scanned(old(D()), buf[from..bufsz], src - from, r)
      ensures r.GoesOn? ==> state == TrailerHead && src > from
    {
      hide Sound, Reached, Decode;
      ghost var d0, t := D(), buf[from..bufsz];
      src := from;
      Starts(consumeTrailer, d0, t);
      while true
        invariant from <= src <= bufsz && state == TrailerMiddle && Reached(consumeTrailer, d0, t, src - from, D())
                  && Valid()
        decreases bufsz - src
      {
        Ends(consumeTrailer, d0, t, src - from, D());
        if src == bufsz { return src, Stopped(Incomplete); }
        if buf[src] == LF { break; }
        Advances(consumeTrailer, d0, t, src - from, D());
        src := src + 1;
      }
      Advances(consumeTrailer, d0, t, src - from, D());
      src := src + 1;
      state := TrailerHead;
      ReachedIsSound(consumeTrailer, d0, t, src - from, D());
      r := GoesOn;
    }

    method ScanCoding(buf: array<Byte>, from: nat, bufsz: nat) returns (src: nat, r: Scan)
      requires Valid() && state != Data && from <= bufsz <= buf.Length
      modifies this`bytesLeft, this`hexCount, this`state
      ensures from <= src <= bufsz && Scanned(old(D()), buf[from..bufsz], src - from, r)
      ensures r.GoesOn? ==> src > from || (old(state) == Size && state != Size)
    {
      hide Sound, Scanned, Valid;
      match state {
        case Size => src, r := ScanSize(buf, from, bufsz);
        case Ext => src, r := ScanExt(buf, from, bufsz);
        case HeaderLf => src, r := ExpectHeaderLf(buf, from, bufsz);
        case DataCr => src, r := ExpectDataEnd(buf, from, bufsz);
        case DataLf => src, r := ExpectDataEnd(buf, from, bufsz);
        case TrailerHead => src, r := ScanTrailerHead(buf, from, bufsz);
        case TrailerMiddle => src, r := ScanTrailerMiddle(buf, from, bufsz);
      }
    }

    /// Copying the data

    /** The data octets that are there move down to `to`. */
    method CopyData(buf: array<Byte>, from: nat, to: nat, bufsz: nat) returns (src: nat, dst: nat, r: Scan)
      requires Valid() && state == Data && to <= from <= bufsz <= buf.Length
      modifies this`bytesLeft, this`state, buf
      ensures Valid() && from <= src <= bufsz && dst - to == src - from
      ensures buf[..dst] == old(buf[..to]) + old(buf[from..src]) && buf[src..] == old(buf[src..])
      ensures var t, n := old(buf[from..bufsz]), src - from;
              match r
              case GoesOn => n > 0 && Decode(consumeTrailer, old(D()), t)
                == After(t[..n], n, Decode(consumeTrailer, D(), t[n..]))
              case Stopped(outcome) => n == |t| && Decode(consumeTrailer, old(D()), t) == Run(D(), t, outcome, n)
    {
      hide Decode, Sound;
      ghost var d, t := D(), buf[from..bufsz];
      DataLeft(d);
      var avail := bufsz - from;
      var short := avail < bytesLeft;
      var n := if short then avail else bytesLeft;
      DecodeData(consumeTrailer, d, t, n);
      Shift(buf, to, from, n);
      src, dst := from + n, to + n;
      bytesLeft := bytesLeft - n;
      if short {
        DataRunsOut(consumeTrailer, D());
        assert t[..n] == t && t[n..] == [];
        return src, dst, Stopped(Incomplete);
      }
      state := DataCr;
      r := GoesOn;
    }

    /// The decoder

    /** What was decoded so far lies at the front of the buffer; what was not read is untouched. */
    ghost predicate Progress(d0: Decoder, s: seq<Byte>, now: seq<Byte>, src: nat, dst: nat, r: Scan)
      requires Sound(d0)
      reads this
    {
      && Valid() && dst <= src <= |s| <= |now| && now[src..|s|] == s[src..]
      && match r
         case GoesOn => Decode(consumeTrailer, d0, s) == After(now[..dst], src, Decode(consumeTrailer, D(), s[src..]))
         case Stopped(outcome) => Decode(consumeTrailer, d0, s) == Run(D(), now[..dst], outcome, src)
    }

    method Advance(buf: array<Byte>, bufsz: nat, from: nat, to: nat, ghost d0: Decoder, ghost s: seq<Byte>)
      returns (src: nat, dst: nat, r: Scan)
      requires Sound(d0) && |s| == bufsz <= buf.Length && Progress(d0, s, buf[..], from, to, GoesOn)
      modifies this`bytesLeft, this`hexCount, this`state, buf
      ensures Progress(d0, s, buf[..], src, dst, r) && buf[bufsz..] == old(buf[bufsz..])
      ensures src >= from && (r.GoesOn? ==> src > from || (old(state) == Size && state != Size))
    {
      hide Decode, Sound;
      assert buf[from..bufsz] == s[from..];
      if state == Data {
        src, dst, r := CopyData(buf, from, to, bufsz);
        Suffixes(old(buf[..]), buf[..], s, from, src);
        TailOfTail(s, from, src);
        if r.GoesOn? { AfterAfter(old(buf[..to]), from, s[from..][..src - from], src - from,
                                  Decode(consumeTrailer, D(), s[src..])); }
      } else {
        dst := to;
        src, r := ScanCoding(buf, from, bufsz);
        Tails(buf[..], s, from, src);
        if r.GoesOn? { AfterAfter(buf[..to], from, [], src - from, Decode(consumeTrailer, D(), s[src..])); }
        NothingAdded(buf[..to]);
      }
    }

    /** Decodes what is in the buffer, in place. */
    method DecodeChunked(buf: array<Byte>, bufsz: nat) returns (ret: int, size: nat)
      requires Valid() && bufsz <= buf.Length
      modifies this, buf
      ensures Valid()
      ensures var c := Call(consumeTrailer, old(Counters()), old(buf[..bufsz]));
              && Counters() == c.session && ret == c.ret && size == |c.out| && size + |c.behind| <= bufsz
              && buf[..size] == c.out && buf[size..size + |c.behind|] == c.behind
      ensures buf[bufsz..] == old(buf[bufsz..])
    {
      hide Decode, Sound, Progress;
      ghost var d0, s := D(), buf[..bufsz];
      totalRead := totalRead + bufsz;
      ProgressStarts(buf[..], s);
      var src, dst, r := 0, 0, GoesOn;
      while r.GoesOn?
        invariant Progress(d0, s, buf[..], src, dst, r) && buf[bufsz..] == old(buf[bufsz..]) && src <= bufsz
        invariant totalRead == old(totalRead) + bufsz && totalOverhead == old(totalOverhead)
        decreases r.GoesOn?, bufsz - src, state == Size
      {
        src, dst, r := Advance(buf, bufsz, src, dst, d0, s);
        ProgressBounds(d0, s, buf[..], src, dst, r);
      }
      ret, size := Finish(buf, bufsz, src, dst, r.outcome, d0, s);
    }

    /** Closes the gap behind the decoded octets and computes the result. */
    method Finish(buf: array<Byte>, bufsz: nat, src: nat, dst: nat, outcome: Outcome, ghost d0: Decoder,
                  ghost s: seq<Byte>)
      returns (ret: int, size: nat)
      requires Sound(d0) && |s| == bufsz <= buf.Length && Progress(d0, s, buf[..], src, dst, Stopped(outcome))
               && totalRead >= bufsz
      modifies this`totalOverhead, buf
      ensures Valid()
      ensures var c := Call(consumeTrailer, Session(d0, totalRead - bufsz, old(totalOverhead)), s);
              && Counters() == c.session && ret == c.ret && size == |c.out| && size + |c.behind| <= bufsz
              && buf[..size] == c.out && buf[size..size + |c.behind|] == c.behind
      ensures buf[bufsz..] == old(buf[bufsz..])
    {
      hide Decode, Sound;
      Shift(buf, dst, src, bufsz - src);
      size := dst;
      match outcome {
        case Failed => ret := -1;
        case Complete => ret := bufsz - src;
        case Incomplete =>
          totalOverhead := totalOverhead + (bufsz - dst);
          ret := if totalOverhead >= OVERHEAD_LIMIT && totalRead - totalOverhead < totalRead / 4 then -1 else -2;
      }
    }

    lemma ProgressStarts(now: seq<Byte>, s: seq<Byte>)
      requires Valid() && s <= now
      ensures Progress(D(), s, now, 0, 0, GoesOn)
    {
      hide Decode, Sound;
      assert now[0..|s|] == s[0..] && s[0..] == s && now[..0] == [];
    }

    lemma ProgressBounds(d0: Decoder, s: seq<Byte>, now: seq<Byte>, src: nat, dst: nat, r: Scan)
      requires Sound(d0) && Progress(d0, s, now, src, dst, r)
      ensures dst <= src <= |s| && Valid()
    {
    }
  }

  lemma NothingAdded(s: seq<Byte>)
    ensures s + [] == s
  {
  }

  lemma Tails(now: seq<Byte>, s: seq<Byte>, from: nat, src: nat)
    requires from <= src <= |s| <= |now| && now[from..|s|] == s[from..]
    ensures now[src..|s|] == s[src..] && s[from..][src - from..] == s[src..]
  {
    assert now[from..|s|][src - from..] == now[src..|s|];
  }

  lemma TailOfTail(s: seq<Byte>, from: nat, src: nat)
    requires from <= src <= |s|
    ensures s[from..][src - from..] == s[src..]
  {
  }

  lemma Suffixes(was: seq<Byte>, now: seq<Byte>, s: seq<Byte>, from: nat, src: nat)
    requires from <= src <= |s| <= |now| == |was| && was[from..|s|] == s[from..] && now[src..] == was[src..]
    ensures now[src..|s|] == s[src..] && now[|s|..] == was[|s|..] && was[from..src] == s[from..][..src - from]
    ensures s[from..][src - from..] == s[src..] && s[from..][..|s| - from] == s[from..]
  {
    assert now[src..|s|] == now[src..][..|s| - src] && was[src..|s|] == was[src..][..|s| - src];
    assert was[from..|s|][src - from..] == was[src..|s|] && s[from..][src - from..] == s[src..];
    assert now[|s|..] == now[src..][|s| - src..] && was[|s|..] == was[src..][|s| - src..];
    assert was[from..|s|][..src - from] == was[from..src];
  }

  lemma DataLeft(d: Decoder)
    requires Sound(d) && d.state == Data
    ensures d.left > 0
  {
  }

  lemma DataRunsOut(trailer: bool, d: Decoder)
    requires Sound(d)
    ensures Decode(trailer, d, []) == Run(d, [], Incomplete, 0)
  {
  }

  function Moved(s: seq<Byte>, dst: nat, src: nat, n: nat): (r: seq<Byte>)
    requires dst <= src && src + n <= |s|
    ensures |r| == |s|
  {
    s[..dst] + s[src..src + n] + s[dst + n..]
  }

  /** memmove to a lower index. */
  method MoveDown(buf: array<Byte>, dst: nat, src: nat, n: nat)
    requires dst <= src && src + n <= buf.Length
    modifies buf
    ensures buf[..] == Moved(old(buf[..]), dst, src, n)
  {
    ghost var s := buf[..];
    for i := 0 to n
      invariant buf[..dst] == s[..dst] && buf[dst..dst + i] == s[src..src + i] && buf[dst + i..] == s[dst + i..]
    {
      assert buf[src + i] == buf[dst + i..][src - dst];
      buf[dst + i] := buf[src + i];
      assert buf[dst..dst + i + 1] == buf[dst..dst + i] + [buf[dst + i]];
    }
    assert buf[..] == buf[..dst] + buf[dst..dst + n] + buf[dst + n..];
  }

  method Shift(buf: array<Byte>, dst: nat, src: nat, n: nat)
    requires dst <= src && src + n <= buf.Length
    modifies buf
    ensures buf[..dst] == old(buf[..dst]) && buf[dst..dst + n] == old(buf[src..src + n])
    ensures buf[..dst + n] == old(buf[..dst]) + old(buf[src..src + n]) && buf[src + n..] == old(buf[src + n..])
  {
    if dst != src { MoveDown(buf, dst, src, n); }
    ghost var s, r := old(buf[..]), buf[..];
    assert r == Moved(s, dst, src, n);
    hide Moved;
    MovedParts(s, dst, src, n);
    assert buf[..dst] == r[..dst] && buf[dst..dst + n] == r[dst..dst + n] && buf[..dst + n] == r[..dst + n]
           && buf[src + n..] == r[src + n..];
  }

  /** The decoded octets come first, then a gap, then what was not read. */
  lemma MovedParts(s: seq<Byte>, dst: nat, src: nat, n: nat)
    requires dst <= src && src + n <= |s|
    ensures var r := Moved(s, dst, src, n);
            && r[..dst] == s[..dst] && r[dst..dst + n] == s[src..src + n] && r[..dst + n] == s[..dst] + s[src..src + n]
            && r[src + n..] == s[src + n..]
  {
  }

  lemma ReachedIsSound(trailer: bool, d0: Decoder, t: seq<Byte>, used: nat, d: Decoder)
    requires Reached(trailer, d0, t, used, d)
    ensures Sound(d) && Sound(d0) && used <= |t|
  {
  }

  lemma SizeTakes(trailer: bool, d: Decoder, b: Byte)
    requires Sound(d) && d.state == Size
    ensures Take(trailer, d, b) == InSize(d, b)
  {
  }
}
