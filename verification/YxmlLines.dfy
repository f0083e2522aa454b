/** Line ends: a carriage return, with or without a line feed behind it, is read as a line feed. */
module YxmlLines {
  import opened Bytes
  import opened YxmlClient
  import opened YxmlData
  import opened YxmlSpec
  import opened YxmlTree

  const CR: Byte := 13
  const LF: Byte := 10

  /** The octets with every line end as a line feed; `skip` if a carriage return stands before them. */
  function Unified(s: seq<Byte>, skip: bool): seq<Byte>
    decreases |s|
  {
    if s == [] then []
    else if skip && s[0] == LF then Unified(s[1..], false)
    else [if s[0] == CR then LF else s[0]] + Unified(s[1..], s[0] == CR)
  }

  function Skips(p: Parser, skip: bool): Parser {
    p.(ignore := if skip then LF else 0)
  }

  /** The mark for line ends has no other influence. */
  lemma SkipsDo(room: nat, p: Parser, skip: bool, a: Action, ch: Byte)
    requires NeedsTop(a) ==> p.stack != []
    ensures var r := Do(room, p, a, ch); Do(room, Skips(p, skip), a, ch) == Result(r.ret, Skips(r.p, skip), r.events)
  {
    hide IsXml, RefValue, RefAllowed, Size;
    match a
    case _ =>
  }

  lemma SkipsOctet(room: nat, p: Parser, skip: bool, ch: Byte)
    requires Shape(p)
    ensures Shape(Skips(p, skip))
    ensures var r := Octet(room, p, ch); Octet(room, Skips(p, skip), ch) == Result(r.ret, Skips(r.p, skip), r.events)
  {
    SkipsShape(p, skip);
    TopIsThere(p, ch);
    hide Control, Shape, Do, NeedsTop;
    var m := Control(p.ctl, ch);
    SkipsDo(room, p.(ctl := m.ctl), skip, m.action, ch);
    assert Skips(p, skip).(ctl := m.ctl) == Skips(p.(ctl := m.ctl), skip);
  }

  lemma SkipsShape(p: Parser, skip: bool)
    ensures Shape(Skips(p, skip)) <==> Shape(p)
  {
  }

  /** One octet, of which `p` sees what the mark leaves. */
  lemma SkipsParse(room: nat, p: Parser, skip: bool, octet: Byte)
    requires Shape(p) && p.ignore == 0 && !(skip && octet == LF)
    ensures Shape(Skips(p, skip))
    ensures var ch := if octet == CR then LF else octet;
            var r, r' := Parse(room, p, ch), Parse(room, Skips(p, skip), octet);
            && r'.ret == r.ret && DataOf(Skips(p, skip), octet) == DataOf(p, ch)
            && (!IsError(r.ret) ==> r.p.ignore == 0 && r'.events == r.events && r'.p == Skips(r.p, octet == CR))
  {
    SkipsShape(p, skip);
    var ch := if octet == CR then LF else octet;
    if octet != 0 {
      SkipsOctet(room, p, octet == CR, ch);
      KeepsMark(room, p, ch);
      assert Skips(Skips(p, skip), octet == CR) == Skips(p, octet == CR) && p == p.(ignore := 0);
    }
    hide Octet, Data, Control, Shape;
  }

  lemma KeepsMark(room: nat, p: Parser, ch: Byte)
    requires Shape(p)
    ensures var r := Octet(room, p, ch); !IsError(r.ret) ==> r.p.ignore == p.ignore
  {
    hide Control, Shape, IsXml, RefValue, RefAllowed, Size;
  }

  lemma SkippedOctet(room: nat, p: Parser)
    requires Shape(p) && p.ignore == 0
    ensures Shape(Skips(p, true))
    ensures Parse(room, Skips(p, true), LF) == Result(Ok, p, []) && DataOf(Skips(p, true), LF) == []
  {
    SkipsShape(p, true);
    hide Octet, Data, Control, Shape;
    assert p == p.(ignore := 0);
  }

  /** Whatever its line ends, a document is taken or refused alike, with the same starts and ends. */
  lemma {:induction false} LineEnds(room: nat, p: Parser, skip: bool, s: seq<Byte>)
    requires Shape(p) && p.ignore == 0
    ensures Shape(Skips(p, skip))
    ensures var t, t' := Run(room, p, Unified(s, skip)), Run(room, Skips(p, skip), s);
            t'.ret == t.ret && t'.events == t.events && (!IsError(t.ret) ==> Skips(t'.p, false) == t.p)
    decreases |s|
  {
    SkipsShape(p, skip);
    hide Shape, Parse;
    if s == [] {
    } else if skip && s[0] == LF {
      SkippedOctet(room, p);
      LineEnds(room, p, false, s[1..]);
      assert Skips(p, false) == p;
      assert [] + Run(room, p, s[1..]).events == Run(room, p, s[1..]).events;
    } else {
      SkipsParse(room, p, skip, s[0]);
      var ch := if s[0] == CR then LF else s[0];
      var u := Unified(s, skip);
      assert u[0] == ch && u[1..] == Unified(s[1..], s[0] == CR);
      var r := Parse(room, p, ch);
      if !IsError(r.ret) {
        KeepsShape(room, p, ch);
        LineEnds(room, r.p, s[0] == CR, s[1..]);
      }
    }
  }

  /** The same for all tokens. */
  lemma {:induction false} LineEndsGo(room: nat, p: Parser, skip: bool, s: seq<Byte>, q: Parser, tokens: seq<Token>)
    returns (skip': bool)
    requires p.ignore == 0 && Goes(room, p, Unified(s, skip), q, tokens)
    ensures Goes(room, Skips(p, skip), s, Skips(q, skip'), tokens)
    decreases |s|
  {
    SkipsShape(p, skip);
    hide Shape, Parse, DataOf, TokenOf;
    if s == [] {
      skip' := skip;
    } else if skip && s[0] == LF {
      SkippedOctet(room, p);
      skip' := LineEndsGo(room, p, false, s[1..], q, tokens);
      assert Skips(p, false) == p;
      NoToken(p);
      assert tokens[0..] == tokens;
    } else {
      SkipsParse(room, p, skip, s[0]);
      var ch := if s[0] == CR then LF else s[0];
      var u := Unified(s, skip);
      assert u[0] == ch && u[1..] == Unified(s[1..], s[0] == CR);
      var r := Parse(room, p, ch);
      var t := TokenOf(r, DataOf(p, ch));
      SameToken(r, s[0] == CR, DataOf(p, ch));
      skip' := LineEndsGo(room, r.p, s[0] == CR, s[1..], q, tokens[|t|..]);
    }
  }

  lemma NoToken(p: Parser)
    ensures TokenOf(Result(Ok, p, []), []) == []
  {
  }

  lemma SameToken(r: Result, skip: bool, data: seq<Byte>)
    ensures TokenOf(Result(r.ret, Skips(r.p, skip), r.events), data) == TokenOf(r, data)
  {
  }
}
