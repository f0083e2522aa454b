/** What a client sees of a run, octet by octet, and the single steps that documents are made of. */
module YxmlClient {
  import opened Bytes
  import opened YxmlData
  import opened YxmlSpec
  import opened YxmlTree

  /// Tokens

  /** The tokens with the names and the data that go with them; a client that collects data sees its octets. */
  datatype Token =
    | Opens(name: Name) | Closes
    | Attribute(name: Name) | ValueOctet(octet: Byte) | AttributeEnds
    | ContentOctet(octet: Byte)
    | Instruction(name: Name) | InstructionOctet(octet: Byte) | InstructionEnds

  function DataToken(ret: Ret, octet: Byte): Token {
    if ret.ContentToken? then ContentOctet(octet) else if ret.AttrValueToken? then ValueOctet(octet)
      else InstructionOctet(octet)
  }

  function DataTokens(ret: Ret, data: seq<Byte>): (t: seq<Token>)
    ensures |t| == |data|
  {
    seq(|data|, i requires 0 <= i < |data| => DataToken(ret, data[i]))
  }

  lemma DataTokensConcat(ret: Ret, a: seq<Byte>, b: seq<Byte>)
    ensures DataTokens(ret, a + b) == DataTokens(ret, a) + DataTokens(ret, b)
  {
    hide DataToken;
  }

  lemma NoDataTokens(ret: Ret)
    ensures DataTokens(ret, []) == []
  {
  }

  /** The token of an octet that was taken, if any: the name is the one on top of the stack. */
  function TokenOf(r: Result, data: seq<Byte>): seq<Token> {
    var name := if r.p.stack == [] then [] else Top(r.p.stack);
    if r.ret.ElemStarts? then [Opens(name)]
    else if r.ret.AttrStarts? then [Attribute(name)]
    else if r.ret.AttrEnds? then [AttributeEnds]
    else if r.ret.ElemEnds? then [Closes]
    else if r.ret.PiStarts? then [Instruction(name)]
    else if r.ret.PiEnds? then [InstructionEnds]
    else if IsData(r.ret) then DataTokens(r.ret, data)
    else []
  }

  /** The octets are taken without an error and give these tokens. */
  ghost predicate Goes(room: nat, p: Parser, s: seq<Byte>, p': Parser, tokens: seq<Token>)
    decreases |s|
  {
    Shape(p) &&
    if s == [] then p == p' && tokens == []
    else
      var r := Parse(room, p, s[0]);
      var t := TokenOf(r, DataOf(p, s[0]));
      !IsError(r.ret) && t <= tokens && Goes(room, r.p, s[1..], p', tokens[|t|..])
  }

  lemma {:induction false} GoesThen(room: nat, p: Parser, s: seq<Byte>, p1: Parser, t1: seq<Token>, u: seq<Byte>,
                                    p2: Parser,
                                    t2: seq<Token>)
    requires Goes(room, p, s, p1, t1) && Goes(room, p1, u, p2, t2)
    ensures Goes(room, p, s + u, p2, t1 + t2)
    decreases |s|
  {
    hide Shape, Parse, TokenOf, DataOf;
    if s == [] {
      assert s + u == u && t1 + t2 == t2;
    } else {
      var r := Parse(room, p, s[0]);
      var t := TokenOf(r, DataOf(p, s[0]));
      assert (s + u)[0] == s[0] && (s + u)[1..] == s[1..] + u;
      GoesThen(room, r.p, s[1..], p1, t1[|t|..], u, p2, t2);
      assert (t1 + t2)[|t|..] == t1[|t|..] + t2;
    }
  }

  /** Two parts of which only one gives tokens. */
  lemma GoesAfter(room: nat, p: Parser, s: seq<Byte>, p1: Parser, u: seq<Byte>, p2: Parser, tokens: seq<Token>)
    requires Goes(room, p, s, p1, []) && Goes(room, p1, u, p2, tokens)
    ensures Goes(room, p, s + u, p2, tokens)
  {
    hide Goes;
    GoesThen(room, p, s, p1, [], u, p2, tokens);
    assert [] + tokens == tokens;
  }

  lemma GoesBefore(room: nat, p: Parser, s: seq<Byte>, p1: Parser, tokens: seq<Token>, u: seq<Byte>, p2: Parser)
    requires Goes(room, p, s, p1, tokens) && Goes(room, p1, u, p2, [])
    ensures Goes(room, p, s + u, p2, tokens)
  {
    hide Goes;
    GoesThen(room, p, s, p1, tokens, u, p2, []);
    assert tokens + [] == tokens;
  }

  /** What goes without an error is a run without an error. */
  lemma {:induction false} GoesRuns(room: nat, p: Parser, s: seq<Byte>, p': Parser, tokens: seq<Token>)
    requires Goes(room, p, s, p', tokens)
    ensures Shape(p) && Run(room, p, s).ret == Ok && Run(room, p, s).p == p'
    decreases |s|
  {
    hide Shape, Parse, TokenOf, DataOf;
    if s != [] {
      var r := Parse(room, p, s[0]);
      KeepsShape(room, p, s[0]);
      GoesRuns(room, r.p, s[1..], p', tokens[|TokenOf(r, DataOf(p, s[0]))|..]);
    }
  }

  /** What comes behind octets that go. */
  lemma {:induction false} GoesOn(room: nat, p: Parser, s: seq<Byte>, p1: Parser, tokens: seq<Token>, u: seq<Byte>)
    requires Goes(room, p, s, p1, tokens)
    ensures Shape(p) && Shape(p1)
    ensures Run(room, p, s + u).ret == Run(room, p1, u).ret && Run(room, p, s + u).p == Run(room, p1, u).p
    decreases |s|
  {
    hide Shape, Parse, TokenOf, DataOf;
    if s == [] {
      assert s + u == u;
    } else {
      KeepsShape(room, p, s[0]);
      var r := Parse(room, p, s[0]);
      assert (s + u)[0] == s[0] && (s + u)[1..] == s[1..] + u;
      GoesOn(room, r.p, s[1..], p1, tokens[|TokenOf(r, DataOf(p, s[0]))|..], u);
    }
  }

  lemma GoesOne(room: nat, p: Parser, octet: Byte, r: Result)
    requires Shape(p) && r == Parse(room, p, octet) && !IsError(r.ret)
    ensures Goes(room, p, [octet], r.p, TokenOf(r, DataOf(p, octet))) && Shape(r.p)
  {
    hide Shape, Parse, TokenOf, DataOf;
    KeepsShape(room, p, octet);
    var t := TokenOf(r, DataOf(p, octet));
    assert [octet][1..] == [] && t[|t|..] == [];
    assert Goes(room, r.p, [], r.p, []);
  }

  /** Between two tokens: the state, the names on the stack, and nothing half read. */
  ghost predicate On(p: Parser, state: State, stack: seq<Name>) {
    p.ctl.state == state && p.stack == stack && p.closing == [] && p.ignore == 0 && Shape(p)
  }

  lemma StateOn(p: Parser, state: State, stack: seq<Name>)
    requires On(p, state, stack)
    ensures p.ctl.state == state && p.stack == stack
  {
  }

  lemma GoesStill(room: nat, p: Parser)
    requires Shape(p)
    ensures Goes(room, p, [], p, [])
  {
    hide Shape;
  }

  lemma GoesNothing(room: nat, p: Parser, state: State, stack: seq<Name>)
    requires On(p, state, stack)
    ensures Goes(room, p, [], p, [])
  {
    hide Shape;
  }

  /** Line ends are line feeds here; `YxmlLines` relates other ones to them. */
  predicate IsPlain(b: Byte) {
    b != 0 && b != 13
  }

  predicate ArePlain(t: seq<Byte>) {
    forall i :: 0 <= i < |t| ==> IsPlain(t[i])
  }

  /// Single octets

  /** A move of the control that has no other effect. */
  lemma Quietly(room: nat, p: Parser, from: State, stack: seq<Name>, octet: Byte, to: State) returns (p': Parser)
    requires On(p, from, stack) && IsPlain(octet) && !to.Etag1?
    requires var m := Control(p.ctl, octet); m.action == Nothing && m.ctl.state == to
    ensures On(p', to, stack) && Goes(room, p, [octet], p', []) && p'.ctl == Control(p.ctl, octet).ctl
  {
    hide Control, Shape;
    var r := Parse(room, p, octet);
    GoesOne(room, p, octet, r);
    p' := r.p;
  }

  /** Octets that only keep the control where it is. */
  lemma {:induction false} Stays(room: nat, p: Parser, state: State, stack: seq<Name>, t: seq<Byte>)
    requires On(p, state, stack) && !state.Etag1?
    requires forall i :: 0 <= i < |t| ==> IsPlain(t[i]) && Control(p.ctl, t[i]) == Move(p.ctl, Nothing)
    ensures Goes(room, p, t, p, [])
    decreases |t|
  {
    hide Goes, Control, On;
    if t == [] {
      GoesNothing(room, p, state, stack);
    } else {
      StateOn(p, state, stack);
      var p1 := Quietly(room, p, state, stack, t[0], state);
      SameParser(room, p, state, stack, t[0], p1);
      Stays(room, p, state, stack, t[1..]);
      GoesAfter(room, p, [t[0]], p, t[1..], p, []);
      assert t == [t[0]] + t[1..];
    }
  }

  /** A step without effect leaves the parser as it was. */
  lemma SameParser(room: nat, p: Parser, state: State, stack: seq<Name>, octet: Byte, p': Parser)
    requires On(p, state, stack) && IsPlain(octet) && Control(p.ctl, octet) == Move(p.ctl, Nothing)
    requires Goes(room, p, [octet], p', [])
    ensures p' == p
  {
    hide Control, Shape, DataOf;
    assert [octet][1..] == [];
  }

  /** Actions whose data comes from the octet. */
  predicate Tells(a: Action) {
    a.Content? || a.Content1? || a.Content2? || a.AttrValue? || a.PiContent? || a.PiContent1?
  }

  function Told(a: Action): Ret {
    if a.AttrValue? then AttrValueToken else if a.PiContent? || a.PiContent1? then PiContentToken else ContentToken
  }

  /** An octet of content, of an attribute's value or of an instruction. */
  lemma TellsOne(room: nat, p: Parser, from: State, stack: seq<Name>, octet: Byte, to: State) returns (p': Parser)
    requires On(p, from, stack) && IsPlain(octet) && !to.Etag1?
    requires var m := Control(p.ctl, octet); Tells(m.action) && m.ctl.state == to
    ensures On(p', to, stack) && p'.ctl == Control(p.ctl, octet).ctl
    ensures var a := Control(p.ctl, octet).action; Goes(room, p, [octet], p', DataTokens(Told(a), Data(a, [], octet)))
  {
    hide Control, Shape, DataTokens;
    var r := Parse(room, p, octet);
    GoesOne(room, p, octet, r);
    p' := r.p;
  }

  /** Text that is its own data, in two parts. */
  lemma DataGoes(room: nat, p: Parser, ret: Ret, a: seq<Byte>, p1: Parser, b: seq<Byte>, p2: Parser)
    requires Goes(room, p, a, p1, DataTokens(ret, a)) && Goes(room, p1, b, p2, DataTokens(ret, b))
    ensures Goes(room, p, a + b, p2, DataTokens(ret, a + b))
  {
    hide Goes, DataTokens;
    GoesThen(room, p, a, p1, DataTokens(ret, a), b, p2, DataTokens(ret, b));
    DataTokensConcat(ret, a, b);
  }

  /// Names

  predicate IsXmlTag(n: Name) {
    n != [] && IsNameStart(n[0]) && forall i :: 0 <= i < |n| ==> IsName(n[i])
  }

  lemma SizeSnoc(stack: seq<Name>, n: Name)
    ensures Size(stack + [n]) == Size(stack) + |n| + 1 && Popped(stack + [n]) == stack && Top(stack + [n]) == n
  {
    assert (stack + [n])[..|stack|] == stack;
  }

  predicate Grows(a: Action) {
    a.ElemName? || a.AttrName? || a.PiName?
  }

  predicate Pushes(a: Action) {
    a.ElemStart? || a.AttrStart? || a.PiStart?
  }

  lemma PushName(room: nat, p: Parser, from: State, stack: seq<Name>, octet: Byte, to: State) returns (p': Parser)
    requires On(p, from, stack) && IsPlain(octet) && !to.Etag1? && Size(stack) + 2 < room
    requires var m := Control(p.ctl, octet); Pushes(m.action) && m.ctl.state == to
    ensures On(p', to, stack + [[octet]]) && Goes(room, p, [octet], p', []) && p'.ctl == Control(p.ctl, octet).ctl
  {
    hide Control, Shape, Size;
    var r := Parse(room, p, octet);
    GoesOne(room, p, octet, r);
    p' := r.p;
  }

  lemma GrowName(room: nat, p: Parser, from: State, stack: seq<Name>, n: Name, octet: Byte, to: State)
    returns (p': Parser)
    requires On(p, from, stack + [n]) && IsPlain(octet) && !to.Etag1? && Size(stack) + |n| + 2 < room
    requires var m := Control(p.ctl, octet); Grows(m.action) && m.ctl.state == to
    ensures On(p', to, stack + [n + [octet]]) && Goes(room, p, [octet], p', []) && p'.ctl == Control(p.ctl, octet).ctl
  {
    SizeSnoc(stack, n);
    hide Control, Shape, Size;
    var r := Parse(room, p, octet);
    GoesOne(room, p, octet, r);
    p' := r.p;
  }

  lemma {:induction false} NameRest(room: nat, p: Parser, state: State, stack: seq<Name>, n: Name, k: nat)
    returns (p': Parser)
    requires 1 <= k <= |n| && On(p, state, stack + [n[..k]]) && !state.Etag1? && Size(stack) + |n| + 1 < room
    requires forall i :: k <= i < |n| ==>
               IsPlain(n[i]) && Control(p.ctl, n[i]).ctl == p.ctl && Grows(Control(p.ctl, n[i]).action)
    ensures On(p', state, stack + [n]) && Goes(room, p, n[k..], p', []) && p'.ctl == p.ctl
    decreases |n| - k
  {
    hide Goes, Control, On, Grows, Size;
    if k == |n| {
      assert n[..k] == n && n[k..] == [];
      p' := p;
      GoesNothing(room, p, state, stack + [n]);
    } else {
      StateOn(p, state, stack + [n[..k]]);
      var p1 := GrowName(room, p, state, stack, n[..k], n[k], state);
      assert n[..k] + [n[k]] == n[..k + 1] && n[k..] == [n[k]] + n[k + 1..];
      p' := NameRest(room, p1, state, stack, n, k + 1);
      GoesAfter(room, p, [n[k]], p1, n[k + 1..], p', []);
    }
  }

  /** A name from its first octet to its last. */
  lemma NameGoes(room: nat, p: Parser, from: State, stack: seq<Name>, n: Name, to: State) returns (p': Parser)
    requires On(p, from, stack) && n != [] && !to.Etag1? && Size(stack) + |n| + 1 < room
    requires forall i :: 0 <= i < |n| ==> IsPlain(n[i])
    requires var m := Control(p.ctl, n[0]); Pushes(m.action) && m.ctl.state == to
    requires var c := Control(p.ctl, n[0]).ctl;
             forall i :: 1 <= i < |n| ==> Control(c, n[i]).ctl == c && Grows(Control(c, n[i]).action)
    ensures On(p', to, stack + [n]) && Goes(room, p, n, p', []) && p'.ctl == Control(p.ctl, n[0]).ctl
  {
    hide Goes, Control, On, Grows, Pushes, Size;
    var p1 := PushName(room, p, from, stack, n[0], to);
    assert [n[0]] == n[..1];
    p' := NameRest(room, p1, to, stack, n, 1);
    GoesAfter(room, p, [n[0]], p1, n[1..], p', []);
    assert [n[0]] + n[1..] == n;
  }

  /** The end of a name gives the token with the name. */
  lemma NameEnds(room: nat, p: Parser, from: State, stack: seq<Name>, octet: Byte, to: State) returns (p': Parser)
    requires On(p, from, stack) && stack != [] && IsPlain(octet) && !to.Etag1?
    requires var m := Control(p.ctl, octet);
             m.ctl.state == to && (m.action.ElemNameEnd? || m.action.AttrNameEnd?
                                   || (m.action.PiNameEnd? && !IsXml(Top(stack))))
    ensures On(p', to, stack) && p'.ctl == Control(p.ctl, octet).ctl
    ensures Goes(room, p, [octet], p', [NameToken(Control(p.ctl, octet).action, Top(stack))])
  {
    hide Control, Shape, IsXml;
    var r := Parse(room, p, octet);
    GoesOne(room, p, octet, r);
    p' := r.p;
  }

  function NameToken(a: Action, n: Name): Token {
    if a.ElemNameEnd? then Opens(n) else if a.AttrNameEnd? then Attribute(n) else Instruction(n)
  }

  /** The end of an attribute or of an instruction drops its name. */
  lemma DropsName(room: nat, p: Parser, from: State, stack: seq<Name>, n: Name, octet: Byte, to: State)
    returns (p': Parser)
    requires On(p, from, stack + [n]) && IsPlain(octet) && !to.Etag1?
    requires var m := Control(p.ctl, octet); m.ctl.state == to && (m.action.AttrValueEnd? || m.action.PiEnd?)
    ensures On(p', to, stack) && p'.ctl == Control(p.ctl, octet).ctl
    ensures Goes(room, p, [octet], p', [if Control(p.ctl, octet).action.PiEnd? then InstructionEnds else AttributeEnds])
  {
    SizeSnoc(stack, n);
    hide Control, Shape;
    var r := Parse(room, p, octet);
    GoesOne(room, p, octet, r);
    p' := r.p;
  }
}
