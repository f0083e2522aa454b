/** The other direction, for everything but tags: what an accepted text must be made of. */
module YxmlScan {
  import opened Bytes
  import opened YxmlClient
  import opened YxmlData
  import opened YxmlMarkup
  import opened YxmlSpec
  import opened YxmlTree

  /// Accepted texts

  predicate NoCr(s: seq<Byte>) {
    forall i :: 0 <= i < |s| ==> s[i] != 13
  }

  /** From here the text, whose line ends are line feeds, is taken to the end of a document. */
  ghost predicate Accepts(room: nat, p: Parser, s: seq<Byte>) {
    Shape(p) && p.ignore == 0 && NoCr(s) && var t := Run(room, p, s); !IsError(t.ret) && t.p.ctl.state.Misc3?
  }

  /** Behind what goes, the rest is accepted. */
  lemma AcceptsRest(room: nat, p: Parser, t: seq<Byte>, p': Parser, tokens: seq<Token>, rest: seq<Byte>)
    requires Accepts(room, p, t + rest) && Goes(room, p, t, p', tokens) && p'.ignore == 0
    ensures Accepts(room, p', rest)
  {
    hide Goes, Shape, Run;
    GoesOn(room, p, t, p', tokens, rest);
    forall i | 0 <= i < |rest|
      ensures rest[i] != 13
    {
      assert rest[i] == (t + rest)[|t| + i];
    }
  }

  lemma AcceptsOn(room: nat, p: Parser, t: seq<Byte>, p': Parser, tokens: seq<Token>, rest: seq<Byte>, to: State,
                  stack: seq<Name>)
    requires Accepts(room, p, t + rest) && Goes(room, p, t, p', tokens) && On(p', to, stack)
    ensures Accepts(room, p', rest)
  {
    hide Goes, Accepts, Shape;
    AcceptsRest(room, p, t, p', tokens, rest);
  }

  /** The next octet is one that the table takes, and its action succeeds. */
  lemma Legal(room: nat, p: Parser, s: seq<Byte>)
    requires Accepts(room, p, s) && (s != [] || !p.ctl.state.Misc3?)
    ensures s != [] && IsPlain(s[0]) && !Control(p.ctl, s[0]).action.SyntaxError?
  {
    hide Shape, Control;
    var r := Parse(room, p, s[0]);
  }

  lemma Succeeds(room: nat, p: Parser, s: seq<Byte>)
    requires Accepts(room, p, s) && s != []
    ensures IsPlain(s[0]) && Shape(p) && !IsError(Parse(room, p, s[0]).ret)
  {
    hide Shape, Octet;
    var r := Parse(room, p, s[0]);
  }

  lemma Cons(s: seq<Byte>)
    requires s != []
    ensures s == [s[0]] + s[1..]
  {
  }

  /** What an action that succeeds says about the parser before it. */
  lemma ActionSucceeds(room: nat, p: Parser, s: seq<Byte>)
    requires Accepts(room, p, s) && s != []
    ensures Shape(p)
    ensures var m := Control(p.ctl, s[0]);
            (NeedsTop(m.action) ==> p.stack != [])
              && !IsError(Do(room, p.(ignore := 0, ctl := m.ctl), m.action, s[0]).ret)
  {
    Succeeds(room, p, s);
    TopIsThere(p, s[0]);
    hide Do, Control, Accepts, Shape, NeedsTop;
    var m := Control(p.ctl, s[0]);
    assert p.(ignore := 0).(ctl := m.ctl) == p.(ignore := 0, ctl := m.ctl);
  }

  /** One octet without an effect. */
  lemma Advance(room: nat, p: Parser, from: State, stack: seq<Name>, s: seq<Byte>, to: State) returns (p': Parser)
    requires On(p, from, stack) && Accepts(room, p, s) && s != [] && !to.Etag1?
    requires var m := Control(p.ctl, s[0]); m.action == Nothing && m.ctl.state == to
    ensures On(p', to, stack) && p'.ctl == Control(p.ctl, s[0]).ctl && Accepts(room, p', s[1..])
  {
    assert IsPlain(s[0]) by {
      hide Shape, Control;
      AcceptedOctet(room, p, s);
    }
    hide Goes, Accepts, On, Control;
    p' := Quietly(room, p, from, stack, s[0], to);
    assert s == [s[0]] + s[1..];
    AcceptsOn(room, p, [s[0]], p', [], s[1..], to, stack);
  }

  lemma AcceptedOctet(room: nat, p: Parser, s: seq<Byte>)
    requires Accepts(room, p, s) && s != []
    ensures IsPlain(s[0])
  {
    hide Shape, Control;
    var r := Parse(room, p, s[0]);
  }

  /// What the table takes

  lemma TakenMarkup(c: Ctl, ch: Byte)
    requires !Control(c, ch).action.SyntaxError?
    ensures c.state.Le2? ==> ch == BANG || ch == ASK || ch == SLASH || IsNameStart(ch)
    ensures c.state.Le0? || c.state.Le1? ==> ch == BANG || ch == ASK || IsNameStart(ch)
    ensures c.state.Le3? ==> ch == BANG || ch == ASK
    ensures c.state.Lee2? ==> ch == DASH || ch == OPEN
    ensures c.state.Comment0? || c.state.Comment1? ==> ch == DASH
    ensures c.state.Comment4? ==> ch == GT
    ensures c.state.Literal? ==> c.literal != [] && ch == c.literal[0]
    ensures c.state.Misc2a? || c.state.Attr4? ==> IsRef(ch) || ch == SEMICOLON
  {
  }

  lemma TakenPi(c: Ctl, ch: Byte)
    requires !Control(c, ch).action.SyntaxError?
    ensures c.state.Pi0? || c.state.Leq0? ==> IsNameStart(ch)
    ensures InPiName(c.state) ==> IsName(ch) || ch == ASK || IsSpace(ch)
    ensures c.state.XmlDecl2? ==> IsName(ch) || IsSpace(ch)
    ensures c.state.Pi4? ==> ch == GT
  {
  }

  /// Comments

  /** Up to the two dashes that end it, a comment is a comment's text. */
  lemma {:induction false} CommentTextScanned(room: nat, p: Parser, stack: seq<Name>, s: seq<Byte>)
    returns (t: seq<Byte>, rest: seq<Byte>)
    requires On(p, Comment2, stack) && Accepts(room, p, s)
    ensures IsCommentText(t) && s == t + ([DASH] + [DASH] + [GT]) + rest
    decreases |s|
  {
    hide Accepts, On, Control;
    StateOn(p, Comment2, stack);
    Legal(room, p, s);
    CommentTable(p.ctl, s[0]);
    if s[0] != DASH {
      var p1 := Advance(room, p, Comment2, stack, s, Comment2);
      var u;
      u, rest := CommentTextScanned(room, p1, stack, s[1..]);
      t := [s[0]] + u;
      assert t[1..] == u;
      assert s == [s[0]] + s[1..];
    } else {
      var p1 := Advance(room, p, Comment2, stack, s, Comment3);
      StateOn(p1, Comment3, stack);
      Legal(room, p1, s[1..]);
      CommentTable(p1.ctl, s[1]);
      if s[1] != DASH {
        var p2 := Advance(room, p1, Comment3, stack, s[1..], Comment2);
        var u;
        assert s[1..][1..] == s[2..];
        u, rest := CommentTextScanned(room, p2, stack, s[2..]);
        t := [DASH, s[1]] + u;
        assert t[2..] == u;
        assert s == [DASH, s[1]] + s[2..];
      } else {
        var p2 := Advance(room, p1, Comment3, stack, s[1..], Comment4);
        StateOn(p2, Comment4, stack);
        assert s[1..][1..] == s[2..];
        Legal(room, p2, s[2..]);
        TakenMarkup(p2.ctl, s[2]);
        t, rest := [], s[3..];
        assert s == [DASH] + [DASH] + [GT] + s[3..];
      }
    }
  }

  lemma CommentScanned(room: nat, p: Parser, stack: seq<Name>, s: seq<Byte>) returns (t: seq<Byte>, rest: seq<Byte>)
    requires On(p, Comment1, stack) && Accepts(room, p, s)
    ensures IsCommentText(t) && s == CommentTail(t) + rest
  {
    hide Accepts, On, Control, IsCommentText;
    StateOn(p, Comment1, stack);
    Legal(room, p, s);
    TakenMarkup(p.ctl, s[0]);
    CommentTable(p.ctl, s[0]);
    var p1 := Advance(room, p, Comment1, stack, s, Comment2);
    t, rest := CommentTextScanned(room, p1, stack, s[1..]);
    assert s == [DASH] + s[1..];
    assert [DASH] + (t + ([DASH] + [DASH] + [GT]) + rest) == CommentTail(t) + rest;
  }

  /// Processing instructions

  lemma {:induction false} PiTextScanned(room: nat, p: Parser, stack: seq<Name>, s: seq<Byte>)
    returns (t: seq<Byte>, rest: seq<Byte>)
    requires On(p, Pi2, stack) && Accepts(room, p, s)
    ensures IsPiText(t) && s == t + ([ASK] + [GT]) + rest
    decreases |s|
  {
    hide Accepts, On, Control, Goes, DataTokens;
    StateOn(p, Pi2, stack);
    Legal(room, p, s);
    if s[0] != ASK {
      var p1 := PiOctetGoes(room, p, stack, s[0]);
      assert s == [s[0]] + s[1..];
      AcceptsOn(room, p, [s[0]], p1, DataTokens(PiContentToken, [s[0]]), s[1..], Pi2, stack);
      var u;
      u, rest := PiTextScanned(room, p1, stack, s[1..]);
      t := [s[0]] + u;
      assert t[1..] == u;
    } else {
      PiTable(p.ctl, ASK);
      var p1 := Advance(room, p, Pi2, stack, s, Pi3);
      StateOn(p1, Pi3, stack);
      Legal(room, p1, s[1..]);
      if s[1] != GT {
        var p2 := AskGoes(room, p, stack, s[1]);
        assert s == [ASK] + [s[1]] + s[2..];
        AcceptsOn(room, p, [ASK] + [s[1]], p2, DataTokens(PiContentToken, [ASK] + [s[1]]), s[2..], Pi2, stack);
        var u;
        u, rest := PiTextScanned(room, p2, stack, s[2..]);
        t := [ASK] + [s[1]] + u;
        assert t[2..] == u;
      } else {
        t, rest := [], s[2..];
        assert s == [ASK] + [GT] + s[2..];
      }
    }
  }

  /** The name of an instruction that ends is not xml. */
  lemma NameEndsRight(room: nat, p: Parser, from: State, stack: seq<Name>, n: Name, s: seq<Byte>)
    requires On(p, from, stack + [n]) && InPiName(from) && Accepts(room, p, s) && s != [] && !IsName(s[0])
    ensures !IsXml(n) && IsPlain(s[0]) && (s[0] == ASK || IsSpace(s[0]))
  {
    hide Control, Shape, IsXml, Accepts, IsName, IsSpace;
    SizeSnoc(stack, n);
    Legal(room, p, s);
    TakenPi(p.ctl, s[0]);
    PiTable(p.ctl, s[0]);
    ActionSucceeds(room, p, s);
  }

  /** An instruction without text. */
  lemma BarePiScanned(room: nat, p: Parser, from: State, stack: seq<Name>, n: Name, s: seq<Byte>)
    returns (rest: seq<Byte>)
    requires On(p, from, stack + [n]) && InPiName(from) && !IsXml(n) && Accepts(room, p, s) && s != [] && s[0] == ASK
    ensures s == PiTail([], []) + rest
  {
    hide Accepts, On, Control, Goes, IsXml;
    var names := stack + [n];
    SizeSnoc(stack, n);
    StateOn(p, from, names);
    PiTable(p.ctl, ASK);
    var p1 := NameEnds(room, p, from, names, ASK, Pi4);
    Cons(s);
    AcceptsOn(room, p, [ASK], p1, [Instruction(n)], s[1..], Pi4, names);
    StateOn(p1, Pi4, names);
    Legal(room, p1, s[1..]);
    TakenPi(p1.ctl, s[1..][0]);
    Cons(s[1..]);
    rest := s[1..][1..];
    assert [ASK] + ([GT] + rest) == PiTail([], []) + rest;
  }

  lemma BlankPiScanned(room: nat, p: Parser, from: State, stack: seq<Name>, n: Name, s: seq<Byte>)
    returns (t: seq<Byte>, rest: seq<Byte>)
    requires On(p, from, stack + [n]) && InPiName(from) && !IsXml(n) && Accepts(room, p, s) && s != []
    requires IsSpace(s[0]) && IsPlain(s[0])
    ensures IsPiText(t) && s == PiTail([s[0]], t) + rest
  {
    hide Accepts, On, Control, Goes, IsXml, IsPiText, IsSpace;
    var names := stack + [n];
    SizeSnoc(stack, n);
    StateOn(p, from, names);
    PiTable(p.ctl, s[0]);
    var p1 := NameEnds(room, p, from, names, s[0], Pi2);
    Cons(s);
    AcceptsOn(room, p, [s[0]], p1, [Instruction(n)], s[1..], Pi2, names);
    t, rest := PiTextScanned(room, p1, names, s[1..]);
    assert [s[0]] + (t + ([ASK] + [GT]) + rest) == PiTail([s[0]], t) + rest;
  }

  /** From the end of the name on. */
  lemma PiRestScanned(room: nat, p: Parser, from: State, stack: seq<Name>, n: Name, s: seq<Byte>)
    returns (sep: seq<Byte>, t: seq<Byte>, rest: seq<Byte>)
    requires On(p, from, stack + [n]) && InPiName(from) && IsXmlTag(n) && Accepts(room, p, s) && s != []
             && !IsName(s[0])
    ensures IsInstruction(n, sep, t) && s == PiTail(sep, t) + rest
  {
    hide Accepts, On, IsXmlTag, IsXml, IsPiText, IsName, IsSpace, PiTail;
    NameEndsRight(room, p, from, stack, n, s);
    if s[0] == ASK {
      sep, t := [], [];
      rest := BarePiScanned(room, p, from, stack, n, s);
      NoPiText();
    } else {
      sep := [s[0]];
      t, rest := BlankPiScanned(room, p, from, stack, n, s);
    }
  }

  lemma NoPiText()
    ensures IsPiText([])
  {
  }

  /// Names

  /** The octets of a name that a text begins with. */
  function NameRun(s: seq<Byte>): (k: nat)
    ensures k <= |s| && (forall i :: 0 <= i < k ==> IsName(s[i])) && (k < |s| ==> !IsName(s[k]))
    ensures s != [] && IsName(s[0]) ==> k > 0
  {
    if s == [] || !IsName(s[0]) then 0 else 1 + NameRun(s[1..])
  }

  lemma NameScanned(s: seq<Byte>) returns (n: Name, rest: seq<Byte>)
    requires s != [] && IsNameStart(s[0])
    ensures IsXmlTag(n) && s == n + rest && (rest != [] ==> !IsName(rest[0]))
  {
    NamesArePlain(s[0]);
    hide IsName, IsNameStart;
    var k := NameRun(s);
    n, rest := s[..k], s[k..];
  }

  lemma PushFits(room: nat, p: Parser, from: State, stack: seq<Name>, s: seq<Byte>)
    requires On(p, from, stack) && Accepts(room, p, s) && s != [] && Pushes(Control(p.ctl, s[0]).action)
    ensures Size(stack) + 2 < room
  {
    hide Control, Shape, Size, Accepts, Do;
    ActionSucceeds(room, p, s);
    DoPushes(room, p.(ignore := 0, ctl := Control(p.ctl, s[0]).ctl), Control(p.ctl, s[0]).action, s[0]);
  }

  lemma DoPushes(room: nat, p: Parser, a: Action, ch: Byte)
    ensures Pushes(a) ==> Do(room, p, a, ch) == Push(room, p, ch)
    ensures Grows(a) && p.stack != [] ==> Do(room, p, a, ch) == PushOctet(room, p, ch)
  {
  }

  lemma GrowFits(room: nat, p: Parser, from: State, stack: seq<Name>, n: Name, s: seq<Byte>)
    requires On(p, from, stack + [n]) && Accepts(room, p, s) && s != [] && Grows(Control(p.ctl, s[0]).action)
    ensures Size(stack) + |n| + 2 < room
  {
    hide Control, Shape, Size, Accepts, Do;
    SizeSnoc(stack, n);
    ActionSucceeds(room, p, s);
    DoPushes(room, p.(ignore := 0, ctl := Control(p.ctl, s[0]).ctl), Control(p.ctl, s[0]).action, s[0]);
  }

  /** A name that is taken has room on the stack. */
  lemma NameFits(room: nat, p: Parser, from: State, stack: seq<Name>, n: Name, to: State, rest: seq<Byte>)
    requires On(p, from, stack) && n != [] && !to.Etag1? && Accepts(room, p, n + rest)
    requires forall i :: 0 <= i < |n| ==> IsPlain(n[i])
    requires var m := Control(p.ctl, n[0]); Pushes(m.action) && m.ctl.state == to
    requires var c := Control(p.ctl, n[0]).ctl;
             forall i :: 1 <= i < |n| ==> Control(c, n[i]).ctl == c && Grows(Control(c, n[i]).action)
    ensures Size(stack) + |n| + 1 < room
  {
    hide Goes, Control, On, Grows, Pushes, Size, Accepts;
    PushFits(room, p, from, stack, n + rest);
    if Size(stack) + |n| + 1 >= room {
      var m := room - Size(stack) - 2;
      var u := n[..m];
      var p1 := NameGoes(room, p, from, stack, u, to);
      assert n + rest == u + (n[m..] + rest);
      AcceptsOn(room, p, u, p1, [], n[m..] + rest, to, stack + [u]);
      assert (n[m..] + rest)[0] == n[m];
      GrowFits(room, p1, to, stack, u, n[m..] + rest);
    }
  }

  /// References

  function RefRun(s: seq<Byte>): (k: nat)
    ensures k <= |s| && (forall i :: 0 <= i < k ==> IsRef(s[i])) && (k < |s| ==> !IsRef(s[k]))
  {
    if s == [] || !IsRef(s[0]) then 0 else 1 + RefRun(s[1..])
  }

  lemma RefOverflows(room: nat, p: Parser, state: State, stack: seq<Name>, s: seq<Byte>)
    requires On(p, state, stack) && (state.Misc2a? || state.Attr4?) && Accepts(room, p, s) && s != [] && IsRef(s[0])
    ensures |p.reference| < REF_MAX
  {
    hide Control, Shape, IsRef, Accepts;
    RefTable(p.ctl, s[0]);
    ActionSucceeds(room, p, s);
  }

  lemma RefIsAllowed(room: nat, p: Parser, state: State, stack: seq<Name>, s: seq<Byte>)
    requires On(p, state, stack) && (state.Misc2a? || state.Attr4?) && Accepts(room, p, s) && s != []
             && s[0] == SEMICOLON
    ensures RefAllowed(RefValue(p.reference))
  {
    hide Control, Shape, RefValue, RefAllowed, Accepts;
    RefTable(p.ctl, SEMICOLON);
    ActionSucceeds(room, p, s);
  }

  /** The name of a reference that is taken is short enough. */
  lemma RefFits(room: nat, p: Parser, state: State, stack: seq<Name>, n: seq<Byte>, rest: seq<Byte>)
    requires On(p, state, stack) && (state.Misc2a? || state.Attr4?) && p.reference == [] && Accepts(room, p, n + rest)
    requires forall i :: 0 <= i < |n| ==> IsRef(n[i])
    ensures |n| <= REF_MAX
  {
    hide Goes, On, Accepts, IsRef;
    if |n| > REF_MAX {
      var u := n[..REF_MAX];
      assert u[..0] == [] && u[0..] == u;
      var p1 := RefRest(room, p, state, stack, u, 0);
      assert n + rest == u + (n[REF_MAX..] + rest);
      AcceptsOn(room, p, u, p1, [], n[REF_MAX..] + rest, state, stack);
      assert (n[REF_MAX..] + rest)[0] == n[REF_MAX];
      RefOverflows(room, p1, state, stack, n[REF_MAX..] + rest);
    }
  }

  /** The name of a reference and the semicolon. */
  lemma RefNameScanned(room: nat, p: Parser, state: State, stack: seq<Name>, s: seq<Byte>)
    returns (n: seq<Byte>, rest: seq<Byte>)
    requires On(p, state, stack) && (state.Misc2a? || state.Attr4?) && p.reference == [] && Accepts(room, p, s)
    ensures IsReference(n) && s == n + ([SEMICOLON] + rest)
  {
    hide Goes, On, Accepts, Control, IsRef, RefValue, RefAllowed;
    var k := RefRun(s);
    n := s[..k];
    var more := s[k..];
    assert s == n + more;
    RefFits(room, p, state, stack, n, more);
    assert n[..0] == [] && n[0..] == n;
    var p1 := RefRest(room, p, state, stack, n, 0);
    AcceptsOn(room, p, n, p1, [], more, state, stack);
    StateOn(p1, state, stack);
    Legal(room, p1, more);
    TakenMarkup(p1.ctl, more[0]);
    RefIsAllowed(room, p1, state, stack, more);
    Cons(more);
    rest := more[1..];
  }

  lemma RefScanned(room: nat, p: Parser, from: State, stack: seq<Name>, s: seq<Byte>)
    returns (n: seq<Byte>, rest: seq<Byte>)
    requires On(p, from, stack) && (from.Misc2? || from.Attr3?) && Accepts(room, p, s) && s != [] && s[0] == AMP
    ensures IsReference(n) && s == RefText(n) + rest
  {
    hide Goes, On, Accepts, IsReference;
    var p1 := RefBegins(room, p, from, stack);
    Cons(s);
    AcceptsOn(room, p, [AMP], p1, [], s[1..], RefState(from), stack);
    n, rest := RefNameScanned(room, p1, RefState(from), stack, s[1..]);
    assert [AMP] + (n + ([SEMICOLON] + rest)) == RefText(n) + rest;
  }

  /// Literals and CDATA sections

  /** A literal that must follow does. */
  lemma {:induction false} LiteralScanned(room: nat, p: Parser, stack: seq<Name>, t: seq<Byte>, s: seq<Byte>)
    requires On(p, Literal, stack) && p.ctl.literal == t != [] && !p.ctl.next.Etag1? && Accepts(room, p, s)
    ensures t <= s
    decreases |t|
  {
    hide Accepts, On, Control;
    StateOn(p, Literal, stack);
    Legal(room, p, s);
    TakenMarkup(p.ctl, s[0]);
    LiteralTable(p.ctl);
    if |t| > 1 {
      var p1 := Advance(room, p, Literal, stack, s, Literal);
      LiteralScanned(room, p1, stack, t[1..], s[1..]);
      assert t == [t[0]] + t[1..] && s == [s[0]] + s[1..];
    }
  }

  /** The rest of a section, behind what is held back of it. */
  lemma {:induction false} CdataScanned(room: nat, p: Parser, stack: seq<Name>, held: nat, s: seq<Byte>)
    returns (t: seq<Byte>, rest: seq<Byte>)
    requires On(p, CdataState(held), stack) && held <= 2 && Accepts(room, p, s)
    ensures IsCdata(t) && Brackets(held) + s == t + ([CLOSE] + [CLOSE] + [GT]) + rest
    decreases |s|
  {
    hide Goes, On, Accepts, DataTokens, CdataState, Control, IsCdata;
    StateOn(p, CdataState(held), stack);
    HeldIsInside(held);
    Legal(room, p, s);
    assert s == [s[0]] + s[1..];
    if held == 2 && s[0] == GT {
      t, rest := [], s[1..];
      NoCdata();
      assert Brackets(2) + ([GT] + rest) == [] + ([CLOSE] + [CLOSE] + [GT]) + rest;
    } else {
      var p1, h1, a := CdataStep(room, p, stack, held, s[0]);
      AcceptsOn(room, p, [s[0]], p1, DataTokens(ContentToken, a), s[1..], CdataState(h1), stack);
      var u;
      u, rest := CdataScanned(room, p1, stack, h1, s[1..]);
      t := a + u;
      var end := [CLOSE] + [CLOSE] + [GT];
      RegroupHeld(a, Brackets(h1), Brackets(held), [s[0]], s[1..]);
      assert a + (u + end + rest) == t + end + rest;
      CdataJoins(held, s[0], a, h1, u, s[1..], rest);
    }
  }

  lemma HeldIsInside(held: nat)
    ensures !CdataState(held).Misc3?
  {
  }

  lemma NoCdata()
    ensures IsCdata([])
  {
  }

  /** What comes out of a step does not make an end together with what follows. */
  lemma CdataJoins(held: nat, octet: Byte, a: seq<Byte>, h1: nat, u: seq<Byte>, s: seq<Byte>, rest: seq<Byte>)
    requires held <= 2 && h1 <= 2 && IsPlain(octet) && !(held == 2 && octet == GT) && IsCdata(u)
    requires a + Brackets(h1) == Brackets(held) + [octet] && (octet != CLOSE ==> h1 == 0)
    requires octet == CLOSE ==> h1 == (if held < 2 then held + 1 else 2) && a == Brackets(held + 1 - h1)
    requires Brackets(h1) + s == u + ([CLOSE] + [CLOSE] + [GT]) + rest
    ensures IsCdata(a + u)
  {
    if octet != CLOSE {
      assert a == Brackets(held) + [octet] by { assert a + Brackets(0) == a; }
      PlainJoin(a, u);
      JoinBehind(held, octet, u);
    } else if held < 2 {
      assert a == [] && a + u == u;
    } else {
      assert a == [CLOSE];
      PlainJoin(a, u);
      SecondIsBracket(u, s, rest);
      JoinBracket(u);
    }
  }

  lemma PlainJoin(a: seq<Byte>, u: seq<Byte>)
    requires ArePlain(a) && ArePlain(u)
    ensures ArePlain(a + u)
  {
  }

  lemma SecondIsBracket(u: seq<Byte>, s: seq<Byte>, rest: seq<Byte>)
    requires Brackets(2) + s == u + ([CLOSE] + [CLOSE] + [GT]) + rest
    ensures |u| > 1 ==> u[1] == CLOSE
  {
    if |u| > 1 {
      assert (Brackets(2) + s)[1] == CLOSE;
      assert (u + ([CLOSE] + [CLOSE] + [GT]) + rest)[1] == u[1];
    }
  }

  lemma JoinBracket(u: seq<Byte>)
    requires NoCdataEnd(u) && (|u| > 1 ==> u[1] == CLOSE)
    ensures NoCdataEnd([CLOSE] + u)
  {
    var t := [CLOSE] + u;
    forall i | 0 <= i < |t| - 2 && t[i] == CLOSE && t[i + 1] == CLOSE
      ensures t[i + 2] != GT
    {
      if i > 0 { assert u[i - 1] == CLOSE && u[i] == CLOSE; }
    }
  }

  lemma JoinBehind(held: nat, octet: Byte, u: seq<Byte>)
    requires NoCdataEnd(u) && octet != CLOSE && held <= 2 && !(held == 2 && octet == GT)
    ensures NoCdataEnd(Brackets(held) + [octet] + u)
  {
    var t, k := Brackets(held) + [octet] + u, held + 1;
    assert t[held] == octet;
    forall i | 0 <= i < |t| - 2 && t[i] == CLOSE && t[i + 1] == CLOSE
      ensures t[i + 2] != GT
    {
      if i >= k { assert u[i - k] == CLOSE && u[i - k + 1] == CLOSE && t[i + 2] == u[i - k + 2]; }
    }
  }
}
