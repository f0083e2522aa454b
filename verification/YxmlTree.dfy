/** Every run of the parser without an error describes a tree of elements. */
module YxmlTree {
  import opened Bytes
  import opened YxmlSpec

  /// Trees and their tokens

  datatype Element = Element(name: Name, children: seq<Element>)

  function Tokens(e: Element): seq<Event>
    decreases e, 1
  {
    [Start(e.name)] + AllTokens(e.children) + [End(e.name)]
  }

  function AllTokens(es: seq<Element>): seq<Event>
    decreases es, 0
  {
    if es == [] then [] else AllTokens(es[..|es| - 1]) + Tokens(es[|es| - 1])
  }

  /** An element that is still open, with the children it has so far. */
  datatype Frame = Frame(name: Name, children: seq<Element>)

  datatype Doc = Doc(frames: seq<Frame>, roots: seq<Element>)

  const EMPTY: Doc := Doc([], [])

  function FrameTokens(frames: seq<Frame>): seq<Event> {
    if frames == [] then []
    else
      var f := frames[|frames| - 1];
      FrameTokens(frames[..|frames| - 1]) + ([Start(f.name)] + AllTokens(f.children))
  }

  function DocTokens(d: Doc): seq<Event> {
    AllTokens(d.roots) + FrameTokens(d.frames)
  }

  /** An open element may start in another one, or as the only root; an end must name the innermost element. */
  predicate Allows(d: Doc, e: Event) {
    match e
    case Start(_) => d.frames != [] || d.roots == []
    case End(name) => d.frames != [] && d.frames[|d.frames| - 1].name == name
  }

  function Add(d: Doc, e: Element): Doc {
    if d.frames == [] then d.(roots := d.roots + [e])
    else
      var f := d.frames[|d.frames| - 1];
      d.(frames := d.frames[..|d.frames| - 1] + [f.(children := f.children + [e])])
  }

  function Feed(d: Doc, e: Event): Doc
    requires Allows(d, e)
  {
    match e
    case Start(name) => d.(frames := d.frames + [Frame(name, [])])
    case End(_) =>
      var f := d.frames[|d.frames| - 1];
      Add(d.(frames := d.frames[..|d.frames| - 1]), Element(f.name, f.children))
  }

  lemma AllTokensSnoc(es: seq<Element>, e: Element)
    ensures AllTokens(es + [e]) == AllTokens(es) + Tokens(e)
  {
    assert (es + [e])[..|es|] == es;
  }

  lemma FrameTokensSnoc(fs: seq<Frame>, f: Frame)
    ensures FrameTokens(fs + [f]) == FrameTokens(fs) + ([Start(f.name)] + AllTokens(f.children))
  {
    assert (fs + [f])[..|fs|] == fs;
  }

  lemma AddTokens(d: Doc, e: Element)
    requires d.roots == [] || d.frames == []
    ensures DocTokens(Add(d, e)) == DocTokens(d) + Tokens(e)
  {
    if d.frames == [] {
      AllTokensSnoc(d.roots, e);
      assert AllTokens(d.roots) + [] == AllTokens(d.roots);
      hide AllTokens, Tokens;
    } else {
      var init, f := d.frames[..|d.frames| - 1], d.frames[|d.frames| - 1];
      assert d.frames == init + [f];
      FrameTokensSnoc(init, f);
      FrameTokensSnoc(init, f.(children := f.children + [e]));
      AllTokensSnoc(f.children, e);
      hide AllTokens, Tokens, FrameTokens;
      Regroup(AllTokens(d.roots), FrameTokens(init), [Start(f.name)], AllTokens(f.children), Tokens(e));
    }
  }

  lemma Regroup(a: seq<Event>, b: seq<Event>, s: seq<Event>, c: seq<Event>, t: seq<Event>)
    ensures a + (b + (s + (c + t))) == a + (b + (s + c)) + t
  {
  }

  /** Feeding a token adds exactly this token. */
  lemma FeedTokens(d: Doc, e: Event)
    requires Allows(d, e) && (d.roots == [] || d.frames == [])
    ensures var d' := Feed(d, e);
            DocTokens(d') == DocTokens(d) + [e] && (d'.roots == [] || d'.frames == [])
  {
    match e {
      case Start(name) =>
        FrameTokensSnoc(d.frames, Frame(name, []));
        assert [Start(name)] + AllTokens([]) == [Start(name)];
        hide AllTokens, Tokens, FrameTokens;
      case End(name) =>
        var init, f := d.frames[..|d.frames| - 1], d.frames[|d.frames| - 1];
        assert d.frames == init + [f];
        FrameTokensSnoc(init, f);
        AddTokens(d.(frames := init), Element(f.name, f.children));
        EndTokens(AllTokens(d.roots), FrameTokens(init), f);
        hide AllTokens, Tokens, FrameTokens;
    }
  }

  lemma EndTokens(a: seq<Event>, b: seq<Event>, f: Frame)
    ensures a + b + Tokens(Element(f.name, f.children))
            == a + (b + ([Start(f.name)] + AllTokens(f.children))) + [End(f.name)]
  {
    hide AllTokens;
  }

  /// The parser and the tree

  function Names(frames: seq<Frame>): seq<Name> {
    seq(|frames|, i requires 0 <= i < |frames| => frames[i].name)
  }

  /** The elements that have started, outermost first. */
  function Opened(c: Ctl, stack: seq<Name>): seq<Name> {
    if stack != [] && (c.state.Elem0? || HasExtra(c.state)) then Popped(stack) else stack
  }

  predicate Agrees(c: Ctl, stack: seq<Name>, d: Doc) {
    match PlaceOf(c)
    case Prolog => d == EMPTY
    case Inside => d.roots == [] && Names(d.frames) == Opened(c, stack)
    case Epilog => d.frames == [] && |d.roots| == 1
  }

  lemma QuietAgrees(c: Ctl, c': Ctl, stack: seq<Name>, d: Doc)
    requires Quiet(c, c') && Fits(c, stack, []) && Agrees(c, stack, d)
    ensures Fits(c', stack, []) && Agrees(c', stack, d)
  {
    hide PlaceOf, HasExtra;
  }

  lemma GoodPush(stack: seq<Name>, ch: Byte)
    requires GoodNames(stack) && ch != 0
    ensures GoodNames(stack + [[ch]]) && Popped(stack + [[ch]]) == stack
  {
  }

  lemma GoodPop(stack: seq<Name>)
    requires GoodNames(stack) && stack != []
    ensures GoodNames(Popped(stack))
  {
  }

  lemma GoodGrow(stack: seq<Name>, ch: Byte)
    requires GoodNames(stack) && stack != [] && ch != 0
    ensures var s := Popped(stack) + [Top(stack) + [ch]];
            GoodNames(s) && |s| == |stack| && Popped(s) == Popped(stack) && Top(s) == Top(stack) + [ch]
  {
    var s := Popped(stack) + [Top(stack) + [ch]];
    assert GoodName(Top(stack) + [ch]) by { assert GoodName(stack[|stack| - 1]); }
    forall i | 0 <= i < |s|
      ensures GoodName(s[i])
    {
      if i < |stack| - 1 { assert s[i] == stack[i]; }
    }
  }

  lemma StartAgrees(c: Ctl, c': Ctl, stack: seq<Name>, ch: Byte, d: Doc)
    requires Fits(c, stack, []) && Agrees(c, stack, d) && SuitsStack(c, c', ElemStart)
    ensures Fits(c', stack + [[ch]], []) && Agrees(c', stack + [[ch]], d)
  {
    assert Popped(stack + [[ch]]) == stack;
    assert PlaceOf(c').Inside? && !HasExtra(c'.state);
    if PlaceOf(c).Prolog? { assert Names([]) == []; }
    hide PlaceOf, HasExtra;
  }

  lemma NameEndAgrees(c: Ctl, c': Ctl, stack: seq<Name>, d: Doc)
    requires Fits(c, stack, []) && Agrees(c, stack, d) && SuitsStack(c, c', ElemNameEnd)
    ensures stack != [] && Allows(d, Start(Top(stack)))
    ensures Fits(c', stack, []) && Agrees(c', stack, Feed(d, Start(Top(stack))))
  {
    assert PlaceOf(c).Inside? && PlaceOf(c').Inside? && !HasExtra(c.state) && !HasExtra(c'.state) && !c'.state.Elem0?;
    assert stack == Popped(stack) + [Top(stack)];
    var d' := Feed(d, Start(Top(stack)));
    assert Names(d'.frames) == Names(d.frames) + [Top(stack)];
    hide PlaceOf, HasExtra;
  }

  /** The end of an element that was open. */
  lemma EndAgrees(c: Ctl, c': Ctl, stack: seq<Name>, d: Doc)
    requires PlaceOf(c).Inside? && !HasExtra(c.state) && !c.state.Elem0? && stack != [] && Agrees(c, stack, d)
    requires PlaceOf(c').Inside? && !HasExtra(c'.state) && !c'.state.Elem0? && !c'.state.Etag1?
    ensures Allows(d, End(Top(stack)))
    ensures var stack' := Popped(stack);
            var c'' := if stack' == [] then c'.(state := Misc3) else c';
            Fits(c'', stack', []) && Agrees(c'', stack', Feed(d, End(Top(stack))))
  {
    hide PlaceOf, HasExtra;
    assert Names(d.frames) == stack;
    var n := |stack| - 1;
    var stack', d' := Popped(stack), Feed(d, End(Top(stack)));
    assert d.frames[n].name == stack[n];
    EpilogState(c'.(state := Misc3));
    if stack' != [] {
      assert forall i :: 0 <= i < n ==> d'.frames[i].name == d.frames[i].name;
      assert Names(d'.frames) == stack';
    }
  }

  lemma EpilogState(c: Ctl)
    requires c.state.Misc3?
    ensures PlaceOf(c).Epilog? && !HasExtra(c.state)
  {
  }

  /// One octet

  lemma GrowAgrees(c: Ctl, c': Ctl, stack: seq<Name>, ch: Byte, a: Action, d: Doc)
    requires a.ElemName? || a.AttrName? || a.PiName?
    requires Fits(c, stack, []) && Agrees(c, stack, d) && SuitsStack(c, c', a)
    ensures stack != []
    ensures var stack' := Popped(stack) + [Top(stack) + [ch]];
            Fits(c', stack', []) && Agrees(c', stack', d)
  {
    var stack' := Popped(stack) + [Top(stack) + [ch]];
    if a.ElemName? { assert PlaceOf(c).Inside? && !HasExtra(c.state) && PlaceOf(c').Inside? && !HasExtra(c'.state); }
    assert stack != [];
    assert Popped(stack') == Popped(stack);
    hide PlaceOf, HasExtra;
  }

  /** The name of an attribute or of an instruction comes and goes. */
  lemma ExtraAgrees(c: Ctl, c': Ctl, stack: seq<Name>, ch: Byte, d: Doc)
    requires Agrees(c, stack, d) && PlaceOf(c') == PlaceOf(c)
    requires !c.state.Elem0? && !c'.state.Elem0? && !c.state.Etag1? && !c'.state.Etag1? && Fits(c, stack, [])
    ensures !HasExtra(c.state) && HasExtra(c'.state) ==> Fits(c', stack + [[ch]], []) && Agrees(c', stack + [[ch]], d)
    ensures HasExtra(c.state) && !HasExtra(c'.state) ==>
              stack != [] && Fits(c', Popped(stack), []) && Agrees(c', Popped(stack), d)
  {
    assert Popped(stack + [[ch]]) == stack;
    hide PlaceOf, HasExtra;
  }

  /** Which actions bring or take an extra name, with the facts about their states. */
  lemma ExtraStates(c: Ctl, c': Ctl, a: Action)
    requires SuitsStack(c, c', a)
    ensures a.AttrStart? || a.PiStart? || a.AttrValueEnd? || a.PiAbort? || a.PiEnd?
            ==> PlaceOf(c') == PlaceOf(c) && !c.state.Elem0? && !c'.state.Elem0? && !c.state.Etag1? && !c'.state.Etag1?
    ensures a.AttrStart? || a.PiStart? ==> !HasExtra(c.state) && HasExtra(c'.state)
    ensures a.AttrValueEnd? || a.PiAbort? || a.PiEnd? ==> HasExtra(c.state) && !HasExtra(c'.state)
    ensures a.SelfClose? || a.CloseEnd?
            ==> PlaceOf(c).Inside? && !HasExtra(c.state) && !c.state.Elem0?
                && PlaceOf(c').Inside? && !HasExtra(c'.state) && !c'.state.Elem0? && !c'.state.Etag1?
    ensures a.CloseName? ==> PlaceOf(c).Inside? && PlaceOf(c').Inside? && !HasExtra(c.state) && !HasExtra(c'.state)
                             && !c.state.Elem0? && !c'.state.Elem0?
    ensures a.PiNameEnd? ==> Quiet(c, c') && HasExtra(c.state) && !IsAttr(c.state)
    ensures a.ElemStart? || a.ElemName? || a.ElemNameEnd?
            ==> !HasExtra(c.state) && !HasExtra(c'.state) && !c.state.Etag1?
    ensures a.AttrName? || a.PiName?
            ==> HasExtra(c.state) && HasExtra(c'.state) && IsAttr(c'.state) == IsAttr(c.state) && !c.state.Etag1?
    ensures (a.AttrStart? ==> IsAttr(c'.state)) && (a.PiStart? ==> !IsAttr(c'.state))
  {
  }

  /** At most one token makes a step in the tree. */
  predicate Fed(d: Doc, events: seq<Event>, d': Doc) {
    (events == [] && d' == d) || (|events| == 1 && Allows(d, events[0]) && d' == Feed(d, events[0]))
  }

  ghost predicate Follows(d: Doc, r: Result) {
    !IsError(r.ret) ==> Shape(r.p) && exists d' :: Fed(d, r.events, d') && Agrees(r.p.ctl, r.p.stack, d')
  }

  lemma FollowsBy(d: Doc, r: Result, d': Doc)
    requires !IsError(r.ret) ==> Shape(r.p) && Fed(d, r.events, d') && Agrees(r.p.ctl, r.p.stack, d')
    ensures Follows(d, r)
  {
    hide Shape, Agrees, Fed;
  }

  /** Actions that leave the stack alone. */
  lemma QuietFollows(room: nat, p: Parser, c': Ctl, a: Action, ch: Byte, d: Doc)
    requires Shape(p) && Agrees(p.ctl, p.stack, d) && Returns(c') && !OnStack(a) && (a.SyntaxError? || Quiet(p.ctl, c'))
    ensures Follows(d, Do(room, p.(ctl := c'), a, ch))
  {
    var r := Do(room, p.(ctl := c'), a, ch);
    if !a.SyntaxError? {
      assert p.closing == [];
      QuietAgrees(p.ctl, c', p.stack, d);
    }
    hide Fits, Returns, Quiet, Agrees, RefAllowed, RefValue;
    FollowsBy(d, r, d);
  }

  lemma PushFollows(room: nat, p: Parser, c': Ctl, a: Action, ch: Byte, d: Doc)
    requires Shape(p) && Agrees(p.ctl, p.stack, d) && Returns(c') && ch != 0
    requires (a.ElemStart? || a.AttrStart? || a.PiStart?) && SuitsStack(p.ctl, c', a)
    ensures Follows(d, Do(room, p.(ctl := c'), a, ch))
  {
    ExtraStates(p.ctl, c', a);
    GoodPush(p.stack, ch);
    assert p.closing == [];
    if a.ElemStart? {
      StartAgrees(p.ctl, c', p.stack, ch, d);
    } else {
      ExtraAgrees(p.ctl, c', p.stack, ch, d);
    }
    hide Fits, Returns, Agrees, SuitsStack, HasExtra, PlaceOf, GoodNames, Size;
    FollowsBy(d, Do(room, p.(ctl := c'), a, ch), d);
  }

  lemma GrowFollows(room: nat, p: Parser, c': Ctl, a: Action, ch: Byte, d: Doc)
    requires Shape(p) && Agrees(p.ctl, p.stack, d) && Returns(c') && ch != 0
    requires (a.ElemName? || a.AttrName? || a.PiName?) && SuitsStack(p.ctl, c', a)
    ensures p.stack != [] && Follows(d, Do(room, p.(ctl := c'), a, ch))
  {
    assert p.closing == [];
    GrowAgrees(p.ctl, c', p.stack, ch, a, d);
    GoodGrow(p.stack, ch);
    hide Fits, Returns, Agrees, SuitsStack, HasExtra, PlaceOf, GoodNames, Size;
    FollowsBy(d, Do(room, p.(ctl := c'), a, ch), d);
  }

  lemma PopFollows(room: nat, p: Parser, c': Ctl, a: Action, ch: Byte, d: Doc)
    requires Shape(p) && Agrees(p.ctl, p.stack, d) && Returns(c')
    requires (a.AttrValueEnd? || a.PiAbort? || a.PiEnd?) && SuitsStack(p.ctl, c', a)
    ensures p.stack != [] && Follows(d, Do(room, p.(ctl := c'), a, ch))
  {
    ExtraStates(p.ctl, c', a);
    assert p.closing == [];
    ExtraAgrees(p.ctl, c', p.stack, ch, d);
    GoodPop(p.stack);
    hide Fits, Returns, Agrees, SuitsStack, HasExtra, PlaceOf, GoodNames;
    FollowsBy(d, Do(room, p.(ctl := c'), a, ch), d);
  }

  lemma NameEndFollows(room: nat, p: Parser, c': Ctl, ch: Byte, d: Doc)
    requires Shape(p) && Agrees(p.ctl, p.stack, d) && Returns(c') && SuitsStack(p.ctl, c', ElemNameEnd)
    ensures p.stack != [] && Follows(d, Do(room, p.(ctl := c'), ElemNameEnd, ch))
  {
    assert p.closing == [];
    NameEndAgrees(p.ctl, c', p.stack, d);
    hide Fits, Returns, Agrees, SuitsStack, HasExtra, PlaceOf, GoodNames, Feed, Allows;
    FollowsBy(d, Do(room, p.(ctl := c'), ElemNameEnd, ch), Feed(d, Start(Top(p.stack))));
  }

  lemma CloseNameFollows(room: nat, p: Parser, c': Ctl, ch: Byte, d: Doc)
    requires Shape(p) && Agrees(p.ctl, p.stack, d) && Returns(c') && SuitsStack(p.ctl, c', CloseName)
    ensures p.stack != [] && Follows(d, Do(room, p.(ctl := c'), CloseName, ch))
  {
    ExtraStates(p.ctl, c', CloseName);
    var r := Do(room, p.(ctl := c'), CloseName, ch);
    assert p.closing <= Top(p.stack);
    if !IsError(r.ret) { assert r.p.closing <= Top(p.stack); }
    assert Agrees(c', p.stack, d) by { hide PlaceOf, HasExtra; }
    hide Returns, HasExtra, PlaceOf, GoodNames, Agrees;
    FollowsBy(d, r, d);
  }

  /** A close tag that is accepted names the innermost open element. */
  lemma CloseMatches(p: Parser)
    requires Fits(p.ctl, p.stack, p.closing) && p.stack != []
    ensures p.ctl.state.Etag1? && |p.closing| >= |Top(p.stack)| ==> p.closing == Top(p.stack)
  {
    hide PlaceOf, HasExtra;
  }

  lemma EndFollows(room: nat, p: Parser, c': Ctl, a: Action, ch: Byte, d: Doc)
    requires Shape(p) && Agrees(p.ctl, p.stack, d) && Returns(c') && (a.SelfClose? || a.CloseEnd?)
             && SuitsStack(p.ctl, c', a)
    ensures p.stack != [] && Follows(d, Do(room, p.(ctl := c'), a, ch))
  {
    ExtraStates(p.ctl, c', a);
    EndAgrees(p.ctl, c', p.stack, d);
    GoodPop(p.stack);
    var r := Do(room, p.(ctl := c'), a, ch);
    CloseMatches(p);
    assert Returns(c'.(state := Misc3));
    hide Returns, HasExtra, PlaceOf, GoodNames, Agrees, Fits, Feed, Allows, SuitsStack;
    FollowsBy(d, r, Feed(d, End(Top(p.stack))));
  }

  lemma OctetFollows(room: nat, p: Parser, ch: Byte, d: Doc)
    requires Shape(p) && Agrees(p.ctl, p.stack, d) && ch != 0
    ensures Follows(d, Octet(room, p, ch))
  {
    ControlSuits(p.ctl, ch);
    TopIsThere(p, ch);
    var m := Control(p.ctl, ch);
    var a, c' := m.action, m.ctl;
    hide Control, Returns, Agrees, Fits, Do, Follows, SuitsStack, Quiet;
    if !OnStack(a) {
      QuietFollows(room, p, c', a, ch, d);
    } else if a.PiNameEnd? {
      PiNameEndFollows(room, p, c', ch, d);
    } else if a.ElemStart? || a.AttrStart? || a.PiStart? {
      PushFollows(room, p, c', a, ch, d);
    } else if a.ElemName? || a.AttrName? || a.PiName? {
      GrowFollows(room, p, c', a, ch, d);
    } else if a.AttrValueEnd? || a.PiAbort? || a.PiEnd? {
      PopFollows(room, p, c', a, ch, d);
    } else if a.ElemNameEnd? {
      NameEndFollows(room, p, c', ch, d);
    } else if a.CloseName? {
      CloseNameFollows(room, p, c', ch, d);
    } else {
      EndFollows(room, p, c', a, ch, d);
    }
  }

  lemma PiNameEndFollows(room: nat, p: Parser, c': Ctl, ch: Byte, d: Doc)
    requires Shape(p) && Agrees(p.ctl, p.stack, d) && Returns(c') && SuitsStack(p.ctl, c', PiNameEnd)
    ensures p.stack != [] && Follows(d, Do(room, p.(ctl := c'), PiNameEnd, ch))
  {
    ExtraStates(p.ctl, c', PiNameEnd);
    hide SuitsStack, IsXml, Returns, PlaceOf, HasExtra;
    assert p.closing == [] && p.stack != [];
    QuietAgrees(p.ctl, c', p.stack, d);
    hide Fits, Agrees;
    FollowsBy(d, Do(room, p.(ctl := c'), PiNameEnd, ch), d);
  }

  /** One octet: the stack keeps its shape, and the tree grows by the token that is returned. */
  lemma ParseFollows(room: nat, p: Parser, octet: Byte, d: Doc)
    requires Shape(p) && Agrees(p.ctl, p.stack, d)
    ensures Follows(d, Parse(room, p, octet))
  {
    hide Octet, Agrees, Follows;
    if octet == 0 {
      FollowsBy(d, Parse(room, p, octet), d);
    } else if p.ignore == octet {
      FollowsBy(d, Parse(room, p, octet), d);
    } else {
      var p1 := p.(ignore := if octet == 0x0D then 0x0A else 0);
      OctetFollows(room, p1, if octet == 0x0D then 0x0A else octet, d);
    }
  }

  /// Whole runs

  /** Some document agrees with any shape of the stack. */
  lemma SomeDoc(p: Parser) returns (d: Doc)
    requires Shape(p)
    ensures Agrees(p.ctl, p.stack, d)
  {
    var names := Opened(p.ctl, p.stack);
    match PlaceOf(p.ctl) {
      case Prolog => d := EMPTY;
      case Inside =>
        d := Doc(seq(|names|, i requires 0 <= i < |names| => Frame(names[i], [])), []);
        assert Names(d.frames) == names;
      case Epilog => d := Doc([], [Element([], [])]);
    }
  }

  /** Every octet without an error keeps the shape of the stack. */
  lemma KeepsShape(room: nat, p: Parser, octet: Byte)
    requires Shape(p)
    ensures var r := Parse(room, p, octet); !IsError(r.ret) ==> Shape(r.p)
  {
    hide Shape, Agrees, Parse;
    var d := SomeDoc(p);
    ParseFollows(room, p, octet, d);
  }

  /** Octets one after the other, up to the first error. */
  datatype Trace = Trace(ret: Ret, p: Parser, events: seq<Event>)

  function Run(room: nat, p: Parser, s: seq<Byte>): (t: Trace)
    requires Shape(p)
    ensures !IsError(t.ret) ==> Shape(t.p)
    decreases |s|
  {
    if s == [] then Trace(Ok, p, [])
    else
      KeepsShape(room, p, s[0]);
      var r := Parse(room, p, s[0]);
      if IsError(r.ret) then Trace(r.ret, r.p, [])
      else
        var t := Run(room, r.p, s[1..]);
        t.(events := r.events + t.events)
  }

  lemma AgreesIsSplit(c: Ctl, stack: seq<Name>, d: Doc)
    requires Agrees(c, stack, d)
    ensures d.roots == [] || d.frames == []
  {
  }

  /** The tokens of a run without an error are those of a document, of which some elements may still be open. */
  lemma {:induction false} RunFollows(room: nat, p: Parser, s: seq<Byte>, d: Doc) returns (d': Doc)
    requires Shape(p) && Agrees(p.ctl, p.stack, d) && !IsError(Run(room, p, s).ret)
    ensures var t := Run(room, p, s);
            DocTokens(d') == DocTokens(d) + t.events && Agrees(t.p.ctl, t.p.stack, d')
    decreases |s|
  {
    hide Shape, Agrees, Parse, DocTokens, Feed, Allows;
    if s == [] {
      d' := d;
      assert DocTokens(d) + [] == DocTokens(d);
    } else {
      ParseFollows(room, p, s[0], d);
      var r := Parse(room, p, s[0]);
      var d1 :| Fed(d, r.events, d1) && Agrees(r.p.ctl, r.p.stack, d1);
      AgreesIsSplit(p.ctl, p.stack, d);
      if r.events != [] {
        FeedTokens(d, r.events[0]);
        assert r.events == [r.events[0]];
      }
      d' := RunFollows(room, r.p, s[1..], d1);
      var events := Run(room, r.p, s[1..]).events;
      assert DocTokens(d) + r.events + events == DocTokens(d) + (r.events + events);
    }
  }

  lemma StartAgreesEmpty()
    ensures Shape(START) && Agrees(START.ctl, START.stack, EMPTY) && DocTokens(EMPTY) == []
  {
  }

  /** All octets of a document. */
  function Document(room: nat, s: seq<Byte>): (t: Trace)
    ensures !IsError(t.ret) ==> Shape(t.p)
  {
    StartAgreesEmpty();
    Run(room, START, s)
  }

  /** Starts and ends of elements are well nested, and each close tag carries the name of its open tag. */
  lemma WellNested(room: nat, s: seq<Byte>) returns (d: Doc)
    requires !IsError(Document(room, s).ret)
    ensures var t := Document(room, s);
            && t.events == DocTokens(d) && |d.roots| <= 1
            && (PlaceOf(t.p.ctl).Inside? ==> Names(d.frames) == Opened(t.p.ctl, t.p.stack))
  {
    hide Shape, Run, DocTokens, PlaceOf;
    StartAgreesEmpty();
    d := RunFollows(room, START, s, EMPTY);
    var t := Run(room, START, s);
    assert [] + t.events == t.events;
  }

  /** The end of the input is only accepted behind the root. */
  function Eof(p: Parser): Ret {
    if !p.ctl.state.Misc3? then EofError else Ok
  }

  /** A document that is accepted to its end is exactly one element. */
  lemma OneRoot(room: nat, s: seq<Byte>) returns (root: Element)
    requires !IsError(Document(room, s).ret) && Eof(Document(room, s).p) == Ok
    ensures Document(room, s).events == Tokens(root)
  {
    StartAgreesEmpty();
    hide Shape, Run;
    var d := RunFollows(room, START, s, EMPTY);
    var t := Run(room, START, s);
    EpilogState(t.p.ctl);
    hide PlaceOf, Tokens, AllTokens, FrameTokens;
    root := d.roots[0];
    assert d.roots == [root];
    OneTokens(root);
    assert [] + t.events == t.events;
  }

  lemma OneTokens(e: Element)
    ensures DocTokens(Doc([], [e])) == Tokens(e)
  {
    AllTokensSnoc([], e);
    assert [] + [e] == [e];
  }
}
