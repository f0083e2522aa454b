/** The push parser with its real memory: one flat array of octets in which the open names lie one behind the other,
    each followed by a zero, and a buffer of eight octets for references and for the data of a token. */
module Yxml {
  import opened Bytes
  import opened YxmlData
  import opened YxmlSpec
  import opened YxmlTree

  /// The layout of the stack

  function Layout(names: seq<Name>): seq<Byte> {
    if names == [] then [0] else Layout(names[..|names| - 1]) + names[|names| - 1] + [0]
  }

  lemma {:induction false} LayoutLength(names: seq<Name>)
    ensures |Layout(names)| == Size(names) + 1 && Layout(names)[Size(names)] == 0
  {
    if names != [] { LayoutLength(names[..|names| - 1]); }
  }

  lemma LayoutSnoc(names: seq<Name>, n: Name)
    ensures Layout(names + [n]) == Layout(names) + n + [0] && Size(names + [n]) == Size(names) + |n| + 1
  {
    assert (names + [n])[..|names|] == names;
  }

  /** The name on top and the zeros around it. */
  lemma TopInLayout(names: seq<Name>)
    requires names != []
    ensures var l, at := Layout(names), Size(Popped(names));
            && |l| == Size(names) + 1 && Size(names) == at + |Top(names)| + 1
            && l[..at + 1] == Layout(Popped(names)) && l[at] == 0
            && l[at + 1..at + 1 + |Top(names)|] == Top(names) && l[at + 1 + |Top(names)|] == 0
  {
    LayoutLength(Popped(names));
    LayoutSnoc(Popped(names), Top(names));
    assert Popped(names) + [Top(names)] == names;
    hide Layout, Size;
    Slices(Layout(Popped(names)), Top(names));
  }

  lemma Slices(l: seq<Byte>, top: Name)
    requires l != [] && l[|l| - 1] == 0
    ensures var r, at := l + top + [0], |l| - 1;
            r[..at + 1] == l && r[at] == 0 && r[at + 1..at + 1 + |top|] == top && r[at + 1 + |top|] == 0
  {
  }

  lemma TopNonZero(names: seq<Name>)
    requires names != [] && GoodName(Top(names))
    ensures |Layout(names)| == Size(names) + 1
    ensures forall k :: Size(Popped(names)) < k < Size(names) ==> Layout(names)[k] != 0
  {
    TopInLayout(names);
    var l, at, top := Layout(names), Size(Popped(names)), Top(names);
    hide Layout, Size;
    forall k | at < k < |l| - 1
      ensures l[k] != 0
    {
      assert l[at + 1..at + 1 + |top|][k - at - 1] == l[k];
      assert top[k - at - 1] != 0;
    }
  }

  /** Where the name of the innermost element begins. */
  function ElemAt(elements: seq<Name>): nat {
    if elements == [] then 0 else Size(Popped(elements)) + 1
  }

  /** The element names among the names on the stack. */
  function ElementsOf(s: State, names: seq<Name>): seq<Name> {
    if HasExtra(s) && names != [] then Popped(names) else names
  }

  /** `elem` stands in the innermost element's name, behind what a close tag has matched; `pi` at the beginning of
      an instruction's name. */
  predicate Pointers(c: Ctl, names: seq<Name>, closing: Name, elem: nat, pi: nat) {
    && elem == ElemAt(ElementsOf(c.state, names)) + |closing|
    && (HasExtra(c.state) && !IsAttr(c.state) ==> pi == ElemAt(names))
  }

  /// The buffer

  const DATA: nat := REF_MAX + 1

  /** Between the ampersand and the semicolon of a reference. */
  predicate InRef(s: State) {
    s.Attr4? || s.Misc2a?
  }

  /** Only the beginning and the name of a reference lead into one. */
  predicate RefSuits(c: Ctl, m: Move) {
    && (InRef(m.ctl.state) ==> m.action.RefStart? || m.action.SyntaxError? || (m.action.RefName? && InRef(c.state)))
    && (m.action.RefName? || m.action.RefContent? || m.action.RefAttrValue? ==> InRef(c.state))
    && (m.action.RefContent? || m.action.RefAttrValue? ==> !InRef(m.ctl.state))
  }

  lemma RefMovesInside(c: Ctl, ch: Byte)
    requires Returns(c)
    ensures IsAttr(c.state) || c.state.Cd0? || c.state.Cd1? || c.state.Cd2? || c.state.Misc2? || c.state.Misc2a?
            || c.state.Le2? || c.state.Lee2? || c.state.Literal? || IsComment(c.state)
            ==> RefSuits(c, Control(c, ch))
  {
    hide IsName, IsNameStart, IsSpace, IsRef, IsQuote, IsNum, IsAlpha, IsEncName, Is, Text;
  }

  lemma RefMovesTags(c: Ctl, ch: Byte)
    requires Returns(c)
    ensures c.state.Dt0? || c.state.Dt1? || c.state.Dt2? || c.state.Dt3? || c.state.Dt4? || c.state.Elem0?
            || c.state.Elem1? || c.state.Elem2? || c.state.Elem3? || c.state.Etag0? || c.state.Etag1? || c.state.Etag2?
            ==> RefSuits(c, Control(c, ch))
  {
    hide IsName, IsNameStart, IsSpace, IsRef, IsQuote, IsNum, IsAlpha, IsEncName, Is, Text;
  }

  lemma RefMovesOutside(c: Ctl, ch: Byte)
    requires Returns(c)
    ensures c.state.Init? || c.state.Le0? || c.state.Le1? || c.state.Lee1? || c.state.Leq0? || c.state.Misc0?
            || c.state.Misc1? || c.state.Misc3? || c.state.Le3? || c.state.Pi0? || IsPi(c.state) || IsXmlName(c.state)
            ==> RefSuits(c, Control(c, ch))
  {
    hide IsName, IsNameStart, IsSpace, IsRef, IsQuote, IsNum, IsAlpha, IsEncName, Is, Text;
  }

  lemma RefMovesDecl(c: Ctl, ch: Byte)
    requires Returns(c)
    ensures c.state.Enc0? || c.state.Enc1? || c.state.Enc2? || c.state.Enc3? || c.state.Std0? || c.state.Std1?
            || c.state.Std2? || c.state.Std3? || c.state.Ver0? || c.state.Ver1? || c.state.Ver2? || c.state.Ver3?
            ==> RefSuits(c, Control(c, ch))
  {
    hide IsName, IsNameStart, IsSpace, IsRef, IsQuote, IsNum, IsAlpha, IsEncName, Is, Text;
  }

  lemma RefMovesDeclEnd(c: Ctl, ch: Byte)
    requires Returns(c)
    ensures c.state.XmlDecl3? || c.state.XmlDecl4? || c.state.XmlDecl5? || c.state.XmlDecl6? || c.state.XmlDecl7?
            || c.state.XmlDecl8? || c.state.XmlDecl9?
            ==> RefSuits(c, Control(c, ch))
  {
    hide IsName, IsNameStart, IsSpace, IsRef, IsQuote, IsNum, IsAlpha, IsEncName, Is, Text;
  }

  lemma RefMoves(c: Ctl, ch: Byte)
    requires Returns(c)
    ensures RefSuits(c, Control(c, ch))
  {
    hide Control, RefSuits, Returns;
    RefMovesInside(c, ch);
    RefMovesTags(c, ch);
    RefMovesOutside(c, ch);
    RefMovesDecl(c, ch);
    RefMovesDeclEnd(c, ch);
  }

  function Nothings(n: nat): (s: seq<Byte>)
    ensures |s| == n
  {
    seq(n, _ => 0)
  }

  predicate IsHex(c: Byte) {
    IsNum(c) || 97 <= c <= 102 || 65 <= c <= 70
  }

  function HexDigit(c: Byte): nat
    requires IsHex(c)
  {
    if IsNum(c) then c - 48 else if c >= 97 then c - 87 else c - 55
  }

  /** The name of an entity and zeros up to five octets. */
  function Five(s: string): seq<Byte>
    requires |s| <= 5 && forall i :: 0 <= i < |s| ==> s[i] as int < 256
  {
    Text(s) + Nothings(5 - |s|)
  }

  class Parser {
    const stack: array<Byte>
    const data: array<Byte>
    var reflen: nat
    var stacklen: nat
    var elem: nat
    var pi: nat
    var state: State
    var nextstate: State
    var quote: Byte
    var literal: seq<Byte>
    var ignore: Byte

    ghost var reference: seq<Byte>
    ghost var names: seq<Name>
    ghost var closing: Name

    ghost function Abs(): YxmlSpec.Parser
      reads this
    {
      YxmlSpec.Parser(Ctl(state, nextstate, quote, literal), names, closing, reference, ignore)
    }

    /** The stack is the layout of the open names and ends before the array does. */
    ghost predicate StackOk()
      reads this, stack
    {
      stacklen == Size(names) < stack.Length && stack[..stacklen + 1] == Layout(names)
    }

    /** The buffer holds the name of the reference and zeros behind it. */
    ghost predicate Refers()
      reads this, data
    {
      && data.Length == DATA && reflen == |reference| <= REF_MAX && data[..] == reference + Nothings(DATA - reflen)
      && 0 !in reference
    }

    /** The client finds `d` in the buffer, with a zero behind it. */
    ghost predicate Shows(d: seq<Byte>)
      reads this, data
    {
      |d| < data.Length && data[..|d|] == d && data[|d|] == 0
    }

    ghost predicate BufferOk(s: State)
      reads this, stack, data
    {
      data.Length == DATA && data != stack && (InRef(s) ==> Refers())
    }

    ghost predicate Valid()
      reads this, stack, data
    {
      StackOk() && Shape(Abs()) && Pointers(Abs().ctl, names, closing, elem, pi) && BufferOk(state)
    }

    constructor (stack: array<Byte>)
      requires stack.Length > 0
      modifies stack
      ensures Valid() && Abs() == START && this.stack == stack && fresh(data)
    {
      this.stack := stack;
      data := new Byte[DATA](_ => 0);
      stacklen, reflen, elem, pi, state, nextstate, quote, literal, ignore := 0, 0, 0, 0, Init, Init, 0, [], 0;
      names, closing, reference := [], [], [];
      new;
      stack[0] := 0;
      StartAgreesEmpty();
    }

    /// Names on the stack

    /** A name begins: a zero and its first octet. */
    method PushStack(ch: Byte) returns (ret: Ret, at: nat)
      requires StackOk()
      modifies this`stacklen, this`names, stack
      ensures StackOk()
      ensures Size(old(names)) + 2 >= stack.Length ==> ret == StackError && names == old(names)
      ensures Size(old(names)) + 2 < stack.Length ==> ret == Ok && names == old(names) + [[ch]] && at == ElemAt(names)
    {
      if stacklen + 2 >= stack.Length { return StackError, 0; }
      LayoutSnoc(names, [ch]);
      ghost var before := stack[..stacklen + 1];
      stacklen := stacklen + 1;
      at := stacklen;
      stack[stacklen] := ch;
      stacklen := stacklen + 1;
      stack[stacklen] := 0;
      assert stack[..stacklen + 1] == before + [ch] + [0];
      assert Popped(names + [[ch]]) == names;
      names := names + [[ch]];
      ret := Ok;
    }

    /** A name goes on. */
    method PushStackOctet(ch: Byte) returns (ret: Ret)
      requires StackOk() && names != []
      modifies this`stacklen, this`names, stack
      ensures StackOk()
      ensures Size(old(names)) + 1 >= stack.Length ==> ret == StackError && names == old(names)
      ensures Size(old(names)) + 1 < stack.Length
              ==> ret == Ok && names == Popped(old(names)) + [Top(old(names)) + [ch]]
                  && ElemAt(names) == ElemAt(old(names))
    {
      if stacklen + 1 >= stack.Length { return StackError; }
      ghost var init, top := Popped(names), Top(names);
      TopInLayout(names);
      LayoutSnoc(init, top + [ch]);
      assert init + [top] == names && Popped(init + [top + [ch]]) == init;
      ghost var before := stack[..stacklen];
      assert before == Layout(init) + top;
      stack[stacklen] := ch;
      stacklen := stacklen + 1;
      stack[stacklen] := 0;
      assert stack[..stacklen + 1] == before + [ch] + [0];
      assert before + [ch] + [0] == Layout(init) + (top + [ch]) + [0];
      names := init + [top + [ch]];
      ret := Ok;
    }

    /** Drops the name on top, down to the zero before it. */
    method PopStack()
      requires StackOk() && names != [] && GoodName(Top(names))
      modifies this`stacklen, this`names
      ensures StackOk() && names == Popped(old(names))
    {
      ghost var init, top, l := Popped(names), Top(names), stack[..stacklen + 1];
      TopInLayout(names);
      TopNonZero(names);
      hide Layout;
      stacklen := stacklen - 1;
      while stack[stacklen] != 0
        invariant Size(init) <= stacklen < |l| - 1 < stack.Length && stack[..|l|] == l && names == old(names)
        decreases stacklen
      {
        assert l[stacklen] == stack[stacklen];
        stacklen := stacklen - 1;
      }
      assert l[stacklen] == stack[stacklen];
      assert stack[..stacklen + 1] == l[..stacklen + 1];
      names := init;
    }

    /** Looks for the beginning of the name that ends at `stacklen`. */
    method FindTop() returns (at: nat)
      requires StackOk() && names != [] && GoodName(Top(names))
      ensures at == ElemAt(names)
    {
      ghost var init, top, l := Popped(names), Top(names), stack[..stacklen + 1];
      TopInLayout(names);
      TopNonZero(names);
      hide Layout;
      at := stacklen - 1;
      while stack[at - 1] != 0
        invariant Size(init) + 1 <= at <= stacklen - 1
        decreases at
      {
        assert l[at - 1] == stack[at - 1];
        at := at - 1;
      }
      assert l[at - 1] == stack[at - 1];
    }

    /// Actions

    /** Between the move of the control and its action: stack and buffer still belong to the control state `c`. */
    ghost predicate Ready(c: Ctl, a: Action)
      reads this, stack, data
    {
      && StackOk() && GoodNames(names) && Fits(c, names, closing) && Pointers(c, names, closing, elem, pi)
      && Suits(c, Move(Abs().ctl, a)) && (NeedsTop(a) ==> names != [])
      && BufferOk(c.state) && RefSuits(c, Move(Abs().ctl, a))
    }

    ghost predicate Finished(r: Result, ret: Ret)
      reads this, stack, data
    {
      && ret == r.ret
      && (!IsError(ret)
          ==> StackOk() && Abs() == r.p && Pointers(Abs().ctl, names, closing, elem, pi) && BufferOk(state))
    }

    method ActElemStart(ch: Byte, ghost c: Ctl) returns (ret: Ret)
      requires Ready(c, ElemStart)
      modifies this`stacklen, this`elem, this`names, stack
      ensures Finished(Do(stack.Length, old(Abs()), ElemStart, ch), ret)
    {
      hide HasExtra, IsAttr, IsPi, IsXmlName, PlaceOf, Returns, Quiet, SuitsStack, Suits, OnStack, Fits, Pointers,
           Layout, Do, GoodNames, ElemAt, Size;
      PushPointers(c, Abs().ctl, ElemStart, names, closing, ch, elem, pi);
      DoPush(stack.Length, Abs(), ElemStart, ch);
      var at;
      ret, at := PushStack(ch);
      if ret.Ok? { elem := at; }
    }

    method ActAttrStart(ch: Byte, ghost c: Ctl) returns (ret: Ret)
      requires Ready(c, AttrStart)
      modifies this`stacklen, this`names, stack
      ensures Finished(Do(stack.Length, old(Abs()), AttrStart, ch), ret)
    {
      hide HasExtra, IsAttr, IsPi, IsXmlName, PlaceOf, Returns, Quiet, SuitsStack, Suits, OnStack, Fits, Pointers,
           Layout, Do, GoodNames, ElemAt, Size;
      PushPointers(c, Abs().ctl, AttrStart, names, closing, ch, elem, pi);
      DoPush(stack.Length, Abs(), AttrStart, ch);
      var at;
      ret, at := PushStack(ch);
    }

    method ActPiStart(ch: Byte, ghost c: Ctl) returns (ret: Ret)
      requires Ready(c, PiStart)
      modifies this`stacklen, this`pi, this`names, stack
      ensures Finished(Do(stack.Length, old(Abs()), PiStart, ch), ret)
    {
      hide HasExtra, IsAttr, IsPi, IsXmlName, PlaceOf, Returns, Quiet, SuitsStack, Suits, OnStack, Fits, Pointers,
           Layout, Do, GoodNames, ElemAt, Size;
      PushPointers(c, Abs().ctl, PiStart, names, closing, ch, elem, pi);
      DoPush(stack.Length, Abs(), PiStart, ch);
      var at;
      ret, at := PushStack(ch);
      if ret.Ok? { pi := at; }
    }

    method ActGrow(a: Action, ch: Byte, ghost c: Ctl) returns (ret: Ret)
      requires Ready(c, a) && (a.ElemName? || a.AttrName? || a.PiName?)
      modifies this`stacklen, this`names, stack
      ensures Finished(Do(stack.Length, old(Abs()), a, ch), ret)
    {
      hide HasExtra, IsAttr, IsPi, IsXmlName, PlaceOf, Returns, Quiet, SuitsStack, Suits, OnStack, Fits, Pointers,
           Layout, Do, GoodNames, ElemAt, Size, Popped, Top;
      GrowPointers(c, Abs().ctl, a, names, closing, ch, elem, pi);
      DoGrow(stack.Length, Abs(), a, ch);
      ret := PushStackOctet(ch);
    }

    /** The name of an attribute or instruction is dropped. */
    method ActPop(a: Action, ch: Byte, ghost c: Ctl) returns (ret: Ret)
      requires Ready(c, a) && (a.AttrValueEnd? || a.PiAbort? || a.PiEnd?)
      modifies this`stacklen, this`pi, this`names
      ensures Finished(Do(stack.Length, old(Abs()), a, ch), ret)
    {
      hide HasExtra, IsAttr, IsPi, IsXmlName, PlaceOf, Returns, Quiet, SuitsStack, Suits, OnStack, Fits, Pointers,
           Layout, Do, GoodNames, ElemAt, Size;
      PopPointers(c, Abs().ctl, a, names, closing, elem, pi);
      DoPop(stack.Length, Abs(), a, ch);
      TopIsGood(names);
      PopStack();
      if a.PiEnd? { pi := 0; }
      ret := PopToken(a);
    }

    /** Drops the innermost element and finds the one around it. */
    method SelfClose() returns (ret: Ret)
      requires StackOk() && names != [] && GoodNames(names)
      modifies this`stacklen, this`elem, this`state, this`names, this`closing
      ensures StackOk() && ret == ElemEnds && names == Popped(old(names)) && closing == [] && elem == ElemAt(names)
      ensures if names == [] then state.Misc3? else state == old(state)
    {
      assert GoodName(Top(names));
      GoodPop(names);
      PopStack();
      SizeZero(names);
      hide Layout, Size;
      closing := [];
      if stacklen != 0 {
        assert GoodName(Top(names));
        elem := FindTop();
      } else {
        elem := 0;
        state := Misc3;
      }
      ret := ElemEnds;
    }

    method ActSelfClose(ch: Byte, ghost c: Ctl) returns (ret: Ret)
      requires Ready(c, Action.SelfClose)
      modifies this`stacklen, this`elem, this`state, this`names, this`closing
      ensures Finished(Do(stack.Length, old(Abs()), Action.SelfClose, ch), ret)
    {
      hide HasExtra, IsAttr, IsPi, IsXmlName, PlaceOf, Returns, Quiet, SuitsStack, Suits, OnStack, Fits, Pointers,
           Layout, Do, GoodNames, ElemAt, Size;
      EndPointers(c, Abs().ctl, Action.SelfClose, Popped(names), pi);
      DoClose(stack.Length, Abs(), ch);
      ret := SelfClose();
    }

    /** The next octet of a close tag's name. */
    method ActCloseName(ch: Byte, ghost c: Ctl) returns (ret: Ret)
      requires Ready(c, CloseName) && ch != 0
      modifies this`elem, this`closing
      ensures Finished(Do(stack.Length, old(Abs()), CloseName, ch), ret)
    {
      hide HasExtra, IsAttr, IsPi, IsXmlName, PlaceOf, Returns, Quiet, SuitsStack, Suits, OnStack, Fits, Pointers,
           Layout, Do, GoodNames, ElemAt, Size;
      ClosePointers(c, Abs().ctl, names, closing, elem, pi);
      TopIsGood(names);
      ElemOctet(names, closing, stack[..stacklen + 1]);
      DoClose(stack.Length, Abs(), ch);
      if stack[elem] != ch { return CloseError; }
      elem := elem + 1;
      closing := closing + [ch];
      ret := Ok;
    }

    method ActCloseEnd(ch: Byte, ghost c: Ctl) returns (ret: Ret)
      requires Ready(c, CloseEnd)
      modifies this`stacklen, this`elem, this`state, this`names, this`closing
      ensures Finished(Do(stack.Length, old(Abs()), CloseEnd, ch), ret)
    {
      hide HasExtra, IsAttr, IsPi, IsXmlName, PlaceOf, Returns, Quiet, SuitsStack, Suits, OnStack, Fits, Pointers,
           Layout, Do, GoodNames, ElemAt, Size;
      EndPointers(c, Abs().ctl, CloseEnd, Popped(names), pi);
      CloseEndPointers(c, Abs().ctl, names, closing, elem, pi);
      TopIsGood(names);
      ElemOctet(names, closing, stack[..stacklen + 1]);
      DoClose(stack.Length, Abs(), ch);
      if stack[elem] != 0 { return CloseError; }
      ret := SelfClose();
    }

    /** The name of an instruction is complete; it must not be xml. */
    method ActPiNameEnd(ch: Byte, ghost c: Ctl) returns (ret: Ret)
      requires Ready(c, PiNameEnd)
      ensures Finished(Do(stack.Length, Abs(), PiNameEnd, ch), ret)
    {
      hide HasExtra, IsAttr, IsPi, IsXmlName, PlaceOf, Returns, Quiet, SuitsStack, Suits, OnStack, Fits, Pointers,
           Layout, GoodNames, ElemAt, Size;
      QuietPointers(c, Abs().ctl, PiNameEnd, names, closing, elem, pi);
      TopIsGood(names);
      PiOctets(names, stack[..stacklen + 1]);
      ghost var l := stack[..stacklen + 1];
      assert forall k :: 0 <= k < |l| ==> l[k] == stack[k];
      if Is(Lower(stack[pi]), 'x') && Is(Lower(stack[pi + 1]), 'm') && Is(Lower(stack[pi + 2]), 'l')
        && stack[pi + 3] == 0 {
        return SynError;
      }
      ret := PiStarts;
    }

    /// References and data

    /** Actions that touch neither the stack nor the buffer. */
    method ActQuiet(a: Action, ch: Byte, ghost c: Ctl) returns (ret: Ret)
      requires Ready(c, a) && (a.Nothing? || a.SyntaxError? || a.AttrNameEnd?)
      ensures Finished(Do(stack.Length, Abs(), a, ch), ret)
    {
      hide HasExtra, IsAttr, IsPi, IsXmlName, PlaceOf, Returns, Quiet, SuitsStack, Suits, Fits, Pointers, Layout,
           GoodNames;
      hide ElemAt, Size;
      if a.SyntaxError? { return SynError; }
      QuietPointers(c, Abs().ctl, a, names, closing, elem, pi);
      ret := if a.AttrNameEnd? then AttrStarts else Ok;
    }

    /** The octet and what was held back before it. */
    method PutData(a: Action, ch: Byte)
      requires data.Length == DATA
      requires a.Content? || a.Content1? || a.Content2? || a.AttrValue? || a.PiContent? || a.PiContent1?
      modifies data
      ensures Shows(Data(a, reference, ch))
    {
      var n := 0;
      if a.Content1? || a.Content2? {
        data[0], n := BRACKET, 1;
        if a.Content2? { data[1], n := BRACKET, 2; }
      } else if a.PiContent1? {
        data[0], n := QUESTION, 1;
      }
      data[n] := if a.AttrValue? && (ch == 0x09 || ch == 0x0A) then 0x20 else ch;
      data[n + 1] := 0;
    }

    method ActData(a: Action, ch: Byte, ghost c: Ctl) returns (ret: Ret)
      requires Ready(c, a) && (a.Content? || a.Content1? || a.Content2? || a.AttrValue? || a.PiContent?
                               || a.PiContent1?)
      modifies data
      ensures Finished(Do(stack.Length, old(Abs()), a, ch), ret) && Shows(Data(a, reference, ch))
    {
      hide HasExtra, IsAttr, IsPi, IsXmlName, PlaceOf, Returns, Quiet, SuitsStack, Suits, Fits, Pointers, Layout,
           GoodNames;
      hide ElemAt, Size, Data, Shows;
      QuietPointers(c, Abs().ctl, a, names, closing, elem, pi);
      PutData(a, ch);
      ret := if a.AttrValue? then AttrValueToken else if a.PiContent?
        || a.PiContent1? then PiContentToken else ContentToken;
    }

    method ActRefStart(ch: Byte, ghost c: Ctl) returns (ret: Ret)
      requires Ready(c, RefStart)
      modifies this`reflen, this`reference, data
      ensures Finished(Do(stack.Length, old(Abs()), RefStart, ch), ret)
    {
      hide HasExtra, IsAttr, IsPi, IsXmlName, PlaceOf, Returns, Quiet, SuitsStack, Suits, Fits, Pointers, Layout,
           GoodNames;
      hide ElemAt, Size;
      QuietPointers(c, Abs().ctl, RefStart, names, closing, elem, pi);
      for i := 0 to data.Length
        invariant forall k :: 0 <= k < i ==> data[k] == 0
      {
        data[i] := 0;
      }
      reflen, reference := 0, [];
      ret := Ok;
    }

    /** The next octet of a reference's name; the last place of the buffer stays zero. */
    method ActRefName(ch: Byte, ghost c: Ctl) returns (ret: Ret)
      requires Ready(c, RefName) && ch != 0
      modifies this`reflen, this`reference, data
      ensures Finished(Do(stack.Length, old(Abs()), RefName, ch), ret)
    {
      hide HasExtra, IsAttr, IsPi, IsXmlName, PlaceOf, Returns, Quiet, SuitsStack, Suits, Fits, Pointers, Layout,
           GoodNames;
      hide ElemAt, Size;
      QuietPointers(c, Abs().ctl, RefName, names, closing, elem, pi);
      if reflen >= data.Length - 1 { return RefError; }
      ghost var before := data[..];
      data[reflen] := ch;
      assert data[..] == before[reflen := ch];
      reflen, reference := reflen + 1, reference + [ch];
      ret := Ok;
    }

    /** The number behind the hash sign, up to the first octet that is no digit. */
    method ReadHex() returns (ch: nat)
      requires Refers() && |reference| >= 2 && Is(reference[0], '#') && Is(reference[1], 'x')
      ensures ch == HexValue(reference[2..], 0)
    {
      ch := 0;
      var r := 2;
      while IsHex(data[r])
        invariant 2 <= r <= |reference| && HexValue(reference[r..], ch) == HexValue(reference[2..], 0)
        decreases DATA - r
      {
        BufferAt(r);
        HexStep(reference[r..], ch);
        assert reference[r..][1..] == reference[r + 1..];
        ch := ch * 16 + HexDigit(data[r]);
        r := r + 1;
      }
      BufferAt(r);
      HexStep(reference[r..], ch);
      if data[r] != 0 { ch := 0; }
    }

    method ReadDecimal() returns (ch: nat)
      requires Refers() && |reference| >= 1 && Is(reference[0], '#')
      ensures ch == DecValue(reference[1..], 0)
    {
      ch := 0;
      var r := 1;
      while IsNum(data[r])
        invariant 1 <= r <= |reference| && DecValue(reference[r..], ch) == DecValue(reference[1..], 0)
        decreases DATA - r
      {
        BufferAt(r);
        assert reference[r..][1..] == reference[r + 1..];
        ch := ch * 10 + (data[r] - 48);
        r := r + 1;
      }
      BufferAt(r);
      if data[r] != 0 { ch := 0; }
    }

    /** The buffer ends the reference with a zero. */
    lemma BufferAt(r: nat)
      requires Refers() && r <= |reference|
      ensures r < DATA && (data[r] == 0 <==> r == |reference|) && (r < |reference| ==> data[r] == reference[r])
    {
      assert data[..][r] == data[r];
    }

    /** The code point of the reference in the buffer. */
    method ReadReference() returns (ch: nat)
      requires Refers()
      ensures ch == RefValue(reference)
    {
      BufferAt(0);
      if Is(data[0], '#') {
        BufferAt(1);
        if Is(data[1], 'x') {
          ch := ReadHex();
        } else {
          ch := ReadDecimal();
        }
      } else {
        EntityNames(reference, data[..5]);
        ch := if data[..5] == Five("lt") then '<' as int
              else if data[..5] == Five("gt") then '>' as int
              else if data[..5] == Five("amp") then '&' as int
              else if data[..5] == Five("apos") then '\'' as int
              else if data[..5] == Five("quot") then '"' as int
              else 0;
      }
    }

    method SetUtf8(ch: nat)
      requires data.Length == DATA && ch <= 0x10FFFF
      modifies data
      ensures Shows(Utf8(ch))
    {
      var n := 1;
      if ch <= 0x7F {
        data[0] := ch;
      } else if ch <= 0x7FF {
        data[0], data[1], n := 0xC0 + ch / 64, 0x80 + ch % 64, 2;
      } else if ch <= 0xFFFF {
        data[0], data[1], data[2], n := 0xE0 + ch / 4096, 0x80 + ch / 64 % 64, 0x80 + ch % 64, 3;
      } else {
        data[0], data[1], data[2], data[3], n := 0xF0 + ch / 262144, 0x80 + ch / 4096 % 64, 0x80 + ch / 64 % 64, 0x80
          + ch % 64, 4;
      }
      data[n] := 0;
    }

    /** The reference in the buffer is replaced by the character it stands for. */
    method ActRefEnd(a: Action, ch: Byte, ghost c: Ctl) returns (ret: Ret)
      requires Ready(c, a) && (a.RefContent? || a.RefAttrValue?)
      modifies data
      ensures Finished(Do(stack.Length, old(Abs()), a, ch), ret) && (!IsError(ret) ==> Shows(Data(a, reference, ch)))
    {
      hide HasExtra, IsAttr, IsPi, IsXmlName, PlaceOf, Returns, Quiet, SuitsStack, Suits, Fits, Pointers, Layout,
           GoodNames;
      hide ElemAt, Size, RefValue, Utf8;
      QuietPointers(c, Abs().ctl, a, names, closing, elem, pi);
      var value := ReadReference();
      if !RefAllowed(value) { return RefError; }
      SetUtf8(value);
      ret := if a.RefContent? then ContentToken else AttrValueToken;
    }

    method Act(a: Action, ch: Byte, ghost c: Ctl) returns (ret: Ret)
      requires Ready(c, a) && ch != 0
      modifies this`stacklen, this`reflen, this`elem, this`pi, this`state, this`reference, this`names, this`closing,
      stack, data
      ensures Finished(Do(stack.Length, old(Abs()), a, ch), ret) && (IsData(ret) ==> Shows(Data(a, old(reference), ch)))
    {
      NoData(a, old(reference), ch);
      DoData(stack.Length, Abs(), a, ch);
      hide Ready, Do, Shows, Data, StackOk, Pointers, BufferOk, Abs;
      match a {
        case ElemStart => ret := ActElemStart(ch, c);
        case AttrStart => ret := ActAttrStart(ch, c);
        case PiStart => ret := ActPiStart(ch, c);
        case ElemName => ret := ActGrow(a, ch, c);
        case AttrName => ret := ActGrow(a, ch, c);
        case PiName => ret := ActGrow(a, ch, c);
        case AttrValueEnd => ret := ActPop(a, ch, c);
        case PiAbort => ret := ActPop(a, ch, c);
        case PiEnd => ret := ActPop(a, ch, c);
        case SelfClose => ret := ActSelfClose(ch, c);
        case CloseName => ret := ActCloseName(ch, c);
        case CloseEnd => ret := ActCloseEnd(ch, c);
        case PiNameEnd => ret := ActPiNameEnd(ch, c);
        case ElemNameEnd => ret := ActNameEnd(ch, c);
        case Nothing => ret := ActQuiet(a, ch, c);
        case SyntaxError => ret := ActQuiet(a, ch, c);
        case AttrNameEnd => ret := ActQuiet(a, ch, c);
        case RefStart => ret := ActRefStart(ch, c);
        case RefName => ret := ActRefName(ch, c);
        case RefContent => ret := ActRefEnd(a, ch, c);
        case RefAttrValue => ret := ActRefEnd(a, ch, c);
        case _ => ret := ActData(a, ch, c);
      }
    }

    method ActNameEnd(ch: Byte, ghost c: Ctl) returns (ret: Ret)
      requires Ready(c, ElemNameEnd)
      ensures Finished(Do(stack.Length, Abs(), ElemNameEnd, ch), ret)
    {
      hide HasExtra, IsAttr, IsPi, IsXmlName, PlaceOf, Returns, Quiet, SuitsStack, Suits, OnStack, Fits, Pointers,
           Layout, GoodNames, ElemAt, Size;
      NameEndPointers(c, Abs().ctl, names, closing, elem, pi);
      ret := ElemStarts;
    }

    /** One octet of the document. */
    method Parse(octet: Byte) returns (ret: Ret)
      requires Valid()
      modifies this, stack, data
      ensures var r := YxmlSpec.Parse(stack.Length, old(Abs()), octet);
              ret == r.ret && (!IsError(ret) ==> Valid() && Abs() == r.p)
      ensures IsData(ret) ==> Shows(DataOf(old(Abs()), octet))
    {
      hide Control, Do, Suits, Layout, Fits, Returns, GoodNames, Size, Data, RefSuits;
      KeepsShape(stack.Length, Abs(), octet);
      if octet == 0 { return SynError; }
      if ignore == octet {
        ignore := 0;
        return Ok;
      }
      ignore := if octet == 0x0D then 0x0A else 0;
      var ch := if octet == 0x0D then 0x0A else octet;
      ghost var c := Abs().ctl;
      ControlSuits(c, ch);
      RefMoves(c, ch);
      TopIsThere(Abs(), ch);
      var m := Control(Ctl(state, nextstate, quote, literal), ch);
      assert Move(m.ctl, m.action) == m;
      hide Shape, Pointers;
      state, nextstate, quote, literal := m.ctl.state, m.ctl.next, m.ctl.quote, m.ctl.literal;
      ret := Act(m.action, ch, c);
    }

    /** The end of the document. */
    method EndOfInput() returns (ret: Ret)
      requires Valid()
      ensures ret == Eof(Abs())
      ensures ret == Ok ==> names == [] && stacklen == 0
    {
      if state.Misc3? { EpilogState(Abs().ctl); }
      ret := if !state.Misc3? then EofError else Ok;
    }
  }

  predicate HasData(a: Action) {
    || a.Content? || a.Content1? || a.Content2? || a.AttrValue? || a.PiContent? || a.PiContent1?
    || a.RefContent? || a.RefAttrValue?
  }

  lemma NoData(a: Action, reference: seq<Byte>, ch: Byte)
    ensures !HasData(a) ==> Data(a, reference, ch) == []
  {
  }

  lemma DoData(room: nat, p: YxmlSpec.Parser, a: Action, ch: Byte)
    requires NeedsTop(a) ==> p.stack != []
    ensures IsData(Do(room, p, a, ch).ret) ==> HasData(a)
  {
  }

  lemma HexStep(r: seq<Byte>, acc: nat)
    ensures HexValue(r, acc) == if r == [] then acc else if IsHex(r[0])
            then HexValue(r[1..], acc * 16 + HexDigit(r[0])) else 0
  {
  }

  /** Comparing five octets of the buffer is comparing names, since none has more than four. */
  lemma EntityNames(r: seq<Byte>, five: seq<Byte>)
    requires |r| <= REF_MAX && 0 !in r && five == (r + Nothings(DATA - |r|))[..5]
    ensures five == Five("lt") <==> r == Text("lt")
    ensures five == Five("gt") <==> r == Text("gt")
    ensures five == Five("amp") <==> r == Text("amp")
    ensures five == Five("apos") <==> r == Text("apos")
    ensures five == Five("quot") <==> r == Text("quot")
  {
    EntityName(r, five, "lt");
    EntityName(r, five, "gt");
    EntityName(r, five, "amp");
    EntityName(r, five, "apos");
    EntityName(r, five, "quot");
  }

  lemma FiveAt(r: seq<Byte>, five: seq<Byte>, i: nat)
    requires |r| <= REF_MAX && 0 !in r && five == (r + Nothings(DATA - |r|))[..5]
    ensures i < 5 ==> if i < |r| then five[i] == r[i] != 0 else five[i] == 0
  {
  }

  lemma EntityName(r: seq<Byte>, five: seq<Byte>, s: string)
    requires |r| <= REF_MAX && 0 !in r && five == (r + Nothings(DATA - |r|))[..5]
    requires |s| <= 4 && forall i :: 0 <= i < |s| ==> 0 < s[i] as int < 256
    ensures five == Five(s) <==> r == Text(s)
  {
    forall i | 0 <= i < 5
      ensures if i < |r| then five[i] == r[i] != 0 else five[i] == 0
    {
      FiveAt(r, five, i);
    }
    var t := Five(s);
    assert forall i :: 0 <= i < 5 ==> if i < |s| then t[i] == Text(s)[i] != 0 else t[i] == 0;
    if five == t {
      assert |r| == |s| by {
        assert five[|s|] == 0;
        assert five[|r|] == 0;
      }
      assert r == five[..|r|] && Text(s) == t[..|s|];
    }
  }

  lemma QuietPointers(c: Ctl, c': Ctl, a: Action, names: seq<Name>, closing: Name, elem: nat, pi: nat)
    requires Suits(c, Move(c', a)) && !a.SyntaxError? && (!OnStack(a) || a.PiNameEnd?)
    requires Fits(c, names, closing) && Pointers(c, names, closing, elem, pi)
    ensures Pointers(c', names, closing, elem, pi)
    ensures a.PiNameEnd? ==> names != [] && pi == ElemAt(names)
  {
    if a.PiNameEnd? { ExtraStates(c, c', a); }
    hide HasExtra, IsAttr, PlaceOf, SuitsStack, Returns, ElemAt, Size;
  }

  lemma NameEndPointers(c: Ctl, c': Ctl, names: seq<Name>, closing: Name, elem: nat, pi: nat)
    requires Suits(c, Move(c', ElemNameEnd)) && Fits(c, names, closing) && Pointers(c, names, closing, elem, pi)
    ensures Pointers(c', names, closing, elem, pi)
  {
    ExtraStates(c, c', ElemNameEnd);
    hide HasExtra, IsAttr, PlaceOf, SuitsStack, Returns, Quiet, ElemAt, Size;
  }

  lemma TopIsGood(names: seq<Name>)
    requires GoodNames(names) && names != []
    ensures GoodName(Top(names))
  {
  }

  /** The octets of the top name and the zero behind it. */
  lemma PiOctets(names: seq<Name>, l: seq<Byte>)
    requires names != [] && GoodName(Top(names)) && l == Layout(names)
    ensures var at, top := ElemAt(names), Top(names);
            && at + |top| < |l| && |top| >= 1 && l[at + |top|] == 0
            && (forall i :: 0 <= i < |top| ==> l[at + i] == top[i])
            && (|top| >= 1 ==> l[at] == top[0]) && (|top| >= 2 ==> l[at + 1] == top[1])
            && (|top| >= 3 ==> l[at + 2] == top[2])
            && (|top| >= 4 ==> l[at + 3] == top[3] != 0)
  {
    TopInLayout(names);
    hide Layout, Size;
    var at, top := ElemAt(names), Top(names);
    forall i | 0 <= i < |top|
      ensures l[at + i] == top[i]
    {
      assert l[at..at + |top|][i] == l[at + i];
    }
  }

  function PopToken(a: Action): Ret {
    if a.AttrValueEnd? then AttrEnds else if a.PiEnd? then PiEnds else Ok
  }

  lemma DoPop(room: nat, p: YxmlSpec.Parser, a: Action, ch: Byte)
    requires (a.AttrValueEnd? || a.PiAbort? || a.PiEnd?) && p.stack != []
    ensures Do(room, p, a, ch) == Pop(PopToken(a), p)
  {
  }

  /** The three actions of close tags. */
  lemma DoClose(room: nat, p: YxmlSpec.Parser, ch: Byte)
    requires p.stack != []
    ensures Do(room, p, SelfClose, ch) == EndElement(p, Top(p.stack))
    ensures Do(room, p, CloseName, ch) ==
            if |p.closing| < |Top(p.stack)|
              && Top(p.stack)[|p.closing|] == ch then Result(Ok, p.(closing := p.closing + [ch]), [])
            else Fail(CloseError, p)
    ensures Do(room, p, CloseEnd, ch) ==
            if |p.closing| < |Top(p.stack)| then Fail(CloseError, p) else EndElement(p, p.closing)
  {
  }

  lemma SizeZero(names: seq<Name>)
    ensures Size(names) == 0 <==> names == []
  {
  }

  /** Behind an end the element pointer is at the beginning of a name again. */
  lemma EndPointers(c: Ctl, c': Ctl, a: Action, names: seq<Name>, pi: nat)
    requires Suits(c, Move(c', a)) && (a.SelfClose? || a.CloseEnd?)
    ensures Pointers(c', names, [], ElemAt(names), pi) && Pointers(c'.(state := Misc3), names, [], ElemAt(names), pi)
  {
    ExtraStates(c, c', a);
    EpilogState(c'.(state := Misc3));
    hide HasExtra, IsAttr, PlaceOf, SuitsStack, Quiet, Returns, ElemAt, Size;
  }

  lemma ClosePointers(c: Ctl, c': Ctl, names: seq<Name>, closing: Name, elem: nat, pi: nat)
    requires Suits(c, Move(c', CloseName)) && Fits(c, names, closing) && names != []
             && Pointers(c, names, closing, elem, pi)
    ensures elem == ElemAt(names) + |closing| && closing <= Top(names)
    ensures forall ch :: Pointers(c', names, closing + [ch], elem + 1, pi)
  {
    ExtraStates(c, c', CloseName);
    hide HasExtra, IsAttr, PlaceOf, SuitsStack, Quiet, Returns, ElemAt, Size;
  }

  lemma CloseEndPointers(c: Ctl, c': Ctl, names: seq<Name>, closing: Name, elem: nat, pi: nat)
    requires Suits(c, Move(c', CloseEnd)) && Fits(c, names, closing) && names != []
             && Pointers(c, names, closing, elem, pi)
    ensures elem == ElemAt(names) + |closing| && closing <= Top(names)
  {
    ExtraStates(c, c', CloseEnd);
    assert c.state.Etag1?;
    hide HasExtra, IsAttr, PlaceOf, SuitsStack, Quiet, Returns, ElemAt, Size;
  }

  /** The octet behind the matched part of the top name: the next one of the name, or the zero behind it. */
  lemma ElemOctet(names: seq<Name>, closing: Name, l: seq<Byte>)
    requires names != [] && closing <= Top(names) && l == Layout(names)
    requires GoodName(Top(names))
    ensures var at := ElemAt(names) + |closing|;
            && at < |l|
            && (|closing| < |Top(names)| ==> l[at] == Top(names)[|closing|] != 0)
            && (|closing| >= |Top(names)| ==> l[at] == 0)
  {
    TopInLayout(names);
    hide Layout, Size;
    var at, top := ElemAt(names), Top(names);
    if |closing| < |top| { assert l[at..at + |top|][|closing|] == l[at + |closing|]; }
  }

  lemma DoPush(room: nat, p: YxmlSpec.Parser, a: Action, ch: Byte)
    requires a.ElemStart? || a.AttrStart? || a.PiStart?
    ensures Do(room, p, a, ch) == Push(room, p, ch)
  {
  }

  lemma DoGrow(room: nat, p: YxmlSpec.Parser, a: Action, ch: Byte)
    requires (a.ElemName? || a.AttrName? || a.PiName?) && p.stack != []
    ensures Do(room, p, a, ch) == PushOctet(room, p, ch)
  {
  }

  lemma PushPointers(c: Ctl, c': Ctl, a: Action, names: seq<Name>, closing: Name, ch: Byte, elem: nat, pi: nat)
    requires Fits(c, names, closing) && Suits(c, Move(c', a)) && (a.ElemStart? || a.AttrStart? || a.PiStart?)
    requires Pointers(c, names, closing, elem, pi)
    ensures closing == []
    ensures var names' := names + [[ch]];
            && (a.ElemStart? ==> Pointers(c', names', [], ElemAt(names'), pi))
            && (a.AttrStart? ==> Pointers(c', names', [], elem, pi))
            && (a.PiStart? ==> Pointers(c', names', [], elem, ElemAt(names')))
  {
    ExtraStates(c, c', a);
    NoClosing(c, names, closing);
    hide HasExtra, IsAttr, PlaceOf, SuitsStack, Quiet, Returns, ElemAt, Size;
    hide Fits, Popped;
    PoppedPush(names, [ch]);
  }

  lemma ElemAtGrow(names: seq<Name>, ch: Byte)
    requires names != []
    ensures var names' := Popped(names) + [Top(names) + [ch]];
            names' != [] && Popped(names') == Popped(names) && ElemAt(names') == ElemAt(names)
  {
    hide Size;
    PoppedPush(Popped(names), Top(names) + [ch]);
  }

  lemma PoppedPush(names: seq<Name>, n: Name)
    ensures Popped(names + [n]) == names
  {
  }

  lemma NoClosing(c: Ctl, names: seq<Name>, closing: Name)
    requires Fits(c, names, closing) && !c.state.Etag1?
    ensures closing == []
  {
  }

  lemma GrowPointers(c: Ctl, c': Ctl, a: Action, names: seq<Name>, closing: Name, ch: Byte, elem: nat, pi: nat)
    requires Fits(c, names, closing) && Suits(c, Move(c', a)) && (a.ElemName? || a.AttrName? || a.PiName?)
             && names != []
    requires Pointers(c, names, closing, elem, pi)
    ensures closing == []
    ensures Pointers(c', Popped(names) + [Top(names) + [ch]], [], elem, pi)
  {
    ExtraStates(c, c', a);
    NoClosing(c, names, closing);
    hide HasExtra, IsAttr, PlaceOf, SuitsStack, Quiet, Returns, Size, Fits, Popped, Top, ElemAt;
    ElemAtGrow(names, ch);
  }

  lemma PopPointers(c: Ctl, c': Ctl, a: Action, names: seq<Name>, closing: Name, elem: nat, pi: nat)
    requires Fits(c, names, closing) && Suits(c, Move(c', a)) && (a.AttrValueEnd? || a.PiAbort? || a.PiEnd?)
             && names != []
    requires Pointers(c, names, closing, elem, pi)
    ensures closing == [] && Pointers(c', Popped(names), [], elem, pi) && Pointers(c', Popped(names), [], elem, 0)
  {
    ExtraStates(c, c', a);
    hide HasExtra, IsAttr, PlaceOf, SuitsStack, Quiet, Returns, ElemAt, Size;
  }
}
