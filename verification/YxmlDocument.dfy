/** Elements and their content: what a client sees of a written element. */
module YxmlDocument {
  import opened Bytes
  import opened YxmlClient
  import opened YxmlData
  import opened YxmlMarkup
  import opened YxmlSpec
  import opened YxmlTree

  /// The table where elements use it

  lemma TagTable(c: Ctl, ch: Byte)
    ensures c.state.Le2? && IsNameStart(ch) ==> Control(c, ch) == Move(c.(state := Elem0), ElemStart)
    ensures (c.state.Le0? || c.state.Le1?) && IsNameStart(ch) ==> Control(c, ch) == Move(c.(state := Elem0), ElemStart)
    ensures c.state.Elem0? && IsName(ch) ==> Control(c, ch) == Move(c, ElemName)
    ensures c.state.Elem0? && IsSpace(ch) ==> Control(c, ch) == Move(c.(state := Elem1), ElemNameEnd)
    ensures c.state.Elem0? && ch == GT ==> Control(c, ch) == Move(c.(state := Misc2), ElemNameEnd)
    ensures c.state.Elem0? && ch == SLASH ==> Control(c, ch) == Move(c.(state := Elem3), ElemNameEnd)
    ensures c.state.Elem2? && IsSpace(ch) ==> Control(c, ch) == Move(c.(state := Elem1), Nothing)
    ensures (c.state.Elem1? || c.state.Elem2?) && ch == GT ==> Control(c, ch) == Move(c.(state := Misc2), Nothing)
    ensures (c.state.Elem1? || c.state.Elem2?) && ch == SLASH ==> Control(c, ch) == Move(c.(state := Elem3), Nothing)
    ensures c.state.Elem3? && ch == GT ==> Control(c, ch) == Move(c.(state := Misc2), Action.SelfClose)
  {
  }

  lemma AttrTable(c: Ctl, ch: Byte)
    ensures c.state.Elem1? && IsNameStart(ch) ==> Control(c, ch) == Move(c.(state := Attr0), AttrStart)
    ensures c.state.Attr0? && IsName(ch) ==> Control(c, ch) == Move(c, AttrName)
    ensures c.state.Attr0? && IsSpace(ch) ==> Control(c, ch) == Move(c.(state := Attr1), AttrNameEnd)
    ensures c.state.Attr0? && ch == EQUALS ==> Control(c, ch) == Move(c.(state := Attr2), AttrNameEnd)
    ensures c.state.Attr1? && ch == EQUALS ==> Control(c, ch) == Move(c.(state := Attr2), Nothing)
    ensures c.state.Attr2? && IsQuote(ch) ==> Control(c, ch) == Move(c.(state := Attr3, quote := ch), Nothing)
    ensures c.state.Attr3? && ch != c.quote && ch != LT && ch != AMP ==> Control(c, ch) == Move(c, Action.AttrValue)
    ensures c.state.Attr3? && ch == c.quote && IsQuote(ch) ==> Control(c, ch) == Move(c.(state := Elem2), AttrValueEnd)
  {
  }

  /// Values of attributes

  datatype Piece = Lit(octet: Byte) | Ref(name: seq<Byte>)

  predicate IsPiece(quote: Byte, c: Piece) {
    match c
    case Lit(octet) => IsPlain(octet) && octet != quote && octet != LT && octet != AMP
    case Ref(name) => IsReference(name)
  }

  predicate ArePieces(quote: Byte, v: seq<Piece>) {
    forall i :: 0 <= i < |v| ==> IsPiece(quote, v[i])
  }

  function PieceText(c: Piece): seq<Byte> {
    if c.Lit? then [c.octet] else RefText(c.name)
  }

  /** A tab or a line feed is seen as a space, a reference as the character it stands for. */
  function PieceData(quote: Byte, c: Piece): seq<Byte>
    requires IsPiece(quote, c)
  {
    if c.Lit? then [Normal(c.octet)] else RefData(c.name)
  }

  function ValueText(v: seq<Piece>): seq<Byte> {
    if v == [] then [] else PieceText(v[0]) + ValueText(v[1..])
  }

  function ValueData(quote: Byte, v: seq<Piece>): seq<Byte>
    requires ArePieces(quote, v)
  {
    if v == [] then [] else PieceData(quote, v[0]) + ValueData(quote, v[1..])
  }

  lemma PieceGoes(room: nat, p: Parser, stack: seq<Name>, c: Piece) returns (p': Parser)
    requires On(p, Attr3, stack) && IsPiece(p.ctl.quote, c)
    ensures On(p', Attr3, stack) && p'.ctl == p.ctl
    ensures Goes(room, p, PieceText(c), p', DataTokens(AttrValueToken, PieceData(p.ctl.quote, c)))
  {
    hide Goes, On, Control, DataTokens, IsReference, RefData, RefText;
    StateOn(p, Attr3, stack);
    if c.Lit? {
      AttrTable(p.ctl, c.octet);
      p' := TellsOne(room, p, Attr3, stack, c.octet, Attr3);
    } else {
      p' := RefGoes(room, p, Attr3, stack, c.name);
    }
  }

  lemma {:induction false} ValueGoes(room: nat, p: Parser, stack: seq<Name>, v: seq<Piece>) returns (p': Parser)
    requires On(p, Attr3, stack) && ArePieces(p.ctl.quote, v)
    ensures On(p', Attr3, stack) && p'.ctl == p.ctl
    ensures Goes(room, p, ValueText(v), p', DataTokens(AttrValueToken, ValueData(p.ctl.quote, v)))
    decreases |v|
  {
    hide Goes, On, DataTokens, IsPiece, PieceText, PieceData;
    if v == [] {
      p' := p;
      GoesNothing(room, p, Attr3, stack);
      NoDataTokens(AttrValueToken);
    } else {
      var quote := p.ctl.quote;
      var p1 := PieceGoes(room, p, stack, v[0]);
      p' := ValueGoes(room, p1, stack, v[1..]);
      var a, b := PieceData(quote, v[0]), ValueData(quote, v[1..]);
      GoesThen(room, p, PieceText(v[0]), p1, DataTokens(AttrValueToken, a), ValueText(v[1..]), p',
               DataTokens(AttrValueToken, b));
      DataTokensConcat(AttrValueToken, a, b);
    }
  }

  /// When a value is seen as it was written

  /** An octet that is neither a tab nor a line feed. */
  predicate IsKept(c: Piece) {
    c.Lit? && c.octet != 0x09 && c.octet != 0x0A
  }

  /** A reference is longer than what it stands for. */
  lemma RefShrinks(n: seq<Byte>)
    requires IsReference(n)
    ensures |RefData(n)| < |RefText(n)|
  {
    ShortReference(n);
    hide RefValue;
  }

  lemma ShortReference(n: seq<Byte>)
    ensures |n| <= 1 ==> RefValue(n) == 0
    ensures |n| == 2 ==> RefValue(n) < 0x80
  {
    if |n| == 2 {
      assert n[2..] == [] && n[1..] == [n[1]] && [n[1]][1..] == [];
      assert DecValue([n[1]], 0) < 10;
    }
  }

  lemma {:induction false} ValueShrinks(quote: Byte, v: seq<Piece>)
    requires ArePieces(quote, v)
    ensures |ValueData(quote, v)| <= |ValueText(v)|
    decreases |v|
  {
    hide IsReference, RefData, RefText;
    if v != [] {
      if v[0].Ref? { RefShrinks(v[0].name); }
      ValueShrinks(quote, v[1..]);
    }
  }

  /** A client sees a value as it was written exactly if it holds no tab, no line feed and no reference. */
  lemma {:induction false} ValueAsWritten(quote: Byte, v: seq<Piece>)
    requires ArePieces(quote, v)
    ensures ValueData(quote, v) == ValueText(v) <==> forall i :: 0 <= i < |v| ==> IsKept(v[i])
    decreases |v|
  {
    hide IsReference, RefData, RefText;
    if v != [] {
      var rest := v[1..];
      ValueAsWritten(quote, rest);
      ValueShrinks(quote, rest);
      KeptSplit(v);
      if v[0].Ref? {
        RefShrinks(v[0].name);
      } else {
        var a, b := ValueData(quote, v), ValueText(v);
        assert a[0] == Normal(v[0].octet) && b[0] == v[0].octet;
        assert a[1..] == ValueData(quote, rest) && b[1..] == ValueText(rest);
        assert a == [a[0]] + a[1..] && b == [b[0]] + b[1..];
      }
    }
  }

  /** Without references every octet is seen in its place, tabs and line feeds as spaces. */
  lemma {:induction false} OctetsSeen(quote: Byte, v: seq<Piece>, i: nat)
    requires ArePieces(quote, v) && (forall k :: 0 <= k < |v| ==> v[k].Lit?) && i < |v|
    ensures |ValueData(quote, v)| == |v|
    ensures ValueData(quote, v)[i] == if v[i].octet == '\t' as int
            || v[i].octet == '\n' as int then ' ' as int else v[i].octet
    decreases |v|
  {
    var rest := v[1..];
    if rest != [] {
      OctetsSeen(quote, rest, if i == 0 then 0 else i - 1);
    }
  }

  lemma KeptSplit(v: seq<Piece>)
    requires v != []
    ensures (forall i :: 0 <= i < |v| ==> IsKept(v[i]))
            <==> IsKept(v[0]) && forall i :: 0 <= i < |v[1..]| ==> IsKept(v[1..][i])
  {
    hide IsKept;
    assert v == [v[0]] + v[1..];
    if IsKept(v[0]) && forall i :: 0 <= i < |v[1..]| ==> IsKept(v[1..][i]) {
      forall i | 0 <= i < |v|
        ensures IsKept(v[i])
      {
        if i > 0 { assert v[i] == v[1..][i - 1]; }
      }
    }
  }

  /// Attributes

  /** Blanks before the name, around the equals sign, and a quoted value. */
  datatype Attr = Attr(lead: seq<Byte>, name: Name, before: seq<Byte>, after: seq<Byte>, quote: Byte, value: seq<Piece>)

  predicate IsAttribute(a: Attr) {
    && a.lead != [] && AreBlanks(a.lead) && AreBlanks(a.before) && AreBlanks(a.after)
    && IsXmlTag(a.name) && IsQuote(a.quote) && ArePieces(a.quote, a.value)
  }

  function AttrHead(a: Attr): seq<Byte> {
    a.name + (a.before + [EQUALS]) + (a.after + [a.quote])
  }

  function AttrText(a: Attr): seq<Byte> {
    AttrHead(a) + ValueText(a.value) + [a.quote]
  }

  function AttrTokens(a: Attr): seq<Token>
    requires IsAttribute(a)
  {
    [Attribute(a.name)] + DataTokens(AttrValueToken, ValueData(a.quote, a.value)) + [AttributeEnds]
  }

  lemma AttrNameMoves(c: Ctl, n: Name)
    requires IsXmlTag(n) && c.state.Elem1?
    ensures Control(c, n[0]) == Move(c.(state := Attr0), AttrStart)
    ensures forall i :: 1 <= i < |n| ==> Control(c.(state := Attr0), n[i]) == Move(c.(state := Attr0), AttrName)
  {
    hide Control, IsName, IsNameStart;
    AttrTable(c, n[0]);
    forall i | 1 <= i < |n|
      ensures Control(c.(state := Attr0), n[i]) == Move(c.(state := Attr0), AttrName)
    {
      AttrTable(c.(state := Attr0), n[i]);
    }
  }

  /** The equals sign, or the first blank before it, ends the name. */
  lemma EqualsGoes(room: nat, p: Parser, stack: seq<Name>, n: Name, w: seq<Byte>) returns (p': Parser)
    requires On(p, Attr0, stack + [n]) && AreBlanks(w)
    ensures On(p', Attr2, stack + [n]) && Goes(room, p, w + [EQUALS], p', [Attribute(n)])
  {
    hide Goes, Control, On, IsSpace;
    var names := stack + [n];
    SizeSnoc(stack, n);
    StateOn(p, Attr0, names);
    if w == [] {
      AttrTable(p.ctl, EQUALS);
      p' := NameEnds(room, p, Attr0, names, EQUALS, Attr2);
      assert w + [EQUALS] == [EQUALS];
    } else {
      AttrTable(p.ctl, w[0]);
      NamesArePlain(w[0]);
      var p1 := NameEnds(room, p, Attr0, names, w[0], Attr1);
      BlanksAfter(room, p, p1, Attr1, names, w, [Attribute(n)]);
      StateOn(p1, Attr1, names);
      AttrTable(p1.ctl, EQUALS);
      p' := Quietly(room, p1, Attr1, names, EQUALS, Attr2);
      GoesBefore(room, p, w, p1, [Attribute(n)], [EQUALS], p');
    }
  }

  lemma QuoteGoes(room: nat, p: Parser, stack: seq<Name>, w: seq<Byte>, quote: Byte) returns (p': Parser)
    requires On(p, Attr2, stack) && AreBlanks(w) && IsQuote(quote)
    ensures On(p', Attr3, stack) && p'.ctl.quote == quote && Goes(room, p, w + [quote], p', [])
  {
    hide Goes, Control, On, IsSpace, IsQuote;
    StateOn(p, Attr2, stack);
    BlanksGo(room, p, Attr2, stack, w);
    AttrTable(p.ctl, quote);
    NamesArePlain(quote);
    p' := Quietly(room, p, Attr2, stack, quote, Attr3);
    GoesAfter(room, p, w, p, [quote], p', []);
  }

  /** The name of an attribute, up to the value. */
  lemma AttrNameGoes(room: nat, p: Parser, stack: seq<Name>, a: Attr) returns (p': Parser)
    requires On(p, Elem1, stack) && IsAttribute(a) && Size(stack) + |a.name| + 1 < room
    ensures On(p', Attr3, stack + [a.name]) && p'.ctl.quote == a.quote
            && Goes(room, p, AttrHead(a), p', [Attribute(a.name)])
  {
    hide Goes, Control, Size, On, AreBlanks, ArePieces, IsQuote;
    var n := a.name;
    StateOn(p, Elem1, stack);
    PlainName(n);
    AttrNameMoves(p.ctl, n);
    hide IsName, IsNameStart;
    var p1 := NameGoes(room, p, Elem1, stack, n, Attr0);
    var p2 := EqualsGoes(room, p1, stack, n, a.before);
    p' := QuoteGoes(room, p2, stack + [n], a.after, a.quote);
    GoesAfter(room, p, n, p1, a.before + [EQUALS], p2, [Attribute(n)]);
    GoesBefore(room, p, n + (a.before + [EQUALS]), p2, [Attribute(n)], a.after + [a.quote], p');
  }

  /** The quote ends the value, and the name of the attribute leaves the stack. */
  lemma AttrEnds(room: nat, p: Parser, stack: seq<Name>, n: Name) returns (p': Parser)
    requires On(p, Attr3, stack + [n]) && IsQuote(p.ctl.quote)
    ensures On(p', Elem2, stack) && Goes(room, p, [p.ctl.quote], p', [AttributeEnds])
  {
    hide Goes, Control, On, IsQuote;
    StateOn(p, Attr3, stack + [n]);
    AttrTable(p.ctl, p.ctl.quote);
    NamesArePlain(p.ctl.quote);
    p' := DropsName(room, p, Attr3, stack, n, p.ctl.quote, Elem2);
  }

  lemma AttrGoes(room: nat, p: Parser, stack: seq<Name>, a: Attr) returns (p': Parser)
    requires On(p, Elem1, stack) && IsAttribute(a) && Size(stack) + |a.name| + 1 < room
    ensures On(p', Elem2, stack) && Goes(room, p, AttrText(a), p', AttrTokens(a))
  {
    hide Goes, Control, Size, On, ArePieces, IsQuote, AttrHead, ValueText, ValueData, DataTokens, AreBlanks, IsXmlTag;
    var p1 := AttrNameGoes(room, p, stack, a);
    var p2 := ValueGoes(room, p1, stack + [a.name], a.value);
    p' := AttrEnds(room, p2, stack, a.name);
    var value := DataTokens(AttrValueToken, ValueData(a.quote, a.value));
    GoesThen(room, p, AttrHead(a), p1, [Attribute(a.name)], ValueText(a.value), p2, value);
    GoesThen(room, p, AttrHead(a) + ValueText(a.value), p2, [Attribute(a.name)] + value, [a.quote], p',
             [AttributeEnds]);
  }

  /// Start tags

  function AttrsText(attrs: seq<Attr>): seq<Byte> {
    if attrs == [] then [] else attrs[0].lead + AttrText(attrs[0]) + AttrsText(attrs[1..])
  }

  predicate AreAttributes(attrs: seq<Attr>) {
    forall i :: 0 <= i < |attrs| ==> IsAttribute(attrs[i])
  }

  function AttrsTokens(attrs: seq<Attr>): seq<Token>
    requires AreAttributes(attrs)
  {
    if attrs == [] then [] else AttrTokens(attrs[0]) + AttrsTokens(attrs[1..])
  }

  /** The longest name of an attribute takes the most room. */
  function Longest(attrs: seq<Attr>): nat {
    if attrs == [] then 0
    else if |attrs[0].name| > Longest(attrs[1..]) then |attrs[0].name| else Longest(attrs[1..])
  }

  /** Blanks behind the tag's name or behind an attribute. */
  lemma LeadGoes(room: nat, p: Parser, from: State, stack: seq<Name>, w: seq<Byte>) returns (p': Parser)
    requires On(p, from, stack) && (from.Elem0? || from.Elem2?) && stack != [] && w != [] && AreBlanks(w)
    ensures On(p', Elem1, stack) && Goes(room, p, w, p', if from.Elem0? then [Opens(Top(stack))] else [])
  {
    hide Goes, Control, On, IsSpace;
    StateOn(p, from, stack);
    TagTable(p.ctl, w[0]);
    NamesArePlain(w[0]);
    if from.Elem0? {
      p' := NameEnds(room, p, Elem0, stack, w[0], Elem1);
      BlanksAfter(room, p, p', Elem1, stack, w, [Opens(Top(stack))]);
    } else {
      p' := Quietly(room, p, Elem2, stack, w[0], Elem1);
      BlanksAfter(room, p, p', Elem1, stack, w, []);
    }
  }

  /** An attribute with the blanks before it. */
  lemma LedAttrGoes(room: nat, p: Parser, from: State, stack: seq<Name>, a: Attr) returns (p': Parser)
    requires On(p, from, stack) && (from.Elem0? || from.Elem2?) && stack != []
    requires IsAttribute(a) && Size(stack) + |a.name| + 1 < room
    ensures On(p', Elem2, stack)
    ensures Goes(room, p, a.lead + AttrText(a), p', (if from.Elem0? then [Opens(Top(stack))] else []) + AttrTokens(a))
  {
    hide Goes, Size, On, AttrText, AttrTokens;
    var p1 := LeadGoes(room, p, from, stack, a.lead);
    p' := AttrGoes(room, p1, stack, a);
    GoesThen(room, p, a.lead, p1, if from.Elem0? then [Opens(Top(stack))] else [], AttrText(a), p', AttrTokens(a));
  }

  /** More attributes behind one. */
  lemma {:induction false} AttrsGo(room: nat, p: Parser, stack: seq<Name>, attrs: seq<Attr>) returns (p': Parser)
    requires On(p, Elem2, stack) && stack != [] && AreAttributes(attrs) && Size(stack) + Longest(attrs) + 1 < room
    ensures On(p', Elem2, stack) && Goes(room, p, AttrsText(attrs), p', AttrsTokens(attrs))
    decreases |attrs|
  {
    hide Goes, Size, On, IsAttribute, AttrText, AttrTokens;
    if attrs == [] {
      p' := p;
      GoesNothing(room, p, Elem2, stack);
    } else {
      var a := attrs[0];
      var p1 := LedAttrGoes(room, p, Elem2, stack, a);
      p' := AttrsGo(room, p1, stack, attrs[1..]);
      assert [] + AttrTokens(a) == AttrTokens(a);
      GoesThen(room, p, a.lead + AttrText(a), p1, AttrTokens(a), AttrsText(attrs[1..]), p', AttrsTokens(attrs[1..]));
    }
  }

  /** Where a start tag may stand. */
  predicate Begins(s: State) {
    s.Init? || s.Misc0? || s.Misc1? || s.Misc2?
  }

  lemma TagNameMoves(c: Ctl, n: Name)
    requires IsXmlTag(n) && (c.state.Le0? || c.state.Le1? || c.state.Le2?)
    ensures Control(c, n[0]) == Move(c.(state := Elem0), ElemStart)
    ensures forall i :: 1 <= i < |n| ==> Control(c.(state := Elem0), n[i]) == Move(c.(state := Elem0), ElemName)
  {
    hide Control, IsName, IsNameStart;
    TagTable(c, n[0]);
    forall i | 1 <= i < |n|
      ensures Control(c.(state := Elem0), n[i]) == Move(c.(state := Elem0), ElemName)
    {
      TagTable(c.(state := Elem0), n[i]);
    }
  }

  /** A start tag up to the end of its name. */
  lemma TagNameGoes(room: nat, p: Parser, from: State, stack: seq<Name>, n: Name) returns (p': Parser)
    requires On(p, from, stack) && Begins(from) && IsXmlTag(n) && Size(stack) + |n| + 1 < room
    ensures On(p', Elem0, stack + [n]) && Goes(room, p, [LT] + n, p', [])
  {
    hide Goes, Control, Size, On;
    StateOn(p, from, stack);
    StartTable(p.ctl);
    var p1 := Quietly(room, p, from, stack, LT, Marked(from));
    StateOn(p1, Marked(from), stack);
    PlainName(n);
    TagNameMoves(p1.ctl, n);
    hide IsName, IsNameStart;
    p' := NameGoes(room, p1, Marked(from), stack, n, Elem0);
    GoesAfter(room, p, [LT], p1, n, p', []);
  }

  /** A start tag up to its last octet: its name, its attributes and some blanks. */
  function Head(n: Name, attrs: seq<Attr>, tail: seq<Byte>): seq<Byte> {
    [LT] + n + AttrsText(attrs) + tail
  }

  predicate IsHead(n: Name, attrs: seq<Attr>, tail: seq<Byte>) {
    IsXmlTag(n) && AreAttributes(attrs) && AreBlanks(tail)
  }

  /** The room that a tag takes on the stack. */
  function Room(n: Name, attrs: seq<Attr>): nat {
    |n| + 1 + (if attrs == [] then 0 else Longest(attrs) + 1)
  }

  /** The attributes of a tag; the blanks before the first one also end the tag's name. */
  lemma AllAttrsGo(room: nat, p: Parser, stack: seq<Name>, n: Name, attrs: seq<Attr>) returns (p': Parser)
    requires On(p, Elem0, stack + [n]) && AreAttributes(attrs) && Size(stack) + Room(n, attrs) < room
    ensures On(p', if attrs == [] then Elem0 else Elem2, stack + [n])
    ensures Goes(room, p, AttrsText(attrs), p', if attrs == [] then [] else [Opens(n)] + AttrsTokens(attrs))
  {
    hide Goes, Size, On, IsAttribute, AttrText, AttrTokens;
    var names := stack + [n];
    SizeSnoc(stack, n);
    if attrs == [] {
      p' := p;
      GoesNothing(room, p, Elem0, names);
    } else {
      var a := attrs[0];
      var p1 := LedAttrGoes(room, p, Elem0, names, a);
      p' := AttrsGo(room, p1, names, attrs[1..]);
      GoesThen(room, p, a.lead + AttrText(a), p1, [Opens(n)] + AttrTokens(a), AttrsText(attrs[1..]), p',
               AttrsTokens(attrs[1..]));
      assert [Opens(n)] + AttrTokens(a) + AttrsTokens(attrs[1..]) == [Opens(n)] + AttrsTokens(attrs);
    }
  }

  /** The state before the end of a start tag; in the first one the name is still open. */
  function HeadState(attrs: seq<Attr>, tail: seq<Byte>): State {
    if tail != [] then Elem1 else if attrs == [] then Elem0 else Elem2
  }

  function HeadTokens(n: Name, attrs: seq<Attr>, tail: seq<Byte>): seq<Token>
    requires AreAttributes(attrs)
  {
    if attrs == [] && tail == [] then [] else [Opens(n)] + AttrsTokens(attrs)
  }

  lemma TailGoes(room: nat, p: Parser, stack: seq<Name>, n: Name, attrs: seq<Attr>, tail: seq<Byte>)
    returns (p': Parser)
    requires On(p, if attrs == [] then Elem0 else Elem2, stack + [n]) && AreBlanks(tail)
    ensures On(p', HeadState(attrs, tail), stack + [n])
    ensures Goes(room, p, tail, p', if attrs == [] && tail != [] then [Opens(n)] else [])
  {
    hide Goes, On, IsSpace;
    SizeSnoc(stack, n);
    var from := if attrs == [] then Elem0 else Elem2;
    if tail == [] {
      p' := p;
      GoesNothing(room, p, from, stack + [n]);
    } else {
      p' := LeadGoes(room, p, from, stack + [n], tail);
    }
  }

  lemma HeadGoes(room: nat, p: Parser, from: State, stack: seq<Name>, n: Name, attrs: seq<Attr>, tail: seq<Byte>)
    returns (p': Parser)
    requires On(p, from, stack) && Begins(from) && IsHead(n, attrs, tail) && Size(stack) + Room(n, attrs) < room
    ensures On(p', HeadState(attrs, tail), stack + [n])
    ensures Goes(room, p, Head(n, attrs, tail), p', HeadTokens(n, attrs, tail))
  {
    hide Goes, Size, On, AttrsText, AttrsTokens, AreAttributes, AreBlanks, IsXmlTag;
    NoAttributes();
    var p1 := TagNameGoes(room, p, from, stack, n);
    var p2 := AllAttrsGo(room, p1, stack, n, attrs);
    p' := TailGoes(room, p2, stack, n, attrs, tail);
    var t1 := if attrs == [] then [] else [Opens(n)] + AttrsTokens(attrs);
    var t2 := if attrs == [] && tail != [] then [Opens(n)] else [];
    GoesAfter(room, p, [LT] + n, p1, AttrsText(attrs), p2, t1);
    GoesThen(room, p, [LT] + n + AttrsText(attrs), p2, t1, tail, p', t2);
    assert t1 + t2 == HeadTokens(n, attrs, tail);
  }

  lemma NoAttributes()
    ensures AttrsText([]) == [] && AttrsTokens([]) == []
  {
  }

  /** The octet behind the head: the end of the tag, or the slash of one that closes itself. */
  lemma HeadEnds(room: nat, p: Parser, stack: seq<Name>, n: Name, attrs: seq<Attr>, tail: seq<Byte>, octet: Byte)
    returns (p': Parser)
    requires On(p, HeadState(attrs, tail), stack + [n]) && (octet == GT || octet == SLASH)
    ensures On(p', if octet == GT then Misc2 else Elem3, stack + [n])
    ensures Goes(room, p, [octet], p', if HeadState(attrs, tail).Elem0? then [Opens(n)] else [])
  {
    hide Goes, Control, On;
    var names, from := stack + [n], HeadState(attrs, tail);
    SizeSnoc(stack, n);
    StateOn(p, from, names);
    TagTable(p.ctl, octet);
    if from.Elem0? {
      p' := NameEnds(room, p, from, names, octet, if octet == GT then Misc2 else Elem3);
    } else {
      p' := Quietly(room, p, from, names, octet, if octet == GT then Misc2 else Elem3);
    }
  }

  lemma OpenGoes(room: nat, p: Parser, from: State, stack: seq<Name>, n: Name, attrs: seq<Attr>, tail: seq<Byte>,
                 octet: Byte)
    returns (p': Parser)
    requires On(p, from, stack) && Begins(from) && IsHead(n, attrs, tail) && Size(stack) + Room(n, attrs) < room
    requires octet == GT || octet == SLASH
    ensures On(p', if octet == GT then Misc2 else Elem3, stack + [n])
    ensures Goes(room, p, Head(n, attrs, tail) + [octet], p', [Opens(n)] + AttrsTokens(attrs))
  {
    hide Goes, Size, On, AttrsTokens, Head, Room, AreAttributes, AreBlanks, IsXmlTag;
    NoAttributes();
    var p1 := HeadGoes(room, p, from, stack, n, attrs, tail);
    p' := HeadEnds(room, p1, stack, n, attrs, tail, octet);
    var t1, t2 := HeadTokens(n, attrs, tail), if HeadState(attrs, tail).Elem0? then [Opens(n)] else [];
    GoesThen(room, p, Head(n, attrs, tail), p1, t1, [octet], p', t2);
    assert t1 + t2 == [Opens(n)] + AttrsTokens(attrs);
  }

  /** Where a document stands behind an element. */
  function Behind(stack: seq<Name>): State {
    if stack == [] then Misc3 else Misc2
  }

  lemma SelfClosed(room: nat, p: Parser, stack: seq<Name>, n: Name) returns (p': Parser)
    requires On(p, Elem3, stack + [n])
    ensures On(p', Behind(stack), stack) && Goes(room, p, [GT], p', [Closes])
  {
    SizeSnoc(stack, n);
    TagTable(p.ctl, GT);
    hide Control, Shape, DataOf;
    var r := Parse(room, p, GT);
    GoesOne(room, p, GT, r);
    p' := r.p;
  }

  lemma EmptyGoes(room: nat, p: Parser, from: State, stack: seq<Name>, n: Name, attrs: seq<Attr>, tail: seq<Byte>)
    returns (p': Parser)
    requires On(p, from, stack) && Begins(from) && IsHead(n, attrs, tail) && Size(stack) + Room(n, attrs) < room
    ensures On(p', Behind(stack), stack)
    ensures Goes(room, p, Head(n, attrs, tail) + [SLASH] + [GT], p', [Opens(n)] + AttrsTokens(attrs) + [Closes])
  {
    hide Goes, Size, On, AttrsTokens, Head, Room, AreAttributes, AreBlanks, IsXmlTag, Behind;
    var p1 := OpenGoes(room, p, from, stack, n, attrs, tail, SLASH);
    p' := SelfClosed(room, p1, stack, n);
    GoesThen(room, p, Head(n, attrs, tail) + [SLASH], p1, [Opens(n)] + AttrsTokens(attrs), [GT], p', [Closes]);
  }

  /// Close tags

  lemma CloseTable(c: Ctl, ch: Byte)
    ensures c.state.Le2? ==> Control(c, SLASH) == Move(c.(state := Etag0), Nothing)
    ensures c.state.Etag0? && IsNameStart(ch) ==> Control(c, ch) == Move(c.(state := Etag1), CloseName)
    ensures c.state.Etag1? && IsName(ch) ==> Control(c, ch) == Move(c, CloseName)
    ensures c.state.Etag1? && ch == GT ==> Control(c, ch) == Move(c.(state := Misc2), CloseEnd)
    ensures c.state.Etag1? && IsSpace(ch) ==> Control(c, ch) == Move(c.(state := Etag2), CloseEnd)
    ensures c.state.Etag2? && ch == GT ==> Control(c, ch) == Move(c.(state := Misc2), Nothing)
  {
  }

  /** The part of a close tag's name that was read agrees with the name of the open tag. */
  ghost predicate Closing(p: Parser, stack: seq<Name>, n: Name, k: nat) {
    p.ctl.state.Etag1? && p.stack == stack + [n] && k <= |n| && p.closing == n[..k] && p.ignore == 0 && Shape(p)
  }

  lemma CloseFirst(room: nat, p: Parser, stack: seq<Name>, n: Name) returns (p': Parser)
    requires On(p, Etag0, stack + [n]) && IsXmlTag(n)
    ensures Closing(p', stack, n, 1) && Goes(room, p, [n[0]], p', [])
  {
    SizeSnoc(stack, n);
    CloseTable(p.ctl, n[0]);
    NamesArePlain(n[0]);
    hide Control, Shape, IsName, IsNameStart, DataOf;
    var r := Parse(room, p, n[0]);
    GoesOne(room, p, n[0], r);
    p' := r.p;
    assert [] + [n[0]] == n[..1];
  }

  lemma CloseNext(room: nat, p: Parser, stack: seq<Name>, n: Name, k: nat) returns (p': Parser)
    requires Closing(p, stack, n, k) && k < |n| && IsXmlTag(n)
    ensures Closing(p', stack, n, k + 1) && Goes(room, p, [n[k]], p', [])
  {
    SizeSnoc(stack, n);
    CloseTable(p.ctl, n[k]);
    NamesArePlain(n[k]);
    hide Control, Shape, IsName, IsNameStart, DataOf;
    var r := Parse(room, p, n[k]);
    GoesOne(room, p, n[k], r);
    p' := r.p;
    assert n[..k] + [n[k]] == n[..k + 1];
  }

  lemma {:induction false} CloseRest(room: nat, p: Parser, stack: seq<Name>, n: Name, k: nat) returns (p': Parser)
    requires Closing(p, stack, n, k) && IsXmlTag(n)
    ensures Closing(p', stack, n, |n|) && Goes(room, p, n[k..], p', [])
    decreases |n| - k
  {
    hide Goes, Shape, IsName, IsNameStart;
    if k == |n| {
      assert n[k..] == [];
      p' := p;
      GoesStill(room, p);
    } else {
      var p1 := CloseNext(room, p, stack, n, k);
      p' := CloseRest(room, p1, stack, n, k + 1);
      GoesAfter(room, p, [n[k]], p1, n[k + 1..], p', []);
      assert n[k..] == [n[k]] + n[k + 1..];
    }
  }

  /** A close tag up to the end of its name. */
  lemma CloseNameGoes(room: nat, p: Parser, stack: seq<Name>, n: Name) returns (p': Parser)
    requires On(p, Misc2, stack + [n]) && IsXmlTag(n)
    ensures Closing(p', stack, n, |n|) && Goes(room, p, [LT] + [SLASH] + n, p', [])
  {
    hide Goes, Control, On, Closing, IsName, IsNameStart;
    var names := stack + [n];
    StateOn(p, Misc2, names);
    StartTable(p.ctl);
    var p1 := Quietly(room, p, Misc2, names, LT, Le2);
    CloseTable(p1.ctl, SLASH);
    var p2 := Quietly(room, p1, Le2, names, SLASH, Etag0);
    var p3 := CloseFirst(room, p2, stack, n);
    p' := CloseRest(room, p3, stack, n, 1);
    GoesAfter(room, p, [LT], p1, [SLASH], p2, []);
    GoesAfter(room, p, [LT] + [SLASH], p2, [n[0]], p3, []);
    GoesAfter(room, p, [LT] + [SLASH] + [n[0]], p3, n[1..], p', []);
    assert [LT] + [SLASH] + [n[0]] + n[1..] == [LT] + [SLASH] + n;
  }

  /** The octet behind the name of a close tag ends the element. A blank also ends the root, and leaves its close
      tag behind. */
  lemma CloseEnds(room: nat, p: Parser, stack: seq<Name>, n: Name, octet: Byte) returns (p': Parser)
    requires Closing(p, stack, n, |n|) && (octet == GT || IsSpace(octet))
    ensures On(p', if octet == GT || stack == [] then Behind(stack) else Etag2, stack)
            && Goes(room, p, [octet], p', [Closes])
  {
    SizeSnoc(stack, n);
    CloseTable(p.ctl, octet);
    NamesArePlain(octet);
    assert n[..|n|] == n;
    hide Control, Shape, IsSpace, DataOf;
    var r := Parse(room, p, octet);
    GoesOne(room, p, octet, r);
    p' := r.p;
  }

  /** How a close tag may end: the root's has no blanks before its last octet, which may be a blank itself. */
  predicate ClosesWell(stack: seq<Name>, w: seq<Byte>, last: Byte) {
    AreBlanks(w) && if stack == [] then w == [] && (last == GT || IsSpace(last)) else last == GT
  }

  /** The blanks and the last octet of a close tag. */
  lemma CloseTailGoes(room: nat, p: Parser, stack: seq<Name>, n: Name, w: seq<Byte>, last: Byte) returns (p': Parser)
    requires Closing(p, stack, n, |n|) && ClosesWell(stack, w, last)
    ensures On(p', Behind(stack), stack) && Goes(room, p, w + [last], p', [Closes])
  {
    hide Goes, On, Closing, Control, IsSpace, Behind;
    if w == [] {
      p' := CloseEnds(room, p, stack, n, last);
      assert w + [last] == [last];
    } else {
      var p1 := CloseEnds(room, p, stack, n, w[0]);
      SpaceIsNotEnd(w[0]);
      BlanksAfter(room, p, p1, Etag2, stack, w, [Closes]);
      StateOn(p1, Etag2, stack);
      CloseTable(p1.ctl, GT);
      p' := Quietly(room, p1, Etag2, stack, GT, Misc2);
      GoesBefore(room, p, w, p1, [Closes], [GT], p');
      assert Behind(stack) == Misc2 by { BehindInner(stack); }
    }
  }

  lemma BehindInner(stack: seq<Name>)
    requires stack != []
    ensures Behind(stack) == Misc2
  {
  }

  lemma SpaceIsNotEnd(ch: Byte)
    ensures IsSpace(ch) ==> ch != GT
  {
  }

  function CloseText(n: Name, w: seq<Byte>, last: Byte): seq<Byte> {
    [LT] + [SLASH] + n + (w + [last])
  }

  lemma CloseGoes(room: nat, p: Parser, stack: seq<Name>, n: Name, w: seq<Byte>, last: Byte) returns (p': Parser)
    requires On(p, Misc2, stack + [n]) && IsXmlTag(n) && ClosesWell(stack, w, last)
    ensures On(p', Behind(stack), stack) && Goes(room, p, CloseText(n, w, last), p', [Closes])
  {
    hide Goes, On, Closing, IsName, IsNameStart, ClosesWell;
    var p1 := CloseNameGoes(room, p, stack, n);
    p' := CloseTailGoes(room, p1, stack, n, w, last);
    GoesAfter(room, p, [LT] + [SLASH] + n, p1, w + [last], p', [Closes]);
  }

  lemma EpilogRefusesTagEnd(room: nat, p: Parser)
    requires On(p, Misc3, [])
    ensures Shape(p) && Run(room, p, [GT]).ret == SynError
  {
    hide Shape;
  }

  /** In the root's close tag the element ends with the first blank, and the end of the tag is a syntax error. */
  lemma RootCloseFails(room: nat, p: Parser, n: Name, w: seq<Byte>)
    requires On(p, Misc2, [] + [n]) && IsXmlTag(n) && AreBlanks(w) && w != []
    ensures Shape(p) && Run(room, p, CloseText(n, w, GT)).ret == SynError
  {
    hide Goes, On, Closing, IsXmlTag, IsSpace, Run, Shape, Parse;
    var p1 := CloseNameGoes(room, p, [], n);
    var p2 := CloseEnds(room, p1, [], n, w[0]);
    BlanksAfter(room, p1, p2, Misc3, [], w, [Closes]);
    GoesAfter(room, p, [LT] + [SLASH] + n, p1, w, p2, [Closes]);
    EpilogRefusesTagEnd(room, p2);
    GoesOn(room, p, [LT] + [SLASH] + n + w, p2, [Closes], [GT]);
    assert [LT] + [SLASH] + n + w + [GT] == CloseText(n, w, GT);
  }

  /** The close tag of the innermost element is taken, with or without blanks at its end, unless it is the root's and
      has blanks. */
  lemma CloseTagIff(room: nat, p: Parser, stack: seq<Name>, n: Name, w: seq<Byte>)
    requires On(p, Misc2, stack + [n]) && IsXmlTag(n) && AreBlanks(w)
    ensures Shape(p) && (!IsError(Run(room, p, CloseText(n, w, GT)).ret) <==> stack != [] || w == [])
  {
    assert Shape(p);
    hide Goes, On, IsXmlTag, AreBlanks, Run, Shape, CloseText;
    if stack != [] || w == [] {
      var p' := CloseGoes(room, p, stack, n, w, GT);
      GoesRuns(room, p, CloseText(n, w, GT), p', [Closes]);
    } else {
      RootCloseFails(room, p, n, w);
    }
  }

  /// Content

  /** An element has blanks at the end of its start tag and of its close tag. */
  datatype Node =
    | Tag(name: Name, attrs: seq<Attr>, tail: seq<Byte>, empty: bool, content: seq<Node>, close: seq<Byte>)
    | Chars(text: seq<Byte>)
    | Entity(name: seq<Byte>)
    | Cdata(text: seq<Byte>)
    | Comment(text: seq<Byte>)
    | Pi(name: Name, sep: seq<Byte>, text: seq<Byte>)

  predicate IsNode(d: Node)
    decreases d, 1
  {
    match d
    case Tag(name, attrs, tail, empty, content, close) =>
      IsHead(name, attrs, tail) && AreNodes(content) && AreBlanks(close) && (empty ==> content == [] && close == [])
    case Chars(text) => IsChars(text)
    case Entity(name) => IsReference(name)
    case Cdata(text) => IsCdata(text)
    case Comment(text) => IsCommentText(text)
    case Pi(name, sep, text) => IsInstruction(name, sep, text)
  }

  predicate AreNodes(ds: seq<Node>)
    decreases ds, 0
  {
    ds == [] || (IsNode(ds[0]) && AreNodes(ds[1..]))
  }

  function NodeText(d: Node): seq<Byte>
    decreases d, 1
  {
    match d
    case Tag(name, attrs, tail, empty, content, close) =>
      if empty then Head(name, attrs, tail) + [SLASH] + [GT]
      else Head(name, attrs, tail) + [GT] + ContentText(content) + CloseText(name, close, GT)
    case Chars(text) => text
    case Entity(name) => RefText(name)
    case Cdata(text) => CdataText(text)
    case Comment(text) => CommentText(text)
    case Pi(name, sep, text) => PiText(name, sep, text)
  }

  function ContentText(ds: seq<Node>): seq<Byte>
    decreases ds, 0
  {
    if ds == [] then [] else NodeText(ds[0]) + ContentText(ds[1..])
  }

  /** What a client must see of a node. */
  function NodeTokens(d: Node): seq<Token>
    requires IsNode(d)
    decreases d, 1
  {
    match d
    case Tag(name, attrs, _, _, content, _) => [Opens(name)] + AttrsTokens(attrs) + ContentTokens(content) + [Closes]
    case Chars(text) => DataTokens(ContentToken, text)
    case Entity(name) => DataTokens(ContentToken, RefData(name))
    case Cdata(text) => DataTokens(ContentToken, text)
    case Comment(_) => []
    case Pi(name, _, text) => PiTokens(name, text)
  }

  function ContentTokens(ds: seq<Node>): seq<Token>
    requires AreNodes(ds)
    decreases ds, 0
  {
    if ds == [] then [] else NodeTokens(ds[0]) + ContentTokens(ds[1..])
  }

  /** The room that a node takes on the stack. */
  function NodeRoom(d: Node): nat
    decreases d, 1
  {
    match d
    case Tag(name, attrs, _, _, content, _) =>
      var inner := |name| + 1 + ContentRoom(content);
      if Room(name, attrs) > inner then Room(name, attrs) else inner
    case Pi(name, _, _) => |name| + 1
    case _ => 0
  }

  function ContentRoom(ds: seq<Node>): nat
    decreases ds, 0
  {
    if ds == [] then 0 else if NodeRoom(ds[0]) > ContentRoom(ds[1..]) then NodeRoom(ds[0]) else ContentRoom(ds[1..])
  }

  /** An element with the octet that ends it. */
  function TagText(d: Node, last: Byte): seq<Byte>
    requires d.Tag?
  {
    if d.empty then Head(d.name, d.attrs, d.tail) + [SLASH] + [last]
    else Head(d.name, d.attrs, d.tail) + [GT] + ContentText(d.content) + CloseText(d.name, d.close, last)
  }

  predicate EndsWell(stack: seq<Name>, d: Node, last: Byte)
    requires d.Tag?
  {
    if d.empty then last == GT else ClosesWell(stack, d.close, last)
  }

  lemma {:induction false} TagGoes(room: nat, p: Parser, from: State, stack: seq<Name>, d: Node, last: Byte)
    returns (p': Parser)
    requires On(p, from, stack) && Begins(from) && d.Tag? && IsNode(d) && Size(stack) + NodeRoom(d) < room
    requires EndsWell(stack, d, last)
    ensures On(p', Behind(stack), stack) && Goes(room, p, TagText(d, last), p', NodeTokens(d))
    decreases d, 1
  {
    hide Goes, On, Size, Head, AttrsTokens, Room, AreAttributes, IsXmlTag, AreBlanks, Behind, CloseText, ClosesWell;
    var n, attrs, tail := d.name, d.attrs, d.tail;
    var start := [Opens(n)] + AttrsTokens(attrs);
    if d.empty {
      p' := EmptyGoes(room, p, from, stack, n, attrs, tail);
      assert start + ContentTokens(d.content) + [Closes] == start + [Closes];
    } else {
      var p1 := OpenGoes(room, p, from, stack, n, attrs, tail, GT);
      SizeSnoc(stack, n);
      var p2 := ContentGoes(room, p1, stack + [n], d.content);
      p' := CloseGoes(room, p2, stack, n, d.close, last);
      var text, tokens := ContentText(d.content), ContentTokens(d.content);
      GoesThen(room, p, Head(n, attrs, tail) + [GT], p1, start, text, p2, tokens);
      GoesThen(room, p, Head(n, attrs, tail) + [GT] + text, p2, start + tokens, CloseText(n, d.close, last), p',
               [Closes]);
    }
  }

  lemma WellInside(stack: seq<Name>, d: Node)
    requires d.Tag? && IsNode(d) && stack != []
    ensures EndsWell(stack, d, GT) && TagText(d, GT) == NodeText(d)
  {
  }

  lemma {:induction false} NodeGoes(room: nat, p: Parser, stack: seq<Name>, d: Node) returns (p': Parser)
    requires On(p, Misc2, stack) && stack != [] && IsNode(d) && Size(stack) + NodeRoom(d) < room
    ensures On(p', Misc2, stack) && Goes(room, p, NodeText(d), p', NodeTokens(d))
    decreases d, 2
  {
    hide Goes, On, Size, DataTokens, CdataText, CommentText, PiText, RefText, PiTokens, RefData;
    hide IsChars, IsCdata, IsCommentText, IsInstruction, IsReference;
    if d.Tag? {
      WellInside(stack, d);
      p' := TagGoes(room, p, Misc2, stack, d, GT);
    } else if d.Chars? {
      p' := CharsGo(room, p, stack, d.text);
    } else if d.Entity? {
      p' := RefGoes(room, p, Misc2, stack, d.name);
    } else if d.Cdata? {
      p' := CdataGoes(room, p, stack, d.text);
    } else if d.Comment? {
      p' := CommentGoes(room, p, Misc2, stack, d.text);
    } else {
      p' := PiGoes(room, p, Misc2, stack, d.name, d.sep, d.text);
    }
  }

  lemma {:induction false} ContentGoes(room: nat, p: Parser, stack: seq<Name>, ds: seq<Node>) returns (p': Parser)
    requires On(p, Misc2, stack) && stack != [] && AreNodes(ds) && Size(stack) + ContentRoom(ds) < room
    ensures On(p', Misc2, stack) && Goes(room, p, ContentText(ds), p', ContentTokens(ds))
    decreases ds, 0
  {
    hide Goes, On, Size, NodeText, NodeTokens, IsNode, NodeRoom;
    if ds == [] {
      p' := p;
      GoesNothing(room, p, Misc2, stack);
    } else {
      var p1 := NodeGoes(room, p, stack, ds[0]);
      p' := ContentGoes(room, p1, stack, ds[1..]);
      GoesThen(room, p, NodeText(ds[0]), p1, NodeTokens(ds[0]), ContentText(ds[1..]), p', ContentTokens(ds[1..]));
    }
  }
}
