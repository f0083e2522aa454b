/** What may stand around the root element, and whole documents. */
module YxmlProlog {
  import opened Bytes
  import opened Options
  import opened YxmlClient
  import opened YxmlData
  import opened YxmlDocument
  import opened YxmlLines
  import opened YxmlMarkup
  import opened YxmlSpec
  import opened YxmlTree

  /// Declarations of the document type

  const UPPER_D: Byte := 68

  lemma DoctypeTable(c: Ctl, ch: Byte)
    ensures c.state.Lee1?
            ==> Control(c, UPPER_D) == Move(c.(state := Literal, next := Dt0, literal := Text("OCTYPE")), Nothing)
    ensures c.state.Dt0? && ch == GT ==> Control(c, ch) == Move(c.(state := Misc1), Nothing)
    ensures c.state.Dt0? && ch == LT ==> Control(c, ch) == Move(c.(state := Dt2), Nothing)
    ensures c.state.Dt0? && ch != GT && ch != LT && !IsQuote(ch) ==> Control(c, ch) == Move(c, Nothing)
    ensures c.state.Dt4? && ch != GT && !IsQuote(ch) ==> Control(c, ch) == Move(c, Nothing)
    ensures c.state.Dt4? && ch == GT ==> Control(c, ch) == Move(c.(state := Dt0), Nothing)
    ensures (c.state.Dt0? || c.state.Dt4?) && IsQuote(ch)
            ==> Control(c, ch) == Move(c.(state := Dt1, quote := ch, next := c.state), Nothing)
    ensures c.state.Dt1? ==> Control(c, ch) == if ch == c.quote then Move(c.(state := c.next), Nothing)
            else Move(c, Nothing)
    ensures c.state.Dt2? && ch == ASK ==> Control(c, ch) == Move(c.(state := Pi0, next := Dt0), Nothing)
    ensures c.state.Dt2? && ch == BANG ==> Control(c, ch) == Move(c.(state := Dt3), Nothing)
    ensures c.state.Dt3? ==> Control(c, ch) == if ch == DASH then Move(c.(state := Comment1, next := Dt0), Nothing)
                                               else Move(c.(state := Dt4), Nothing)
  {
  }

  /** Loose octets and quoted strings. */
  datatype Bit = Loose(octet: Byte) | Quoted(quote: Byte, text: seq<Byte>)

  predicate IsBit(state: State, b: Bit) {
    match b
    case Loose(octet) => IsPlain(octet) && octet != GT && !IsQuote(octet) && (state.Dt0? ==> octet != LT)
    case Quoted(quote, text) => IsQuote(quote) && forall i :: 0 <= i < |text| ==> IsPlain(text[i]) && text[i] != quote
  }

  function BitText(b: Bit): seq<Byte> {
    if b.Loose? then [b.octet] else [b.quote] + b.text + [b.quote]
  }

  lemma QuotedGoes(room: nat, p: Parser, state: State, quote: Byte, t: seq<Byte>) returns (p': Parser)
    requires On(p, state, []) && (state.Dt0? || state.Dt4?) && IsBit(state, Quoted(quote, t))
    ensures On(p', state, []) && Goes(room, p, [quote] + t + [quote], p', [])
  {
    hide Goes, Control, On, IsQuote;
    StateOn(p, state, []);
    NamesArePlain(quote);
    DoctypeTable(p.ctl, quote);
    var p1 := Quietly(room, p, state, [], quote, Dt1);
    forall i | 0 <= i < |t|
      ensures Control(p1.ctl, t[i]) == Move(p1.ctl, Nothing)
    {
      DoctypeTable(p1.ctl, t[i]);
    }
    Stays(room, p1, Dt1, [], t);
    DoctypeTable(p1.ctl, quote);
    p' := Quietly(room, p1, Dt1, [], quote, state);
    GoesAfter(room, p, [quote], p1, t, p1, []);
    GoesAfter(room, p, [quote] + t, p1, [quote], p', []);
  }

  lemma BitGoes(room: nat, p: Parser, state: State, b: Bit) returns (p': Parser)
    requires On(p, state, []) && (state.Dt0? || state.Dt4?) && IsBit(state, b)
    ensures On(p', state, []) && Goes(room, p, BitText(b), p', [])
  {
    hide Goes, Control, On, IsQuote;
    StateOn(p, state, []);
    if b.Loose? {
      DoctypeTable(p.ctl, b.octet);
      p' := Quietly(room, p, state, [], b.octet, state);
    } else {
      p' := QuotedGoes(room, p, state, b.quote, b.text);
    }
  }

  predicate AreBits(state: State, bs: seq<Bit>) {
    forall i :: 0 <= i < |bs| ==> IsBit(state, bs[i])
  }

  function BitsText(bs: seq<Bit>): seq<Byte> {
    if bs == [] then [] else BitText(bs[0]) + BitsText(bs[1..])
  }

  lemma {:induction false} BitsGo(room: nat, p: Parser, state: State, bs: seq<Bit>) returns (p': Parser)
    requires On(p, state, []) && (state.Dt0? || state.Dt4?) && AreBits(state, bs)
    ensures On(p', state, []) && Goes(room, p, BitsText(bs), p', [])
    decreases |bs|
  {
    hide Goes, On, IsBit, BitText;
    if bs == [] {
      p' := p;
      GoesNothing(room, p, state, []);
    } else {
      var p1 := BitGoes(room, p, state, bs[0]);
      p' := BitsGo(room, p1, state, bs[1..]);
      GoesAfter(room, p, BitText(bs[0]), p1, BitsText(bs[1..]), p', []);
    }
  }

  /** Parts of a declaration: bits, and in the internal subset comments, instructions and markup declarations. */
  datatype Part =
    | Bit(bit: Bit)
    | Remarked(text: seq<Byte>)
    | Ordered(name: Name, sep: seq<Byte>, text: seq<Byte>)
    | Declared(first: Byte, bits: seq<Bit>)

  predicate IsPart(part: Part) {
    match part
    case Bit(bit) => IsBit(Dt0, bit)
    case Remarked(text) => IsCommentText(text)
    case Ordered(name, sep, text) => IsInstruction(name, sep, text)
    case Declared(first, bits) => IsPlain(first) && first != DASH && AreBits(Dt4, bits)
  }

  function PartText(part: Part): seq<Byte> {
    match part
    case Bit(bit) => BitText(bit)
    case Remarked(text) => [LT] + [BANG] + [DASH] + CommentTail(text)
    case Ordered(name, sep, text) => [LT] + [ASK] + name + PiTail(sep, text)
    case Declared(first, bits) => [LT] + [BANG] + [first] + BitsText(bits) + [GT]
  }

  function PartTokens(part: Part): seq<Token> {
    if part.Ordered? then PiTokens(part.name, part.text) else []
  }

  function PartRoom(part: Part): nat {
    if part.Ordered? then |part.name| + 1 else 0
  }

  /** The first two octets of markup in the internal subset. */
  lemma SubsetHead(room: nat, p: Parser, octet: Byte) returns (p': Parser)
    requires On(p, Dt0, []) && (octet == BANG || octet == ASK)
    ensures On(p', if octet == BANG then Dt3 else Pi0, []) && (octet == ASK ==> p'.ctl.next == Dt0)
    ensures Goes(room, p, [LT] + [octet], p', [])
  {
    hide Goes, Control, On;
    StateOn(p, Dt0, []);
    DoctypeTable(p.ctl, LT);
    var p1 := Quietly(room, p, Dt0, [], LT, Dt2);
    DoctypeTable(p1.ctl, octet);
    p' := Quietly(room, p1, Dt2, [], octet, if octet == BANG then Dt3 else Pi0);
    GoesAfter(room, p, [LT], p1, [octet], p', []);
  }

  lemma RemarkedGoes(room: nat, p: Parser, t: seq<Byte>) returns (p': Parser)
    requires On(p, Dt0, []) && IsCommentText(t)
    ensures On(p', Dt0, []) && Goes(room, p, PartText(Remarked(t)), p', [])
  {
    hide Goes, Control, On, IsCommentText, CommentTail;
    var p1 := SubsetHead(room, p, BANG);
    StateOn(p1, Dt3, []);
    DoctypeTable(p1.ctl, DASH);
    var p2 := Quietly(room, p1, Dt3, [], DASH, Comment1);
    p' := CommentRest(room, p2, [], t);
    GoesAfter(room, p, [LT] + [BANG], p1, [DASH], p2, []);
    GoesAfter(room, p, [LT] + [BANG] + [DASH], p2, CommentTail(t), p', []);
  }

  lemma OrderedGoes(room: nat, p: Parser, n: Name, sep: seq<Byte>, t: seq<Byte>) returns (p': Parser)
    requires On(p, Dt0, []) && IsInstruction(n, sep, t) && |n| + 1 < room
    ensures On(p', Dt0, []) && Goes(room, p, PartText(Ordered(n, sep, t)), p', PiTokens(n, t))
  {
    hide Goes, On, IsXmlTag, IsXml, IsPiText, AreBlanks, PiTail, PiTokens, Size;
    NoNames();
    var p1 := SubsetHead(room, p, ASK);
    var p2 := PiNameGoes(room, p1, [], n);
    p' := PiRest(room, p2, Pi1, [], n, sep, t);
    GoesAfter(room, p, [LT] + [ASK], p1, n, p2, []);
    GoesAfter(room, p, [LT] + [ASK] + n, p2, PiTail(sep, t), p', PiTokens(n, t));
  }

  lemma DeclaredGoes(room: nat, p: Parser, first: Byte, bits: seq<Bit>) returns (p': Parser)
    requires On(p, Dt0, []) && IsPlain(first) && first != DASH && AreBits(Dt4, bits)
    ensures On(p', Dt0, []) && Goes(room, p, PartText(Declared(first, bits)), p', [])
  {
    hide Goes, Control, On, AreBits, BitsText;
    var p1 := SubsetHead(room, p, BANG);
    StateOn(p1, Dt3, []);
    DoctypeTable(p1.ctl, first);
    var p2 := Quietly(room, p1, Dt3, [], first, Dt4);
    var p3 := BitsGo(room, p2, Dt4, bits);
    StateOn(p3, Dt4, []);
    DoctypeTable(p3.ctl, GT);
    p' := Quietly(room, p3, Dt4, [], GT, Dt0);
    GoesAfter(room, p, [LT] + [BANG], p1, [first], p2, []);
    GoesAfter(room, p, [LT] + [BANG] + [first], p2, BitsText(bits), p3, []);
    GoesAfter(room, p, [LT] + [BANG] + [first] + BitsText(bits), p3, [GT], p', []);
  }

  lemma PartGoes(room: nat, p: Parser, part: Part) returns (p': Parser)
    requires On(p, Dt0, []) && IsPart(part) && PartRoom(part) < room
    ensures On(p', Dt0, []) && Goes(room, p, PartText(part), p', PartTokens(part))
  {
    hide Goes, On, PartText, IsInstruction, IsCommentText, AreBits, PiTokens;
    if part.Bit? {
      p' := BitGoes(room, p, Dt0, part.bit);
      BitIsPart(part.bit);
    } else if part.Remarked? {
      p' := RemarkedGoes(room, p, part.text);
    } else if part.Ordered? {
      p' := OrderedGoes(room, p, part.name, part.sep, part.text);
    } else {
      p' := DeclaredGoes(room, p, part.first, part.bits);
    }
  }

  lemma BitIsPart(bit: Bit)
    ensures PartText(Part.Bit(bit)) == BitText(bit)
  {
  }

  predicate AreParts(ps: seq<Part>) {
    forall i :: 0 <= i < |ps| ==> IsPart(ps[i])
  }

  function PartsText(ps: seq<Part>): seq<Byte> {
    if ps == [] then [] else PartText(ps[0]) + PartsText(ps[1..])
  }

  function PartsTokens(ps: seq<Part>): seq<Token> {
    if ps == [] then [] else PartTokens(ps[0]) + PartsTokens(ps[1..])
  }

  function PartsRoom(ps: seq<Part>): nat {
    if ps == [] then 0 else if PartRoom(ps[0]) > PartsRoom(ps[1..]) then PartRoom(ps[0]) else PartsRoom(ps[1..])
  }

  lemma {:induction false} PartsGo(room: nat, p: Parser, ps: seq<Part>) returns (p': Parser)
    requires On(p, Dt0, []) && AreParts(ps) && PartsRoom(ps) < room
    ensures On(p', Dt0, []) && Goes(room, p, PartsText(ps), p', PartsTokens(ps))
    decreases |ps|
  {
    hide Goes, On, IsPart, PartText, PartTokens, PartRoom;
    if ps == [] {
      p' := p;
      GoesNothing(room, p, Dt0, []);
    } else {
      var p1 := PartGoes(room, p, ps[0]);
      p' := PartsGo(room, p1, ps[1..]);
      GoesThen(room, p, PartText(ps[0]), p1, PartTokens(ps[0]), PartsText(ps[1..]), p', PartsTokens(ps[1..]));
    }
  }

  function DoctypeHeadText(): seq<Byte> {
    [LT] + [BANG] + [UPPER_D] + Text("OCTYPE")
  }

  function DoctypeText(ps: seq<Part>): seq<Byte> {
    DoctypeHeadText() + PartsText(ps) + [GT]
  }

  lemma PlainDoctype()
    ensures ArePlain(Text("OCTYPE"))
  {
  }

  lemma DoctypeHead(room: nat, p: Parser, from: State) returns (p': Parser)
    requires On(p, from, []) && (from.Init? || from.Misc0? || from.Misc1?)
    ensures On(p', Dt0, []) && Goes(room, p, DoctypeHeadText(), p', [])
  {
    hide Goes, Control, On, Text, ArePlain;
    PlainDoctype();
    StateOn(p, from, []);
    StartTable(p.ctl);
    var p1 := Quietly(room, p, from, [], LT, Marked(from));
    StateOn(p1, Marked(from), []);
    CommentTable(p1.ctl, BANG);
    var p2 := Quietly(room, p1, Marked(from), [], BANG, Lee1);
    DoctypeTable(p2.ctl, UPPER_D);
    var p3 := Quietly(room, p2, Lee1, [], UPPER_D, Literal);
    p' := LiteralGoes(room, p3, [], Text("OCTYPE"));
    GoesAfter(room, p, [LT], p1, [BANG], p2, []);
    GoesAfter(room, p, [LT] + [BANG], p2, [UPPER_D], p3, []);
    GoesAfter(room, p, [LT] + [BANG] + [UPPER_D], p3, Text("OCTYPE"), p', []);
  }

  lemma DoctypeGoes(room: nat, p: Parser, from: State, ps: seq<Part>) returns (p': Parser)
    requires On(p, from, []) && (from.Init? || from.Misc0? || from.Misc1?) && AreParts(ps) && PartsRoom(ps) < room
    ensures On(p', Misc1, []) && Goes(room, p, DoctypeText(ps), p', PartsTokens(ps))
  {
    hide Goes, Control, On, DoctypeHeadText, AreParts, PartsText, PartsTokens, PartsRoom;
    var p1 := DoctypeHead(room, p, from);
    var p2 := PartsGo(room, p1, ps);
    StateOn(p2, Dt0, []);
    DoctypeTable(p2.ctl, GT);
    p' := Quietly(room, p2, Dt0, [], GT, Misc1);
    GoesAfter(room, p, DoctypeHeadText(), p1, PartsText(ps), p2, PartsTokens(ps));
    GoesBefore(room, p, DoctypeHeadText() + PartsText(ps), p2, PartsTokens(ps), [GT], p');
  }

  /// What may stand outside the root

  datatype Misc =
    | Blank(octet: Byte)
    | Remark(text: seq<Byte>)
    | Order(name: Name, sep: seq<Byte>, text: seq<Byte>)
    | Doctype(parts: seq<Part>)

  predicate IsMisc(from: State, m: Misc) {
    match m
    case Blank(octet) => IsSpace(octet)
    case Remark(text) => IsCommentText(text)
    case Order(name, sep, text) => IsInstruction(name, sep, text)
    case Doctype(parts) => !from.Misc3? && AreParts(parts)
  }

  function NextState(from: State, m: Misc): State {
    match m
    case Blank(_) => if from.Init? then Misc0 else from
    case Remark(_) => YxmlMarkup.After(from)
    case Order(_, _, _) => YxmlMarkup.After(from)
    case Doctype(_) => Misc1
  }

  function MiscText(m: Misc): seq<Byte> {
    match m
    case Blank(octet) => [octet]
    case Remark(text) => CommentText(text)
    case Order(name, sep, text) => PiText(name, sep, text)
    case Doctype(parts) => DoctypeText(parts)
  }

  function MiscTokens(m: Misc): seq<Token> {
    if m.Order? then PiTokens(m.name, m.text) else if m.Doctype? then PartsTokens(m.parts) else []
  }

  function MiscRoom(m: Misc): nat {
    if m.Order? then |m.name| + 1 else if m.Doctype? then PartsRoom(m.parts) else 0
  }

  /** Before the root or behind it. */
  predicate IsOutside(s: State) {
    s.Init? || s.Misc0? || s.Misc1? || s.Misc3?
  }

  lemma FirstBlankTable(c: Ctl, ch: Byte)
    ensures c.state.Init? && IsSpace(ch) ==> Control(c, ch) == Move(c.(state := Misc0), Nothing)
  {
  }

  lemma BlankGoes(room: nat, p: Parser, from: State, octet: Byte) returns (p': Parser)
    requires On(p, from, []) && IsOutside(from) && IsSpace(octet)
    ensures On(p', NextState(from, Blank(octet)), []) && Goes(room, p, [octet], p', [])
  {
    hide Goes, Control, On, IsSpace;
    StateOn(p, from, []);
    NamesArePlain(octet);
    FirstBlankTable(p.ctl, octet);
    BlankTable(p.ctl, octet);
    p' := Quietly(room, p, from, [], octet, NextState(from, Blank(octet)));
  }

  lemma MiscGoes(room: nat, p: Parser, from: State, m: Misc) returns (p': Parser)
    requires On(p, from, []) && IsOutside(from) && IsMisc(from, m) && MiscRoom(m) < room
    ensures On(p', NextState(from, m), []) && Goes(room, p, MiscText(m), p', MiscTokens(m))
            && IsOutside(NextState(from, m))
  {
    hide Goes, On, CommentText, PiText, DoctypeText, PiTokens, PartsTokens, IsCommentText, IsInstruction, AreParts,
         IsSpace, Size;
    NoNames();
    if m.Blank? {
      p' := BlankGoes(room, p, from, m.octet);
    } else if m.Remark? {
      p' := CommentGoes(room, p, from, [], m.text);
    } else if m.Order? {
      p' := PiGoes(room, p, from, [], m.name, m.sep, m.text);
    } else {
      p' := DoctypeGoes(room, p, from, m.parts);
    }
  }

  lemma NoNames()
    ensures Size([]) == 0
  {
  }

  predicate AreMiscs(from: State, ms: seq<Misc>)
    decreases |ms|
  {
    ms == [] || (IsMisc(from, ms[0]) && AreMiscs(NextState(from, ms[0]), ms[1..]))
  }

  function EndState(from: State, ms: seq<Misc>): State
    decreases |ms|
  {
    if ms == [] then from else EndState(NextState(from, ms[0]), ms[1..])
  }

  function MiscsText(ms: seq<Misc>): seq<Byte> {
    if ms == [] then [] else MiscText(ms[0]) + MiscsText(ms[1..])
  }

  function MiscsTokens(ms: seq<Misc>): seq<Token> {
    if ms == [] then [] else MiscTokens(ms[0]) + MiscsTokens(ms[1..])
  }

  function MiscsRoom(ms: seq<Misc>): nat {
    if ms == [] then 0 else if MiscRoom(ms[0]) > MiscsRoom(ms[1..]) then MiscRoom(ms[0]) else MiscsRoom(ms[1..])
  }

  lemma {:induction false} MiscsGo(room: nat, p: Parser, from: State, ms: seq<Misc>) returns (p': Parser)
    requires On(p, from, []) && IsOutside(from) && AreMiscs(from, ms) && MiscsRoom(ms) < room
    ensures On(p', EndState(from, ms), []) && Goes(room, p, MiscsText(ms), p', MiscsTokens(ms))
            && IsOutside(EndState(from, ms))
    decreases |ms|
  {
    hide Goes, On, IsMisc, NextState, MiscText, MiscTokens, MiscRoom, IsOutside;
    if ms == [] {
      p' := p;
      GoesNothing(room, p, from, []);
    } else {
      var p1 := MiscGoes(room, p, from, ms[0]);
      p' := MiscsGo(room, p1, NextState(from, ms[0]), ms[1..]);
      GoesThen(room, p, MiscText(ms[0]), p1, MiscTokens(ms[0]), MiscsText(ms[1..]), p', MiscsTokens(ms[1..]));
    }
  }

  /// The declaration of the version

  const LOWER_E: Byte := 101
  const LOWER_N: Byte := 110
  const LOWER_S: Byte := 115
  const LOWER_V: Byte := 118
  const LOWER_Y: Byte := 121

  const XML: Name := [LOWER_X, LOWER_M, LOWER_L]

  lemma DeclTable(c: Ctl, ch: Byte)
    ensures c.state.Leq0? ==> Control(c, LOWER_X) == Move(c.(state := XmlDecl0, next := Misc1), PiStart)
    ensures c.state.XmlDecl0? ==> Control(c, LOWER_M) == Move(c.(state := XmlDecl1), PiName)
    ensures c.state.XmlDecl1? ==> Control(c, LOWER_L) == Move(c.(state := XmlDecl2), PiName)
    ensures c.state.XmlDecl2? && IsSpace(ch) ==> Control(c, ch) == Move(c.(state := XmlDecl3), PiAbort)
    ensures c.state.XmlDecl4? && IsSpace(ch) ==> Control(c, ch) == Move(c.(state := XmlDecl5), Nothing)
    ensures c.state.XmlDecl6? && IsSpace(ch) ==> Control(c, ch) == Move(c.(state := XmlDecl7), Nothing)
    ensures BehindOption(c.state) && ch == ASK ==> Control(c, ch) == Move(c.(state := XmlDecl9), Nothing)
    ensures c.state.XmlDecl9? && ch == GT ==> Control(c, ch) == Move(c.(state := Misc1), Nothing)
  {
  }

  /** Behind the version, the encoding or the answer, with or without blanks. */
  predicate BehindOption(s: State) {
    s.XmlDecl4? || s.XmlDecl5? || s.XmlDecl6? || s.XmlDecl7? || s.XmlDecl8?
  }

  lemma VersionTable(c: Ctl, ch: Byte)
    ensures c.state.XmlDecl3?
            ==> Control(c, LOWER_V) == Move(c.(state := Literal, next := Ver0, literal := Text("ersion")), Nothing)
    ensures c.state.Ver0? ==> Control(c, EQUALS) == Move(c.(state := Ver1), Nothing)
    ensures c.state.Ver1? && IsQuote(ch) ==> Control(c, ch) == Move(Ctl(Literal, Ver2, ch, Text("1.")), Nothing)
    ensures c.state.Ver2? && IsNum(ch) ==> Control(c, ch) == Move(c.(state := Ver3), Nothing)
    ensures c.state.Ver3? && IsNum(ch) ==> Control(c, ch) == Move(c, Nothing)
    ensures c.state.Ver3? && IsQuote(ch) && c.quote == ch ==> Control(c, ch) == Move(c.(state := XmlDecl4), Nothing)
  {
  }

  lemma EncodingTable(c: Ctl, ch: Byte)
    ensures c.state.XmlDecl5?
            ==> Control(c, LOWER_E) == Move(c.(state := Literal, next := Enc0, literal := Text("ncoding")), Nothing)
    ensures c.state.Enc0? ==> Control(c, EQUALS) == Move(c.(state := Enc1), Nothing)
    ensures c.state.Enc1? && IsQuote(ch) ==> Control(c, ch) == Move(c.(state := Enc2, quote := ch), Nothing)
    ensures c.state.Enc2? && IsAlpha(ch) ==> Control(c, ch) == Move(c.(state := Enc3), Nothing)
    ensures c.state.Enc3? && IsEncName(ch) ==> Control(c, ch) == Move(c, Nothing)
    ensures c.state.Enc3? && IsQuote(ch) && c.quote == ch ==> Control(c, ch) == Move(c.(state := XmlDecl6), Nothing)
  {
  }

  lemma StandaloneTable(c: Ctl, ch: Byte)
    ensures c.state.XmlDecl5? || c.state.XmlDecl7?
            ==> Control(c, LOWER_S) == Move(c.(state := Literal, next := Std0, literal := Text("tandalone")), Nothing)
    ensures c.state.Std0? ==> Control(c, EQUALS) == Move(c.(state := Std1), Nothing)
    ensures c.state.Std1? && IsQuote(ch) ==> Control(c, ch) == Move(c.(state := Std2, quote := ch), Nothing)
    ensures c.state.Std2?
            ==> Control(c, LOWER_Y) == Move(c.(state := Literal, next := Std3, literal := Text("es")), Nothing)
    ensures c.state.Std2?
            ==> Control(c, LOWER_N) == Move(c.(state := Literal, next := Std3, literal := Text("o")), Nothing)
    ensures c.state.Std3? && IsQuote(ch) && c.quote == ch ==> Control(c, ch) == Move(c.(state := XmlDecl8), Nothing)
  {
  }

  lemma PlainWords()
    ensures ArePlain(Text("ersion")) && ArePlain(Text("1.")) && ArePlain(Text("ncoding")) && ArePlain(Text("tandalone"))
    ensures ArePlain(Text("es")) && ArePlain(Text("o"))
  {
  }

  lemma PlainClasses(ch: Byte)
    ensures IsNum(ch) || IsAlpha(ch) || IsEncName(ch) || IsQuote(ch) ==> IsPlain(ch)
    ensures IsQuote(ch) ==> !IsEncName(ch) && !IsNum(ch)
  {
  }

  /** The name that a declaration shares with instructions. */
  lemma XmlNameGoes(room: nat, p: Parser) returns (p': Parser)
    requires On(p, Leq0, []) && room > 4
    ensures On(p', XmlDecl2, [] + [[LOWER_X] + [LOWER_M] + [LOWER_L]]) && Goes(room, p, XML, p', [])
  {
    hide Goes, Control, On, Size;
    StateOn(p, Leq0, []);
    NoNames();
    DeclTable(p.ctl, 0);
    var p1 := PushName(room, p, Leq0, [], LOWER_X, XmlDecl0);
    StateOn(p1, XmlDecl0, [] + [[LOWER_X]]);
    DeclTable(p1.ctl, 0);
    var p2 := GrowName(room, p1, XmlDecl0, [], [LOWER_X], LOWER_M, XmlDecl1);
    StateOn(p2, XmlDecl1, [] + [[LOWER_X] + [LOWER_M]]);
    DeclTable(p2.ctl, 0);
    p' := GrowName(room, p2, XmlDecl1, [], [LOWER_X] + [LOWER_M], LOWER_L, XmlDecl2);
    GoesAfter(room, p, [LOWER_X], p1, [LOWER_M], p2, []);
    GoesAfter(room, p, [LOWER_X] + [LOWER_M], p2, [LOWER_L], p', []);
    assert XML == [LOWER_X] + [LOWER_M] + [LOWER_L];
  }

  /** A blank shows that this is no instruction, and the name is given up. */
  lemma GivesUp(room: nat, p: Parser, n: Name, octet: Byte) returns (p': Parser)
    requires On(p, XmlDecl2, [] + [n]) && IsSpace(octet)
    ensures On(p', XmlDecl3, []) && Goes(room, p, [octet], p', [])
  {
    DeclTable(p.ctl, octet);
    NamesArePlain(octet);
    hide Control, Shape, IsSpace;
    var r := Parse(room, p, octet);
    GoesOne(room, p, octet, r);
    p' := r.p;
    assert ([] + [n])[..0] == [];
  }

  lemma DeclHead(room: nat, p: Parser, from: State) returns (p': Parser)
    requires On(p, from, []) && (from.Init? || from.Misc0?) && room > 4
    ensures On(p', XmlDecl2, [] + [[LOWER_X] + [LOWER_M] + [LOWER_L]]) && Goes(room, p, [LT] + [ASK] + XML, p', [])
  {
    hide Goes, Control, On;
    StateOn(p, from, []);
    StartTable(p.ctl);
    var p1 := Quietly(room, p, from, [], LT, Le0);
    FirstNameTable(p1.ctl, ASK);
    var p2 := Quietly(room, p1, Le0, [], ASK, Leq0);
    p' := XmlNameGoes(room, p2);
    GoesAfter(room, p, [LT], p1, [ASK], p2, []);
    GoesAfter(room, p, [LT] + [ASK], p2, XML, p', []);
  }

  /// Its parts

  /** Blanks before a part and around its equals sign. */
  datatype Spacing = Spacing(lead: seq<Byte>, before: seq<Byte>, after: seq<Byte>)

  predicate IsSpacing(w: Spacing) {
    w.lead != [] && AreBlanks(w.lead) && AreBlanks(w.before) && AreBlanks(w.after)
  }

  predicate PassesDeclBlanks(s: State) {
    || s.XmlDecl3? || s.XmlDecl5? || s.XmlDecl7? || s.XmlDecl8?
    || s.Ver0? || s.Ver1? || s.Enc0? || s.Enc1? || s.Std0? || s.Std1?
  }

  lemma DeclBlankTable(c: Ctl, ch: Byte)
    ensures PassesDeclBlanks(c.state) && IsSpace(ch) ==> Control(c, ch) == Move(c, Nothing)
  {
  }

  lemma DeclBlanksGo(room: nat, p: Parser, state: State, w: seq<Byte>)
    requires On(p, state, []) && PassesDeclBlanks(state) && AreBlanks(w)
    ensures Goes(room, p, w, p, [])
  {
    hide Goes, Control, On, IsSpace;
    StateOn(p, state, []);
    forall i | 0 <= i < |w|
      ensures IsPlain(w[i]) && Control(p.ctl, w[i]) == Move(p.ctl, Nothing)
    {
      NamesArePlain(w[i]);
      DeclBlankTable(p.ctl, w[i]);
    }
    Stays(room, p, state, [], w);
  }

  /** The state behind the blanks that follow a part. */
  function Spaced(s: State): State {
    if s.XmlDecl2? then XmlDecl3 else if s.XmlDecl4? then XmlDecl5 else if s.XmlDecl6? then XmlDecl7 else s
  }

  /** The first blank behind a part, and the others. */
  lemma DeclLeadGoes(room: nat, p: Parser, from: State, w: seq<Byte>) returns (p': Parser)
    requires On(p, from, []) && (from.XmlDecl4? || from.XmlDecl6? || from.XmlDecl8?) && w != [] && AreBlanks(w)
    ensures On(p', Spaced(from), []) && Goes(room, p, w, p', [])
  {
    hide Goes, Control, On, IsSpace;
    StateOn(p, from, []);
    DeclTable(p.ctl, w[0]);
    DeclBlankTable(p.ctl, w[0]);
    NamesArePlain(w[0]);
    p' := Quietly(room, p, from, [], w[0], Spaced(from));
    DeclBlanksGo(room, p', Spaced(from), w[1..]);
    GoesAfter(room, p, [w[0]], p', w[1..], p', []);
    assert w == [w[0]] + w[1..];
  }

  lemma XmlLeadGoes(room: nat, p: Parser, n: Name, w: seq<Byte>) returns (p': Parser)
    requires On(p, XmlDecl2, [] + [n]) && w != [] && AreBlanks(w)
    ensures On(p', XmlDecl3, []) && Goes(room, p, w, p', [])
  {
    hide Goes, On, IsSpace;
    p' := GivesUp(room, p, n, w[0]);
    DeclBlanksGo(room, p', XmlDecl3, w[1..]);
    GoesAfter(room, p, [w[0]], p', w[1..], p', []);
    assert w == [w[0]] + w[1..];
  }

  /** The name of a part, its equals sign and its quote. */
  function PartHead(first: Byte, rest: seq<Byte>, w: Spacing, quote: Byte): seq<Byte> {
    [first] + rest + (w.before + [EQUALS]) + (w.after + [quote])
  }

  /** The states of a part: before its name, before and behind the equals sign, and behind the quote. */
  datatype Steps = Steps(from: State, equals: State, quoted: State, to: State)

  ghost predicate Takes(c: Ctl, s: Steps, first: Byte, rest: seq<Byte>, quote: Byte) {
    && PassesDeclBlanks(s.equals) && PassesDeclBlanks(s.quoted) && IsQuote(quote) && IsPlain(first)
    && ArePlain(rest) && rest != []
    && (c.state == s.from
        ==> Control(c, first) == Move(c.(state := Literal, next := s.equals, literal := rest), Nothing))
    && (c.state == s.equals ==> Control(c, EQUALS) == Move(c.(state := s.quoted), Nothing))
    && (c.state == s.quoted ==> Control(c, quote).action == Nothing && Control(c, quote).ctl.state == s.to
                                && Control(c, quote).ctl.quote == quote)
  }

  lemma PartHeadGoes(room: nat, p: Parser, s: Steps, first: Byte, rest: seq<Byte>, w: Spacing, quote: Byte)
    returns (p': Parser, c: Ctl)
    requires On(p, s.from, []) && IsSpacing(w) && !s.to.Etag1? && (forall c :: Takes(c, s, first, rest, quote))
    ensures On(p', s.to, []) && Goes(room, p, PartHead(first, rest, w, quote), p', [])
    ensures c.state == s.quoted && p'.ctl == Control(c, quote).ctl && p'.ctl.quote == quote
  {
    hide Goes, Control, On, IsSpace, ArePlain, IsQuote, PassesDeclBlanks;
    StateOn(p, s.from, []);
    PlainClasses(quote);
    assert Takes(p.ctl, s, first, rest, quote);
    var p1 := Quietly(room, p, s.from, [], first, Literal);
    StateOn(p1, Literal, []);
    NotClosing(s.equals);
    NotClosing(s.quoted);
    var p2 := LiteralGoes(room, p1, [], rest);
    StateOn(p2, s.equals, []);
    DeclBlanksGo(room, p2, s.equals, w.before);
    assert Takes(p2.ctl, s, first, rest, quote);
    var p3 := Quietly(room, p2, s.equals, [], EQUALS, s.quoted);
    StateOn(p3, s.quoted, []);
    DeclBlanksGo(room, p3, s.quoted, w.after);
    assert Takes(p3.ctl, s, first, rest, quote);
    p' := Quietly(room, p3, s.quoted, [], quote, s.to);
    c := p3.ctl;
    GoesAfter(room, p, [first], p1, rest, p2, []);
    GoesAfter(room, p2, w.before, p2, [EQUALS], p3, []);
    GoesAfter(room, p, [first] + rest, p2, w.before + [EQUALS], p3, []);
    GoesAfter(room, p3, w.after, p3, [quote], p', []);
    GoesAfter(room, p, [first] + rest + (w.before + [EQUALS]), p3, w.after + [quote], p', []);
  }

  lemma NotClosing(s: State)
    ensures PassesDeclBlanks(s) ==> !s.Etag1?
  {
  }

  /// Version

  datatype Version = Version(space: Spacing, quote: Byte, digits: seq<Byte>)

  predicate IsVersion(v: Version) {
    && IsSpacing(v.space) && IsQuote(v.quote) && v.digits != []
    && forall i :: 0 <= i < |v.digits| ==> IsNum(v.digits[i])
  }

  function VersionText(v: Version): seq<Byte> {
    v.space.lead + PartHead(LOWER_V, Text("ersion"), v.space, v.quote) + (Text("1.") + (v.digits + [v.quote]))
  }

  lemma VersionTakes(c: Ctl, quote: Byte)
    requires IsQuote(quote)
    ensures Takes(c, Steps(XmlDecl3, Ver0, Ver1, Literal), LOWER_V, Text("ersion"), quote)
    ensures c.state.Ver1? ==> Control(c, quote).ctl == Ctl(Literal, Ver2, quote, Text("1."))
  {
    hide Control, Text, IsQuote, ArePlain;
    PlainWords();
    VersionTable(c, quote);
  }

  lemma VersionHead(room: nat, p: Parser, w: Spacing, quote: Byte) returns (p': Parser)
    requires On(p, XmlDecl3, []) && IsSpacing(w) && IsQuote(quote)
    ensures On(p', Literal, []) && p'.ctl == Ctl(Literal, Ver2, quote, Text("1."))
    ensures Goes(room, p, PartHead(LOWER_V, Text("ersion"), w, quote), p', [])
  {
    hide Goes, Control, On, Text, IsQuote, Takes, IsSpacing, PartHead;
    var s := Steps(XmlDecl3, Ver0, Ver1, Literal);
    forall c
      ensures Takes(c, s, LOWER_V, Text("ersion"), quote)
    {
      VersionTakes(c, quote);
    }
    var c;
    p', c := PartHeadGoes(room, p, s, LOWER_V, Text("ersion"), w, quote);
    VersionTakes(c, quote);
  }

  lemma DigitsGo(room: nat, p: Parser, v: Version) returns (p': Parser)
    requires On(p, Ver2, []) && p.ctl.quote == v.quote && IsVersion(v)
    ensures On(p', XmlDecl4, []) && Goes(room, p, v.digits + [v.quote], p', [])
  {
    hide Goes, Control, On, IsQuote, IsNum, IsSpacing;
    var digits, quote := v.digits, v.quote;
    StateOn(p, Ver2, []);
    PlainClasses(digits[0]);
    PlainClasses(quote);
    VersionTable(p.ctl, digits[0]);
    var p1 := Quietly(room, p, Ver2, [], digits[0], Ver3);
    StateOn(p1, Ver3, []);
    var rest := digits[1..];
    forall i | 0 <= i < |rest|
      ensures IsPlain(rest[i]) && Control(p1.ctl, rest[i]) == Move(p1.ctl, Nothing)
    {
      assert rest[i] == digits[i + 1];
      PlainClasses(rest[i]);
      VersionTable(p1.ctl, rest[i]);
    }
    Stays(room, p1, Ver3, [], rest);
    VersionTable(p1.ctl, quote);
    p' := Quietly(room, p1, Ver3, [], quote, XmlDecl4);
    GoesAfter(room, p, [digits[0]], p1, rest, p1, []);
    assert [digits[0]] + rest == digits;
    GoesAfter(room, p, digits, p1, [quote], p', []);
  }

  lemma VersionGoes(room: nat, p: Parser, n: Name, v: Version) returns (p': Parser)
    requires On(p, XmlDecl2, [] + [n]) && IsVersion(v)
    ensures On(p', XmlDecl4, []) && Goes(room, p, VersionText(v), p', [])
  {
    hide Goes, On, Text, IsQuote, IsNum, AreBlanks, PartHead, ArePlain;
    PlainWords();
    var p1 := XmlLeadGoes(room, p, n, v.space.lead);
    var p2 := VersionHead(room, p1, v.space, v.quote);
    var p3 := LiteralGoes(room, p2, [], Text("1."));
    p' := DigitsGo(room, p3, v);
    var head := PartHead(LOWER_V, Text("ersion"), v.space, v.quote);
    GoesAfter(room, p, v.space.lead, p1, head, p2, []);
    GoesAfter(room, p2, Text("1."), p3, v.digits + [v.quote], p', []);
    GoesAfter(room, p, v.space.lead + head, p2, Text("1.") + (v.digits + [v.quote]), p', []);
  }

  /// Encoding and standalone

  datatype Encoding = Encoding(space: Spacing, quote: Byte, name: seq<Byte>)

  predicate IsEncoding(e: Encoding) {
    && IsSpacing(e.space) && IsQuote(e.quote) && e.name != [] && IsAlpha(e.name[0])
    && forall i :: 0 <= i < |e.name| ==> IsEncName(e.name[i])
  }

  function EncodingText(e: Encoding): seq<Byte> {
    e.space.lead + PartHead(LOWER_E, Text("ncoding"), e.space, e.quote) + (e.name + [e.quote])
  }

  lemma EncodingTakes(c: Ctl, quote: Byte)
    requires IsQuote(quote)
    ensures Takes(c, Steps(XmlDecl5, Enc0, Enc1, Enc2), LOWER_E, Text("ncoding"), quote)
  {
    hide Control, Text, IsQuote, ArePlain;
    PlainWords();
    EncodingTable(c, quote);
  }

  lemma EncodingName(room: nat, p: Parser, e: Encoding) returns (p': Parser)
    requires On(p, Enc2, []) && p.ctl.quote == e.quote && IsEncoding(e)
    ensures On(p', XmlDecl6, []) && Goes(room, p, e.name + [e.quote], p', [])
  {
    hide Goes, Control, On, IsQuote, IsAlpha, IsEncName, IsSpacing;
    StateOn(p, Enc2, []);
    PlainClasses(e.name[0]);
    PlainClasses(e.quote);
    EncodingTable(p.ctl, e.name[0]);
    var p1 := Quietly(room, p, Enc2, [], e.name[0], Enc3);
    StateOn(p1, Enc3, []);
    var rest := e.name[1..];
    forall i | 0 <= i < |rest|
      ensures IsPlain(rest[i]) && Control(p1.ctl, rest[i]) == Move(p1.ctl, Nothing)
    {
      assert rest[i] == e.name[i + 1];
      PlainClasses(rest[i]);
      EncodingTable(p1.ctl, rest[i]);
    }
    Stays(room, p1, Enc3, [], rest);
    EncodingTable(p1.ctl, e.quote);
    p' := Quietly(room, p1, Enc3, [], e.quote, XmlDecl6);
    GoesAfter(room, p, [e.name[0]], p1, rest, p1, []);
    assert [e.name[0]] + rest == e.name;
    GoesAfter(room, p, e.name, p1, [e.quote], p', []);
  }

  lemma EncodingGoes(room: nat, p: Parser, e: Encoding) returns (p': Parser)
    requires On(p, XmlDecl4, []) && IsEncoding(e)
    ensures On(p', XmlDecl6, []) && Goes(room, p, EncodingText(e), p', [])
  {
    hide Goes, On, Text, IsQuote, IsAlpha, IsEncName, PartHead, Takes, Control, AreBlanks;
    var s, rest := Steps(XmlDecl5, Enc0, Enc1, Enc2), Text("ncoding");
    forall c
      ensures Takes(c, s, LOWER_E, rest, e.quote)
    {
      EncodingTakes(c, e.quote);
    }
    var p1 := DeclLeadGoes(room, p, XmlDecl4, e.space.lead);
    var p2, c := PartHeadGoes(room, p1, s, LOWER_E, rest, e.space, e.quote);
    p' := EncodingName(room, p2, e);
    var head := PartHead(LOWER_E, rest, e.space, e.quote);
    GoesAfter(room, p, e.space.lead, p1, head, p2, []);
    GoesAfter(room, p, e.space.lead + head, p2, e.name + [e.quote], p', []);
  }

  datatype Standalone = Standalone(space: Spacing, quote: Byte, yes: bool)

  function AnswerText(yes: bool): seq<Byte> {
    if yes then [LOWER_Y] + Text("es") else [LOWER_N] + Text("o")
  }

  predicate IsStandalone(a: Standalone) {
    IsSpacing(a.space) && IsQuote(a.quote)
  }

  function StandaloneText(a: Standalone): seq<Byte> {
    a.space.lead + PartHead(LOWER_S, Text("tandalone"), a.space, a.quote) + (AnswerText(a.yes) + [a.quote])
  }

  lemma StandaloneTakes(c: Ctl, from: State, quote: Byte)
    requires IsQuote(quote) && (from.XmlDecl5? || from.XmlDecl7?)
    ensures Takes(c, Steps(from, Std0, Std1, Std2), LOWER_S, Text("tandalone"), quote)
  {
    hide Control, Text, IsQuote, ArePlain;
    PlainWords();
    StandaloneTable(c, quote);
  }

  lemma AnswerGoes(room: nat, p: Parser, a: Standalone) returns (p': Parser)
    requires On(p, Std2, []) && p.ctl.quote == a.quote && IsQuote(a.quote)
    ensures On(p', XmlDecl8, []) && Goes(room, p, AnswerText(a.yes) + [a.quote], p', [])
  {
    hide Goes, Control, On, Text, ArePlain, IsQuote, AnswerText;
    PlainWords();
    PlainClasses(a.quote);
    var p1 := WordGoes(room, p, a.yes);
    StateOn(p1, Std3, []);
    StandaloneTable(p1.ctl, a.quote);
    p' := Quietly(room, p1, Std3, [], a.quote, XmlDecl8);
    GoesAfter(room, p, AnswerText(a.yes), p1, [a.quote], p', []);
  }

  lemma WordGoes(room: nat, p: Parser, yes: bool) returns (p': Parser)
    requires On(p, Std2, [])
    ensures On(p', Std3, []) && p'.ctl.quote == p.ctl.quote && Goes(room, p, AnswerText(yes), p', [])
  {
    hide Goes, Control, On, Text, ArePlain, IsQuote;
    PlainWords();
    StateOn(p, Std2, []);
    StandaloneTable(p.ctl, 0);
    var first, rest := if yes then LOWER_Y else LOWER_N, if yes then Text("es") else Text("o");
    var p1 := Quietly(room, p, Std2, [], first, Literal);
    p' := LiteralGoes(room, p1, [], rest);
    GoesAfter(room, p, [first], p1, rest, p', []);
  }

  lemma StandaloneGoes(room: nat, p: Parser, from: State, a: Standalone) returns (p': Parser)
    requires On(p, from, []) && (from.XmlDecl4? || from.XmlDecl6?) && IsStandalone(a)
    ensures On(p', XmlDecl8, []) && Goes(room, p, StandaloneText(a), p', [])
  {
    hide Goes, On, Text, IsQuote, AnswerText, PartHead, Takes, Control, AreBlanks;
    var s, rest := Steps(Spaced(from), Std0, Std1, Std2), Text("tandalone");
    forall c
      ensures Takes(c, s, LOWER_S, rest, a.quote)
    {
      StandaloneTakes(c, Spaced(from), a.quote);
    }
    var p1 := DeclLeadGoes(room, p, from, a.space.lead);
    var p2, c := PartHeadGoes(room, p1, s, LOWER_S, rest, a.space, a.quote);
    p' := AnswerGoes(room, p2, a);
    var head := PartHead(LOWER_S, rest, a.space, a.quote);
    GoesAfter(room, p, a.space.lead, p1, head, p2, []);
    GoesAfter(room, p, a.space.lead + head, p2, AnswerText(a.yes) + [a.quote], p', []);
  }

  /// All of it

  datatype Decl = Decl(version: Version, encoding: Option<Encoding>, standalone: Option<Standalone>, tail: seq<Byte>)

  predicate IsDecl(d: Decl) {
    && IsVersion(d.version) && (d.encoding.Some? ==> IsEncoding(d.encoding.value))
    && (d.standalone.Some? ==> IsStandalone(d.standalone.value)) && AreBlanks(d.tail)
  }

  function OptionsText(d: Decl): seq<Byte> {
    (if d.encoding.Some? then EncodingText(d.encoding.value) else [])
    + (if d.standalone.Some? then StandaloneText(d.standalone.value) else [])
  }

  function DeclText(d: Decl): seq<Byte> {
    [LT] + [ASK] + XML + VersionText(d.version) + OptionsText(d) + (d.tail + ([ASK] + [GT]))
  }

  function OptionsState(d: Decl): State {
    if d.standalone.Some? then XmlDecl8 else if d.encoding.Some? then XmlDecl6 else XmlDecl4
  }

  lemma OptionsGo(room: nat, p: Parser, d: Decl) returns (p': Parser)
    requires On(p, XmlDecl4, []) && IsDecl(d)
    ensures On(p', OptionsState(d), []) && Goes(room, p, OptionsText(d), p', [])
  {
    hide Goes, On, EncodingText, StandaloneText, IsVersion, IsEncoding, IsStandalone, AreBlanks;
    var text: seq<Byte>, p1, s1 := [], p, XmlDecl4;
    GoesNothing(room, p, XmlDecl4, []);
    if d.encoding.Some? {
      p1 := EncodingGoes(room, p, d.encoding.value);
      text, s1 := EncodingText(d.encoding.value), XmlDecl6;
    }
    if d.standalone.Some? {
      p' := StandaloneGoes(room, p1, s1, d.standalone.value);
      GoesAfter(room, p, text, p1, StandaloneText(d.standalone.value), p', []);
    } else {
      p' := p1;
      assert text + [] == text;
    }
  }

  lemma DeclEnds(room: nat, p: Parser, from: State, tail: seq<Byte>) returns (p': Parser)
    requires On(p, from, []) && (from.XmlDecl4? || from.XmlDecl6? || from.XmlDecl8?) && AreBlanks(tail)
    ensures On(p', Misc1, []) && Goes(room, p, tail + ([ASK] + [GT]), p', [])
  {
    hide Goes, Control, On, IsSpace;
    var p1, s1 := p, from;
    GoesNothing(room, p, from, []);
    if tail != [] {
      p1 := DeclLeadGoes(room, p, from, tail);
      s1 := Spaced(from);
    }
    StateOn(p1, s1, []);
    DeclTable(p1.ctl, ASK);
    var p2 := Quietly(room, p1, s1, [], ASK, XmlDecl9);
    DeclTable(p2.ctl, GT);
    p' := Quietly(room, p2, XmlDecl9, [], GT, Misc1);
    GoesAfter(room, p1, [ASK], p2, [GT], p', []);
    GoesAfter(room, p, tail, p1, [ASK] + [GT], p', []);
  }

  lemma DeclGoes(room: nat, p: Parser, from: State, d: Decl) returns (p': Parser)
    requires On(p, from, []) && (from.Init? || from.Misc0?) && IsDecl(d) && room > 4
    ensures On(p', Misc1, []) && Goes(room, p, DeclText(d), p', [])
  {
    hide Goes, On, VersionText, OptionsText, IsVersion, IsEncoding, IsStandalone, AreBlanks;
    var p1 := DeclHead(room, p, from);
    var p2 := VersionGoes(room, p1, [LOWER_X] + [LOWER_M] + [LOWER_L], d.version);
    var p3 := OptionsGo(room, p2, d);
    p' := DeclEnds(room, p3, OptionsState(d), d.tail);
    var head := [LT] + [ASK] + XML;
    GoesAfter(room, p, head, p1, VersionText(d.version), p2, []);
    GoesAfter(room, p, head + VersionText(d.version), p2, OptionsText(d), p3, []);
    GoesAfter(room, p, head + VersionText(d.version) + OptionsText(d), p3, d.tail + ([ASK] + [GT]), p', []);
  }

  /// Documents

  /** A byte order mark, blanks and a declaration may begin a document; `last` is the octet that ends the root. */
  datatype XmlDoc =
    XmlDoc(bom: bool, blanks: seq<Byte>, decl: Option<Decl>, prolog: seq<Misc>, root: Node, last: Byte,
           epilog: seq<Misc>)

  /** The state before the declaration. */
  function Zeroth(d: XmlDoc): State {
    if d.bom || d.blanks != [] then Misc0 else Init
  }

  function First(d: XmlDoc): State {
    if d.decl.Some? then Misc1 else Zeroth(d)
  }

  predicate IsDoc(d: XmlDoc) {
    && AreBlanks(d.blanks) && (d.decl.Some? ==> IsDecl(d.decl.value)) && AreMiscs(First(d), d.prolog)
    && d.root.Tag? && IsNode(d.root) && EndsWell([], d.root, d.last) && AreMiscs(Misc3, d.epilog)
  }

  function BomText(d: XmlDoc): seq<Byte> {
    if d.bom then [0xEF] + [0xBB, 0xBF] else []
  }

  function StartText(d: XmlDoc): seq<Byte> {
    BomText(d) + d.blanks + if d.decl.Some? then DeclText(d.decl.value) else []
  }

  function DocText(d: XmlDoc): seq<Byte>
    requires IsDoc(d)
  {
    StartText(d) + MiscsText(d.prolog) + TagText(d.root, d.last) + MiscsText(d.epilog)
  }

  /** What a client must see of a document. */
  function DocTokens(d: XmlDoc): seq<Token>
    requires IsDoc(d)
  {
    MiscsTokens(d.prolog) + NodeTokens(d.root) + MiscsTokens(d.epilog)
  }

  /** The room that the stack must have. */
  predicate Fits(d: XmlDoc, room: nat) {
    MiscsRoom(d.prolog) < room && NodeRoom(d.root) < room && MiscsRoom(d.epilog) < room && (d.decl.Some? ==> room > 4)
  }

  lemma BomTable(c: Ctl)
    ensures c.state.Init?
            ==> Control(c, 0xEF) == Move(c.(state := Literal, next := Misc0, literal := [0xBB, 0xBF]), Nothing)
    ensures ArePlain([0xBB, 0xBF])
  {
  }

  lemma BomGoes(room: nat, d: XmlDoc) returns (p': Parser)
    ensures On(p', if d.bom then Misc0 else Init, []) && Goes(room, START, BomText(d), p', [])
  {
    StartOn();
    hide Goes, Control, On, ArePlain;
    p' := START;
    GoesNothing(room, START, Init, []);
    if d.bom {
      StateOn(START, Init, []);
      BomTable(START.ctl);
      var p1 := Quietly(room, START, Init, [], 0xEF, Literal);
      p' := LiteralGoes(room, p1, [], [0xBB, 0xBF]);
      GoesAfter(room, START, [0xEF], p1, [0xBB, 0xBF], p', []);
    }
  }

  lemma StartGoes(room: nat, d: XmlDoc) returns (p': Parser)
    requires IsDoc(d) && Fits(d, room)
    ensures On(p', First(d), []) && Goes(room, START, StartText(d), p', [])
  {
    hide Goes, On, DeclText, IsDecl, BomText, AreBlanks;
    var p0 := BomGoes(room, d);
    var p1 := FirstBlanksGo(room, p0, if d.bom then Misc0 else Init, d.blanks);
    var text := BomText(d) + d.blanks;
    GoesAfter(room, START, BomText(d), p0, d.blanks, p1, []);
    if d.decl.Some? {
      p' := DeclGoes(room, p1, Zeroth(d), d.decl.value);
      GoesAfter(room, START, text, p1, DeclText(d.decl.value), p', []);
    } else {
      p' := p1;
      assert text + [] == text;
    }
  }

  lemma FirstBlanksGo(room: nat, p: Parser, from: State, w: seq<Byte>) returns (p': Parser)
    requires On(p, from, []) && (from.Init? || from.Misc0?) && AreBlanks(w)
    ensures On(p', if w == [] then from else Misc0, []) && Goes(room, p, w, p', [])
  {
    hide Goes, On, IsSpace;
    if w == [] {
      p' := p;
      GoesNothing(room, p, from, []);
    } else {
      p' := BlankGoes(room, p, from, w[0]);
      BlanksAfter(room, p, p', Misc0, [], w, []);
    }
  }

  lemma StartOn()
    ensures On(START, Init, [])
  {
    StartAgreesEmpty();
  }

  /** The epilog never leaves its state. */
  lemma {:induction false} EpilogStays(ms: seq<Misc>)
    requires AreMiscs(Misc3, ms)
    ensures EndState(Misc3, ms) == Misc3
    decreases |ms|
  {
    if ms != [] { EpilogStays(ms[1..]); }
  }

  /** The prolog ends where a root may begin. */
  lemma {:induction false} PrologEnds(from: State, ms: seq<Misc>)
    requires AreMiscs(from, ms) && (from.Init? || from.Misc0? || from.Misc1?)
    ensures Begins(EndState(from, ms)) && !EndState(from, ms).Misc2?
    decreases |ms|
  {
    if ms != [] { PrologEnds(NextState(from, ms[0]), ms[1..]); }
  }

  lemma DocGoes(room: nat, d: XmlDoc) returns (p': Parser)
    requires IsDoc(d) && Fits(d, room)
    ensures On(p', Misc3, []) && Goes(room, START, DocText(d), p', DocTokens(d))
  {
    hide Goes, On, StartText, MiscsText, TagText, MiscsTokens, NodeTokens, AreMiscs, IsNode, EndState, IsDecl,
    MiscsRoom,
         NodeRoom, EndsWell, AreBlanks;
    NoNames();
    var p1 := StartGoes(room, d);
    var p2 := MiscsGo(room, p1, First(d), d.prolog);
    PrologEnds(First(d), d.prolog);
    var p3 := TagGoes(room, p2, EndState(First(d), d.prolog), [], d.root, d.last);
    var p4 := MiscsGo(room, p3, Misc3, d.epilog);
    EpilogStays(d.epilog);
    p' := p4;
    var none: seq<Token> := [];
    var a, b, c, e := StartText(d), MiscsText(d.prolog), TagText(d.root, d.last), MiscsText(d.epilog);
    GoesThen(room, START, a, p1, none, b, p2, MiscsTokens(d.prolog));
    assert none + MiscsTokens(d.prolog) == MiscsTokens(d.prolog);
    GoesThen(room, START, a + b, p2, MiscsTokens(d.prolog), c, p3, NodeTokens(d.root));
    GoesThen(room, START, a + b + c, p3, MiscsTokens(d.prolog) + NodeTokens(d.root), e, p4, MiscsTokens(d.epilog));
  }

  /** Every written document is accepted to its end, whatever its line ends, and a client sees exactly its elements,
      attributes, character data and instructions, with their names and their data, in order. */
  lemma DocumentIsParsed(room: nat, d: XmlDoc, s: seq<Byte>) returns (p: Parser)
    requires IsDoc(d) && Fits(d, room) && Unified(s, false) == DocText(d)
    ensures Goes(room, START, s, p, DocTokens(d))
    ensures var t := Document(room, s); t.ret == Ok && t.p == p && Eof(p) == Ok
  {
    hide Goes, Run, DocText, DocTokens, IsDoc, Fits, Unified;
    var q := DocGoes(room, d);
    StateOn(q, Misc3, []);
    var skip := LineEndsGo(room, START, false, s, q, DocTokens(d));
    p := Skips(q, skip);
    assert Skips(START, false) == START;
    GoesRuns(room, START, s, p, DocTokens(d));
  }

  /** With blanks at the end of its close tag, the root element alone is no document. */
  lemma RootCloseTagWithBlanks(room: nat, n: Name, w: seq<Byte>)
    requires IsXmlTag(n) && |n| + 1 < room && AreBlanks(w)
    ensures Document(room, [LT] + n + [GT] + CloseText(n, w, GT)).ret == if w == [] then Ok else SynError
  {
    StartOn();
    NoNames();
    NoAttributes();
    hide Goes, On, Run, Size, IsXmlTag, AttrsText, AttrsTokens, CloseText, AreBlanks;
    assert IsHead(n, [], []) && Head(n, [], []) == [LT] + n by { assert [LT] + n + [] + [] == [LT] + n; NoBlanks(); }
    var tokens := [YxmlClient.Opens(n)] + AttrsTokens([]);
    var p := OpenGoes(room, START, Init, [], n, [], [], GT);
    GoesOn(room, START, [LT] + n + [GT], p, tokens, CloseText(n, w, GT));
    if w == [] {
      var p' := CloseGoes(room, p, [], n, w, GT);
      GoesRuns(room, p, CloseText(n, w, GT), p', [Closes]);
    } else {
      RootCloseFails(room, p, n, w);
    }
  }

  /** A blank in the place of the last octet of the root's close tag ends a document that is accepted. */
  lemma RootEndsWithBlank(room: nat, n: Name, blank: Byte)
    requires IsXmlTag(n) && |n| + 1 < room && IsSpace(blank)
    ensures var t := Document(room, [LT] + n + [GT] + CloseText(n, [], blank)); t.ret == Ok && Eof(t.p) == Ok
  {
    StartOn();
    NoNames();
    NoAttributes();
    NoBlanks();
    hide Goes, On, Run, Size, IsXmlTag, AttrsText, AttrsTokens, CloseText, AreBlanks, IsSpace;
    assert IsHead(n, [], []) && Head(n, [], []) == [LT] + n by { assert [LT] + n + [] + [] == [LT] + n; }
    var tokens := [YxmlClient.Opens(n)] + AttrsTokens([]);
    var p := OpenGoes(room, START, Init, [], n, [], [], GT);
    var p' := CloseGoes(room, p, [], n, [], blank);
    StateOn(p', Misc3, []);
    GoesThen(room, START, [LT] + n + [GT], p, tokens, CloseText(n, [], blank), p', [Closes]);
    GoesRuns(room, START, [LT] + n + [GT] + CloseText(n, [], blank), p', tokens + [Closes]);
  }

  lemma NoBlanks()
    ensures AreBlanks([])
  {
  }
}
