/** An XML push parser: one octet in, at most one token out. Control is a table over states; names of open
    elements, of the current attribute and of the current processing instruction live on a bounded stack. */
module YxmlSpec {
  import opened Bytes

  type Name = seq<Byte>

  /// Octet classes

  predicate IsSpace(c: Byte) {
    c == 0x20 || c == 0x09 || c == 0x0A
  }

  predicate IsAlpha(c: Byte) {
    65 <= c <= 90 || 97 <= c <= 122
  }

  predicate IsNum(c: Byte) {
    48 <= c <= 57
  }

  predicate IsEncName(c: Byte) {
    IsAlpha(c) || IsNum(c) || c == '.' as int || c == '_' as int || c == '-' as int
  }

  predicate IsNameStart(c: Byte) {
    IsAlpha(c) || c == ':' as int || c == '_' as int || c >= 128
  }

  predicate IsName(c: Byte) {
    IsNameStart(c) || IsNum(c) || c == '-' as int || c == '.' as int
  }

  predicate IsRef(c: Byte) {
    IsNum(c) || IsAlpha(c) || c == '#' as int
  }

  predicate IsQuote(c: Byte) {
    c == '\'' as int || c == '"' as int
  }

  predicate Is(c: Byte, ch: char) {
    c == ch as int
  }

  function Text(s: string): (r: seq<Byte>)
    requires forall i :: 0 <= i < |s| ==> s[i] as int < 256
    ensures |r| == |s|
  {
    seq(|s|, i requires 0 <= i < |s| => s[i] as int)
  }

  /// Control

  datatype State =
    | Literal
    | Attr0 | Attr1 | Attr2 | Attr3 | Attr4
    | Cd0 | Cd1 | Cd2
    | Comment0 | Comment1 | Comment2 | Comment3 | Comment4
    | Dt0 | Dt1 | Dt2 | Dt3 | Dt4
    | Elem0 | Elem1 | Elem2 | Elem3
    | Enc0 | Enc1 | Enc2 | Enc3
    | Etag0 | Etag1 | Etag2
    | Init
    | Le0 | Le1 | Le2 | Le3 | Lee1 | Lee2 | Leq0
    | Misc0 | Misc1 | Misc2 | Misc2a | Misc3
    | Pi0 | Pi1 | Pi2 | Pi3 | Pi4
    | Std0 | Std1 | Std2 | Std3
    | Ver0 | Ver1 | Ver2 | Ver3
    | XmlDecl0 | XmlDecl1 | XmlDecl2 | XmlDecl3 | XmlDecl4 | XmlDecl5 | XmlDecl6 | XmlDecl7 | XmlDecl8 | XmlDecl9

  /** Besides the state: where comments, instructions and literals return to, the open quote, and the rest of a
      literal that must follow. */
  datatype Ctl = Ctl(state: State, next: State, quote: Byte, literal: seq<Byte>)

  /** What an octet does besides moving the control. The data of `Content1`, `Content2` and `PiContent1` begins with
      the brackets or the question mark that were held back. */
  datatype Action =
    | Nothing
    | SyntaxError
    | Content | Content1 | Content2
    | AttrValue
    | PiContent | PiContent1
    | ElemStart | ElemName | ElemNameEnd | SelfClose | CloseName | CloseEnd
    | AttrStart | AttrName | AttrNameEnd | AttrValueEnd
    | PiStart | PiName | PiNameEnd | PiAbort | PiEnd
    | RefStart | RefName | RefContent | RefAttrValue

  datatype Move = Move(ctl: Ctl, action: Action)

  function Go(c: Ctl, s: State): Move {
    Move(c.(state := s), Nothing)
  }

  function Act(c: Ctl, s: State, a: Action): Move {
    Move(c.(state := s), a)
  }

  function GoNext(c: Ctl, s: State, n: State): Move {
    Move(c.(state := s, next := n), Nothing)
  }

  function Expect(c: Ctl, n: State, literal: seq<Byte>): Move {
    Move(c.(state := Literal, next := n, literal := literal), Nothing)
  }

  function Stay(c: Ctl): Move {
    Move(c, Nothing)
  }

  function Bad(c: Ctl): Move {
    Move(c, SyntaxError)
  }

  function AttrMoves(c: Ctl, ch: Byte): Move {
    if c.state.Attr0? then
      if IsName(ch) then Act(c, Attr0, AttrName)
      else if IsSpace(ch) then Act(c, Attr1, AttrNameEnd)
      else if Is(ch, '=') then Act(c, Attr2, AttrNameEnd)
      else Bad(c)
    else if c.state.Attr1? then
      if IsSpace(ch) then Stay(c) else if Is(ch, '=') then Go(c, Attr2) else Bad(c)
    else if c.state.Attr2? then
      if IsSpace(ch) then Stay(c) else if IsQuote(ch) then Move(c.(state := Attr3, quote := ch), Nothing) else Bad(c)
    else if c.state.Attr3? then
      if ch != c.quote && !Is(ch, '<') && !Is(ch, '&') then Act(c, Attr3, AttrValue)
      else if Is(ch, '&') then Act(c, Attr4, RefStart)
      else if c.quote == ch then Act(c, Elem2, AttrValueEnd)
      else Bad(c)
    else if c.state.Attr4? then
      if IsRef(ch) then Act(c, Attr4, RefName) else if Is(ch, ';') then Act(c, Attr3, RefAttrValue) else Bad(c)
    else Bad(c)
  }

  function CdMoves(c: Ctl, ch: Byte): Move {
    if c.state.Cd0? then
      if Is(ch, ']') then Go(c, Cd1) else Act(c, Cd0, Content)
    else if c.state.Cd1? then
      if Is(ch, ']') then Go(c, Cd2) else Act(c, Cd0, Content1)
    else if c.state.Cd2? then
      if Is(ch, ']') then Act(c, Cd2, Content) else if Is(ch, '>') then Go(c, Misc2) else Act(c, Cd0, Content2)
    else Bad(c)
  }

  function ContentMoves(c: Ctl, ch: Byte): Move {
    if c.state.Misc2? then
      if Is(ch, '<') then Go(c, Le2) else if Is(ch, '&') then Act(c, Misc2a, RefStart) else Act(c, Misc2, Content)
    else if c.state.Misc2a? then
      if IsRef(ch) then Act(c, Misc2a, RefName) else if Is(ch, ';') then Act(c, Misc2, RefContent) else Bad(c)
    else if c.state.Le2? then
      if Is(ch, '!') then Go(c, Lee2)
      else if Is(ch, '?') then GoNext(c, Pi0, Misc2)
      else if Is(ch, '/') then Go(c, Etag0)
      else if IsNameStart(ch) then Act(c, Elem0, ElemStart)
      else Bad(c)
    else if c.state.Lee2? then
      if Is(ch, '-') then GoNext(c, Comment1, Misc2)
      else if Is(ch, '[') then Expect(c, Cd0, Text("CDATA["))
      else Bad(c)
    else Bad(c)
  }

  function LiteralMoves(c: Ctl, ch: Byte): Move {
    if c.state.Literal? then
      if c.literal != [] && ch == c.literal[0] then
        Move(c.(literal := c.literal[1..], state := if |c.literal| == 1 then c.next else Literal), Nothing)
      else Bad(c)
    else Bad(c)
  }

  function CommentMoves(c: Ctl, ch: Byte): Move {
    if c.state.Comment0? then
      if Is(ch, '-') then Go(c, Comment1) else Bad(c)
    else if c.state.Comment1? then
      if Is(ch, '-') then Go(c, Comment2) else Bad(c)
    else if c.state.Comment2? then
      if Is(ch, '-') then Go(c, Comment3) else Stay(c)
    else if c.state.Comment3? then
      if Is(ch, '-') then Go(c, Comment4) else Go(c, Comment2)
    else if c.state.Comment4? then
      if Is(ch, '>') then Go(c, c.next) else Bad(c)
    else Bad(c)
  }

  function DtMoves(c: Ctl, ch: Byte): Move {
    if c.state.Dt0? then
      if Is(ch, '>') then Go(c, Misc1)
      else if IsQuote(ch) then Move(c.(state := Dt1, quote := ch, next := Dt0), Nothing)
      else if Is(ch, '<') then Go(c, Dt2)
      else Stay(c)
    else if c.state.Dt1? then
      if c.quote == ch then Go(c, c.next) else Stay(c)
    else if c.state.Dt2? then
      if Is(ch, '?') then GoNext(c, Pi0, Dt0) else if Is(ch, '!') then Go(c, Dt3) else Bad(c)
    else if c.state.Dt3? then
      if Is(ch, '-') then GoNext(c, Comment1, Dt0) else Go(c, Dt4)
    else if c.state.Dt4? then
      if IsQuote(ch) then Move(c.(state := Dt1, quote := ch, next := Dt4), Nothing)
      else if Is(ch, '>') then Go(c, Dt0)
      else Stay(c)
    else Bad(c)
  }

  function ElemMoves(c: Ctl, ch: Byte): Move {
    if c.state.Elem0? then
      if IsName(ch) then Act(c, Elem0, ElemName)
      else if IsSpace(ch) then Act(c, Elem1, ElemNameEnd)
      else if Is(ch, '/') then Act(c, Elem3, ElemNameEnd)
      else if Is(ch, '>') then Act(c, Misc2, ElemNameEnd)
      else Bad(c)
    else if c.state.Elem1? then
      if IsSpace(ch) then Stay(c)
      else if Is(ch, '/') then Go(c, Elem3)
      else if Is(ch, '>') then Go(c, Misc2)
      else if IsNameStart(ch) then Act(c, Attr0, AttrStart)
      else Bad(c)
    else if c.state.Elem2? then
      if IsSpace(ch) then Go(c, Elem1) else if Is(ch, '/') then Go(c, Elem3) else if Is(ch, '>') then Go(c, Misc2)
        else Bad(c)
    else if c.state.Elem3? then
      if Is(ch, '>') then Act(c, Misc2, SelfClose) else Bad(c)
    else Bad(c)
  }

  function EtagMoves(c: Ctl, ch: Byte): Move {
    if c.state.Etag0? then
      if IsNameStart(ch) then Act(c, Etag1, CloseName) else Bad(c)
    else if c.state.Etag1? then
      if IsName(ch) then Act(c, Etag1, CloseName)
      else if IsSpace(ch) then Act(c, Etag2, CloseEnd)
      else if Is(ch, '>') then Act(c, Misc2, CloseEnd)
      else Bad(c)
    else if c.state.Etag2? then
      if IsSpace(ch) then Stay(c) else if Is(ch, '>') then Go(c, Misc2) else Bad(c)
    else Bad(c)
  }

  function OpeningMoves(c: Ctl, ch: Byte): Move {
    if c.state.Init? then
      if ch == 0xEF then Expect(c, Misc0, [0xBB, 0xBF])
      else if IsSpace(ch) then Go(c, Misc0)
      else if Is(ch, '<') then Go(c, Le0)
      else Bad(c)
    else if c.state.Le0? then
      if Is(ch, '!') then Go(c, Lee1)
      else if Is(ch, '?') then Go(c, Leq0)
      else if IsNameStart(ch) then Act(c, Elem0, ElemStart)
      else Bad(c)
    else if c.state.Le1? then
      if Is(ch, '!') then Go(c, Lee1)
      else if Is(ch, '?') then GoNext(c, Pi0, Misc1)
      else if IsNameStart(ch) then Act(c, Elem0, ElemStart)
      else Bad(c)
    else Bad(c)
  }

  function MarkupMoves(c: Ctl, ch: Byte): Move {
    if c.state.Lee1? then
      if Is(ch, '-') then GoNext(c, Comment1, Misc1)
      else if Is(ch, 'D') then Expect(c, Dt0, Text("OCTYPE"))
      else Bad(c)
    else if c.state.Leq0? then
      if Is(ch, 'x') then Move(c.(state := XmlDecl0, next := Misc1), PiStart)
      else if IsNameStart(ch) then Move(c.(state := Pi1, next := Misc1), PiStart)
      else Bad(c)
    else Bad(c)
  }

  function MiscMoves(c: Ctl, ch: Byte): Move {
    if c.state.Misc0? then
      if IsSpace(ch) then Stay(c) else if Is(ch, '<') then Go(c, Le0) else Bad(c)
    else if c.state.Misc1? then
      if IsSpace(ch) then Stay(c) else if Is(ch, '<') then Go(c, Le1) else Bad(c)
    else if c.state.Misc3? then
      if IsSpace(ch) then Stay(c) else if Is(ch, '<') then Go(c, Le3) else Bad(c)
    else if c.state.Le3? then
      if Is(ch, '!') then GoNext(c, Comment0, Misc3) else if Is(ch, '?') then GoNext(c, Pi0, Misc3) else Bad(c)
    else Bad(c)
  }

  function PiMoves(c: Ctl, ch: Byte): Move {
    if c.state.Pi0? then
      if IsNameStart(ch) then Act(c, Pi1, PiStart) else Bad(c)
    else if c.state.Pi1? then
      if IsName(ch) then Act(c, Pi1, PiName)
      else if Is(ch, '?') then Act(c, Pi4, PiNameEnd)
      else if IsSpace(ch) then Act(c, Pi2, PiNameEnd)
      else Bad(c)
    else if c.state.Pi2? then
      if Is(ch, '?') then Go(c, Pi3) else Act(c, Pi2, PiContent)
    else if c.state.Pi3? then
      if Is(ch, '>') then Act(c, c.next, PiEnd) else Act(c, Pi2, PiContent1)
    else if c.state.Pi4? then
      if Is(ch, '>') then Act(c, c.next, PiEnd) else Bad(c)
    else Bad(c)
  }

  function XmlNameMoves(c: Ctl, ch: Byte): Move {
    if c.state.XmlDecl0? then
      if Is(ch, 'm') then Act(c, XmlDecl1, PiName)
      else if IsName(ch) then Act(c, Pi1, PiName)
      else if Is(ch, '?') then Act(c, Pi4, PiNameEnd)
      else if IsSpace(ch) then Act(c, Pi2, PiNameEnd)
      else Bad(c)
    else if c.state.XmlDecl1? then
      if Is(ch, 'l') then Act(c, XmlDecl2, PiName)
      else if IsName(ch) then Act(c, Pi1, PiName)
      else if Is(ch, '?') then Act(c, Pi4, PiNameEnd)
      else if IsSpace(ch) then Act(c, Pi2, PiNameEnd)
      else Bad(c)
    else if c.state.XmlDecl2? then
      if IsSpace(ch) then Act(c, XmlDecl3, PiAbort) else if IsName(ch) then Act(c, Pi1, PiName) else Bad(c)
    else Bad(c)
  }

  function EncMoves(c: Ctl, ch: Byte): Move {
    if c.state.Enc0? then
      if IsSpace(ch) then Stay(c) else if Is(ch, '=') then Go(c, Enc1) else Bad(c)
    else if c.state.Enc1? then
      if IsSpace(ch) then Stay(c) else if IsQuote(ch) then Move(c.(state := Enc2, quote := ch), Nothing) else Bad(c)
    else if c.state.Enc2? then
      if IsAlpha(ch) then Go(c, Enc3) else Bad(c)
    else if c.state.Enc3? then
      if IsEncName(ch) then Stay(c) else if c.quote == ch then Go(c, XmlDecl6) else Bad(c)
    else Bad(c)
  }

  function StdMoves(c: Ctl, ch: Byte): Move {
    if c.state.Std0? then
      if IsSpace(ch) then Stay(c) else if Is(ch, '=') then Go(c, Std1) else Bad(c)
    else if c.state.Std1? then
      if IsSpace(ch) then Stay(c) else if IsQuote(ch) then Move(c.(state := Std2, quote := ch), Nothing) else Bad(c)
    else if c.state.Std2? then
      if Is(ch, 'y') then Expect(c, Std3, Text("es")) else if Is(ch, 'n') then Expect(c, Std3, Text("o")) else Bad(c)
    else if c.state.Std3? then
      if c.quote == ch then Go(c, XmlDecl8) else Bad(c)
    else Bad(c)
  }

  function VerMoves(c: Ctl, ch: Byte): Move {
    if c.state.Ver0? then
      if IsSpace(ch) then Stay(c) else if Is(ch, '=') then Go(c, Ver1) else Bad(c)
    else if c.state.Ver1? then
      if IsSpace(ch) then Stay(c)
      else if IsQuote(ch) then Move(Ctl(Literal, Ver2, ch, Text("1.")), Nothing)
      else Bad(c)
    else if c.state.Ver2? then
      if IsNum(ch) then Go(c, Ver3) else Bad(c)
    else if c.state.Ver3? then
      if IsNum(ch) then Stay(c) else if c.quote == ch then Go(c, XmlDecl4) else Bad(c)
    else Bad(c)
  }

  function XmlDeclMoves(c: Ctl, ch: Byte): Move {
    if c.state.XmlDecl3? then
      if IsSpace(ch) then Stay(c) else if Is(ch, 'v') then Expect(c, Ver0, Text("ersion")) else Bad(c)
    else if c.state.XmlDecl4? then
      if IsSpace(ch) then Go(c, XmlDecl5) else if Is(ch, '?') then Go(c, XmlDecl9) else Bad(c)
    else if c.state.XmlDecl5? then
      if IsSpace(ch) then Stay(c)
      else if Is(ch, '?') then Go(c, XmlDecl9)
      else if Is(ch, 'e') then Expect(c, Enc0, Text("ncoding"))
      else if Is(ch, 's') then Expect(c, Std0, Text("tandalone"))
      else Bad(c)
    else Bad(c)
  }

  function DeclEndMoves(c: Ctl, ch: Byte): Move {
    if c.state.XmlDecl6? then
      if IsSpace(ch) then Go(c, XmlDecl7) else if Is(ch, '?') then Go(c, XmlDecl9) else Bad(c)
    else if c.state.XmlDecl7? then
      if IsSpace(ch) then Stay(c)
      else if Is(ch, '?') then Go(c, XmlDecl9)
      else if Is(ch, 's') then Expect(c, Std0, Text("tandalone"))
      else Bad(c)
    else if c.state.XmlDecl8? then
      if IsSpace(ch) then Stay(c) else if Is(ch, '?') then Go(c, XmlDecl9) else Bad(c)
    else if c.state.XmlDecl9? then
      if Is(ch, '>') then Go(c, Misc1) else Bad(c)
    else Bad(c)
  }

  /** The table, by groups of states. */
  function Control(c: Ctl, ch: Byte): Move {
    match c.state
    case Attr0 | Attr1 | Attr2 | Attr3 | Attr4 => AttrMoves(c, ch)
    case Cd0 | Cd1 | Cd2 => CdMoves(c, ch)
    case Misc2 | Misc2a | Le2 | Lee2 => ContentMoves(c, ch)
    case Literal => LiteralMoves(c, ch)
    case Comment0 | Comment1 | Comment2 | Comment3 | Comment4 => CommentMoves(c, ch)
    case Dt0 | Dt1 | Dt2 | Dt3 | Dt4 => DtMoves(c, ch)
    case Elem0 | Elem1 | Elem2 | Elem3 => ElemMoves(c, ch)
    case Etag0 | Etag1 | Etag2 => EtagMoves(c, ch)
    case Init | Le0 | Le1 => OpeningMoves(c, ch)
    case Lee1 | Leq0 => MarkupMoves(c, ch)
    case Misc0 | Misc1 | Misc3 | Le3 => MiscMoves(c, ch)
    case Pi0 | Pi1 | Pi2 | Pi3 | Pi4 => PiMoves(c, ch)
    case XmlDecl0 | XmlDecl1 | XmlDecl2 => XmlNameMoves(c, ch)
    case Enc0 | Enc1 | Enc2 | Enc3 => EncMoves(c, ch)
    case Std0 | Std1 | Std2 | Std3 => StdMoves(c, ch)
    case Ver0 | Ver1 | Ver2 | Ver3 => VerMoves(c, ch)
    case XmlDecl3 | XmlDecl4 | XmlDecl5 => XmlDeclMoves(c, ch)
    case XmlDecl6 | XmlDecl7 | XmlDecl8 | XmlDecl9 => DeclEndMoves(c, ch)
  }

  /// Tokens

  datatype Ret =
    | EofError | RefError | CloseError | StackError | SynError
    | Ok | ElemStarts | ContentToken | ElemEnds | AttrStarts | AttrValueToken | AttrEnds | PiStarts | PiContentToken |
    PiEnds

  predicate IsError(r: Ret) {
    r.EofError? || r.RefError? || r.CloseError? || r.StackError? || r.SynError?
  }

  /** The tokens that make the tree. An end carries the name that was written in the close tag. */
  datatype Event = Start(name: Name) | End(name: Name)

  /** `closing` is the part of a close tag's name read so far, `reference` that of a reference. */
  datatype Parser = Parser(ctl: Ctl, stack: seq<Name>, closing: Name, reference: seq<Byte>, ignore: Byte)

  const START: Parser := Parser(Ctl(Init, Init, 0, []), [], [], [], 0)

  /** Octets the names take on the stack, with one separator each. */
  function Size(stack: seq<Name>): nat {
    if stack == [] then 0 else Size(stack[..|stack| - 1]) + |stack[|stack| - 1]| + 1
  }

  function Top(stack: seq<Name>): Name
    requires stack != []
  {
    stack[|stack| - 1]
  }

  function Popped(stack: seq<Name>): seq<Name>
    requires stack != []
  {
    stack[..|stack| - 1]
  }

  datatype Result = Result(ret: Ret, p: Parser, events: seq<Event>)

  function Fail(ret: Ret, p: Parser): Result {
    Result(ret, p, [])
  }

  function Push(room: nat, p: Parser, ch: Byte): Result {
    if Size(p.stack) + 2 >= room then Fail(StackError, p) else Result(Ok, p.(stack := p.stack + [[ch]]), [])
  }

  function PushOctet(room: nat, p: Parser, ch: Byte): Result
    requires p.stack != []
  {
    if Size(p.stack) + 1 >= room then Fail(StackError, p)
    else Result(Ok, p.(stack := Popped(p.stack) + [Top(p.stack) + [ch]]), [])
  }

  function Pop(ret: Ret, p: Parser): Result
    requires p.stack != []
  {
    Result(ret, p.(stack := Popped(p.stack)), [])
  }

  /** The last element ends under the given name; the root's end leaves only the epilog. */
  function EndElement(p: Parser, name: Name): Result
    requires p.stack != []
  {
    var stack := Popped(p.stack);
    var ctl := if stack == [] then p.ctl.(state := Misc3) else p.ctl;
    Result(ElemEnds, p.(stack := stack, closing := [], ctl := ctl), [End(name)])
  }

  function Lower(c: Byte): Byte {
    if 64 <= c <= 95 then c + 32 else if c < 32 then c + 32 else if 128 <= c < 160 || 192 <= c < 224 then c + 32 else c
  }

  /** A processing instruction must not be called xml. */
  predicate IsXml(name: Name) {
    |name| == 3 && Is(Lower(name[0]), 'x') && Is(Lower(name[1]), 'm') && Is(Lower(name[2]), 'l')
  }

  const REF_MAX: nat := 7

  /** The code point of a reference, or zero. */
  function RefValue(r: seq<Byte>): nat {
    if r != [] && Is(r[0], '#') then
      if |r| > 1 && Is(r[1], 'x') then HexValue(r[2..], 0) else DecValue(r[1..], 0)
    else if r == Text("lt") then '<' as int
    else if r == Text("gt") then '>' as int
    else if r == Text("amp") then '&' as int
    else if r == Text("apos") then '\'' as int
    else if r == Text("quot") then '"' as int
    else 0
  }

  function DecValue(r: seq<Byte>, acc: nat): nat
    decreases |r|
  {
    if r == [] then acc else if IsNum(r[0]) then DecValue(r[1..], acc * 10 + r[0] - 48) else 0
  }

  function HexValue(r: seq<Byte>, acc: nat): nat
    decreases |r|
  {
    if r == [] then acc
    else if IsNum(r[0]) then HexValue(r[1..], acc * 16 + r[0] - 48)
    else if 97 <= r[0] <= 102 then HexValue(r[1..], acc * 16 + r[0] - 87)
    else if 65 <= r[0] <= 70 then HexValue(r[1..], acc * 16 + r[0] - 55)
    else 0
  }

  predicate RefAllowed(ch: nat) {
    ch != 0 && ch <= 0x10FFFF && ch != 0xFFFE && ch != 0xFFFF && !(0xDFFF <= ch < 0xDFFF + 0x7FF)
  }

  function Do(room: nat, p: Parser, a: Action, ch: Byte): Result
    requires NeedsTop(a) ==> p.stack != []
  {
    match a
    case Nothing => Result(Ok, p, [])
    case SyntaxError => Fail(SynError, p)
    case Content | Content1 | Content2 => Result(ContentToken, p, [])
    case AttrValue => Result(AttrValueToken, p, [])
    case PiContent | PiContent1 => Result(PiContentToken, p, [])
    case ElemStart => Push(room, p, ch)
    case ElemName => PushOctet(room, p, ch)
    case ElemNameEnd => Result(ElemStarts, p, [Start(Top(p.stack))])
    case SelfClose => EndElement(p, Top(p.stack))
    case CloseName =>
      if |p.closing| < |Top(p.stack)| && Top(p.stack)[|p.closing|] == ch
        then Result(Ok, p.(closing := p.closing + [ch]), [])
      else Fail(CloseError, p)
    case CloseEnd => if |p.closing| < |Top(p.stack)| then Fail(CloseError, p) else EndElement(p, p.closing)
    case AttrStart => Push(room, p, ch)
    case AttrName => PushOctet(room, p, ch)
    case AttrNameEnd => Result(AttrStarts, p, [])
    case AttrValueEnd => Pop(AttrEnds, p)
    case PiStart => Push(room, p, ch)
    case PiName => PushOctet(room, p, ch)
    case PiNameEnd => if IsXml(Top(p.stack)) then Fail(SynError, p) else Result(PiStarts, p, [])
    case PiAbort => Pop(Ok, p)
    case PiEnd => Pop(PiEnds, p)
    case RefStart => Result(Ok, p.(reference := []), [])
    case RefName => if |p.reference| >= REF_MAX then Fail(RefError, p)
      else Result(Ok, p.(reference := p.reference + [ch]), [])
    case RefContent => if RefAllowed(RefValue(p.reference)) then Result(ContentToken, p, []) else Fail(RefError, p)
    case RefAttrValue => if RefAllowed(RefValue(p.reference)) then Result(AttrValueToken, p, []) else Fail(RefError, p)
  }

  /** Actions that work on the name on top of the stack. */
  predicate NeedsTop(a: Action) {
    || a.ElemName? || a.ElemNameEnd? || a.SelfClose? || a.CloseName? || a.CloseEnd?
    || a.AttrName? || a.AttrValueEnd? || a.PiName? || a.PiNameEnd? || a.PiAbort? || a.PiEnd?
  }

  /// States and the stack

  datatype Place = Prolog | Inside | Epilog

  /** Where the markup that returns to `s` stands. */
  function Around(s: State): Place {
    if s.Misc2? || s.Cd0? then Inside else if s.Misc3? then Epilog else Prolog
  }

  predicate IsAttr(s: State) {
    s.Attr0? || s.Attr1? || s.Attr2? || s.Attr3? || s.Attr4?
  }

  predicate IsComment(s: State) {
    s.Comment0? || s.Comment1? || s.Comment2? || s.Comment3? || s.Comment4?
  }

  predicate IsPi(s: State) {
    s.Pi1? || s.Pi2? || s.Pi3? || s.Pi4?
  }

  predicate IsXmlName(s: State) {
    s.XmlDecl0? || s.XmlDecl1? || s.XmlDecl2?
  }

  function PlaceOf(c: Ctl): Place {
    var s := c.state;
    if IsAttr(s) || s.Cd0? || s.Cd1? || s.Cd2? || s.Misc2? || s.Misc2a? || s.Le2? || s.Lee2? then Inside
    else if s.Elem0? || s.Elem1? || s.Elem2? || s.Elem3? || s.Etag0? || s.Etag1? || s.Etag2? then Inside
    else if s.Misc3? || s.Le3? then Epilog
    else if s.Literal? || IsComment(s) || s.Pi0? || IsPi(s) then Around(c.next)
    else Prolog
  }

  /** An attribute's or an instruction's name lies on top of the stack. */
  predicate HasExtra(s: State) {
    IsAttr(s) || IsPi(s) || IsXmlName(s)
  }

  /** The state to return to is one that can be returned to. */
  predicate Returns(c: Ctl) {
    && (IsComment(c.state) || c.state.Pi0? || IsPi(c.state)
        ==> c.next.Misc1? || c.next.Misc2? || c.next.Misc3? || c.next.Dt0?)
    && (IsXmlName(c.state) ==> c.next.Misc1?)
    && (c.state.Dt1? ==> c.next.Dt0? || c.next.Dt4?)
    && (c.state.Literal?
        ==> c.literal != [] && (c.next.Misc0? || c.next.Dt0? || c.next.Cd0? || c.next.Ver0? || c.next.Ver2?
                                || c.next.Enc0? || c.next.Std0? || c.next.Std3?))
  }

  predicate GoodName(n: Name) {
    n != [] && forall i :: 0 <= i < |n| ==> n[i] != 0
  }

  /** The shape of the stack in each state. */
  predicate Shape(p: Parser) {
    Returns(p.ctl) && GoodNames(p.stack) && Fits(p.ctl, p.stack, p.closing) && |p.reference| <= REF_MAX
  }

  /// What the table guarantees

  /** Neither the place nor what lies on the stack changes, and no name is being read or compared. */
  predicate Quiet(c: Ctl, c': Ctl) {
    && PlaceOf(c') == PlaceOf(c) && HasExtra(c'.state) == HasExtra(c.state) && IsAttr(c'.state) == IsAttr(c.state)
    && !c.state.Elem0? && !c'.state.Elem0? && !c.state.Etag1? && !c'.state.Etag1?
  }

  /** Each action only occurs between states that suit it. */
  predicate Suits(c: Ctl, m: Move) {
    Returns(m.ctl) && (m.action.SyntaxError?
                       || if OnStack(m.action) then SuitsStack(c, m.ctl, m.action) else Quiet(c, m.ctl))
  }

  predicate OnStack(a: Action) {
    || a.ElemStart? || a.ElemName? || a.ElemNameEnd? || a.SelfClose? || a.CloseName? || a.CloseEnd?
    || a.AttrStart? || a.AttrName? || a.AttrValueEnd? || a.PiStart? || a.PiName? || a.PiNameEnd? || a.PiAbort?
    || a.PiEnd?
  }

  predicate SuitsStack(c: Ctl, c': Ctl, a: Action) {
    if a.ElemStart? then !HasExtra(c.state) && !PlaceOf(c).Epilog? && c'.state.Elem0? && !c.state.Elem0?
      && !c.state.Etag1?
    else if a.ElemName? then c.state.Elem0? && c'.state.Elem0?
    else if a.ElemNameEnd? then c.state.Elem0? && (c'.state.Elem1? || c'.state.Elem3? || c'.state.Misc2?)
    else if a.SelfClose? then c.state.Elem3? && c'.state.Misc2?
    else if a.CloseName? then (c.state.Etag0? || c.state.Etag1?) && c'.state.Etag1?
    else if a.CloseEnd? then c.state.Etag1? && (c'.state.Etag2? || c'.state.Misc2?)
    else if a.AttrStart? then c.state.Elem1? && c'.state.Attr0?
    else if a.AttrValueEnd? then c.state.Attr3? && c'.state.Elem2?
    else if a.PiStart? then
      && !HasExtra(c.state) && HasExtra(c'.state) && !IsAttr(c'.state) && PlaceOf(c') == PlaceOf(c)
      && !c.state.Elem0? && !c.state.Etag1?
    else if a.PiAbort? then c.state.XmlDecl2? && c'.state.XmlDecl3?
    else if a.PiEnd? then
      && HasExtra(c.state) && !HasExtra(c'.state) && PlaceOf(c') == PlaceOf(c)
      && !c'.state.Elem0? && !c'.state.Etag1?
    else Quiet(c, c') && HasExtra(c.state) && (a.AttrName? <==> IsAttr(c.state))
  }

  lemma AttrSuits(c: Ctl, ch: Byte)
    requires Returns(c)
    ensures (c.state.Attr0? || c.state.Attr1? || c.state.Attr2? || c.state.Attr3? || c.state.Attr4?)
            ==> Suits(c, AttrMoves(c, ch))
  {
    hide Is, IsName, IsNameStart, IsSpace, IsRef, IsQuote, IsNum, IsAlpha, IsEncName, Text;
  }

  lemma CdSuits(c: Ctl, ch: Byte)
    requires Returns(c)
    ensures (c.state.Cd0? || c.state.Cd1? || c.state.Cd2?) ==> Suits(c, CdMoves(c, ch))
  {
    hide Is, IsName, IsNameStart, IsSpace, IsRef, IsQuote, IsNum, IsAlpha, IsEncName, Text;
  }

  lemma ContentSuits(c: Ctl, ch: Byte)
    requires Returns(c)
    ensures (c.state.Misc2? || c.state.Misc2a? || c.state.Le2? || c.state.Lee2?) ==> Suits(c, ContentMoves(c, ch))
  {
    hide Is, IsName, IsNameStart, IsSpace, IsRef, IsQuote, IsNum, IsAlpha, IsEncName, Text;
  }

  lemma LiteralSuits(c: Ctl, ch: Byte)
    requires Returns(c)
    ensures c.state.Literal? ==> Suits(c, LiteralMoves(c, ch))
  {
    hide Is, IsName, IsNameStart, IsSpace, IsRef, IsQuote, IsNum, IsAlpha, IsEncName, Text;
  }

  lemma CommentSuits(c: Ctl, ch: Byte)
    requires Returns(c)
    ensures (c.state.Comment0? || c.state.Comment1? || c.state.Comment2? || c.state.Comment3? || c.state.Comment4?)
            ==> Suits(c, CommentMoves(c, ch))
  {
    hide Is, IsName, IsNameStart, IsSpace, IsRef, IsQuote, IsNum, IsAlpha, IsEncName, Text;
  }

  lemma DtSuits(c: Ctl, ch: Byte)
    requires Returns(c)
    ensures (c.state.Dt0? || c.state.Dt1? || c.state.Dt2? || c.state.Dt3? || c.state.Dt4?) ==> Suits(c, DtMoves(c, ch))
  {
    hide Is, IsName, IsNameStart, IsSpace, IsRef, IsQuote, IsNum, IsAlpha, IsEncName, Text;
  }

  lemma ElemSuits(c: Ctl, ch: Byte)
    requires Returns(c)
    ensures (c.state.Elem0? || c.state.Elem1? || c.state.Elem2? || c.state.Elem3?) ==> Suits(c, ElemMoves(c, ch))
  {
    hide Is, IsName, IsNameStart, IsSpace, IsRef, IsQuote, IsNum, IsAlpha, IsEncName, Text;
  }

  lemma EtagSuits(c: Ctl, ch: Byte)
    requires Returns(c)
    ensures (c.state.Etag0? || c.state.Etag1? || c.state.Etag2?) ==> Suits(c, EtagMoves(c, ch))
  {
    hide Is, IsName, IsNameStart, IsSpace, IsRef, IsQuote, IsNum, IsAlpha, IsEncName, Text;
  }

  lemma OpeningSuits(c: Ctl, ch: Byte)
    requires Returns(c)
    ensures (c.state.Init? || c.state.Le0? || c.state.Le1?) ==> Suits(c, OpeningMoves(c, ch))
  {
    hide Is, IsName, IsNameStart, IsSpace, IsRef, IsQuote, IsNum, IsAlpha, IsEncName, Text;
  }

  lemma MarkupSuits(c: Ctl, ch: Byte)
    requires Returns(c)
    ensures (c.state.Lee1? || c.state.Leq0?) ==> Suits(c, MarkupMoves(c, ch))
  {
    hide Is, IsName, IsNameStart, IsSpace, IsRef, IsQuote, IsNum, IsAlpha, IsEncName, Text;
  }

  lemma MiscSuits(c: Ctl, ch: Byte)
    requires Returns(c)
    ensures (c.state.Misc0? || c.state.Misc1? || c.state.Misc3? || c.state.Le3?) ==> Suits(c, MiscMoves(c, ch))
  {
    hide Is, IsName, IsNameStart, IsSpace, IsRef, IsQuote, IsNum, IsAlpha, IsEncName, Text;
  }

  lemma PiSuits(c: Ctl, ch: Byte)
    requires Returns(c)
    ensures (c.state.Pi0? || c.state.Pi1? || c.state.Pi2? || c.state.Pi3? || c.state.Pi4?) ==> Suits(c, PiMoves(c, ch))
  {
    hide Is, IsName, IsNameStart, IsSpace, IsRef, IsQuote, IsNum, IsAlpha, IsEncName, Text;
  }

  lemma XmlNameSuits(c: Ctl, ch: Byte)
    requires Returns(c)
    ensures (c.state.XmlDecl0? || c.state.XmlDecl1? || c.state.XmlDecl2?) ==> Suits(c, XmlNameMoves(c, ch))
  {
    hide Is, IsName, IsNameStart, IsSpace, IsRef, IsQuote, IsNum, IsAlpha, IsEncName, Text;
  }

  lemma EncSuits(c: Ctl, ch: Byte)
    requires Returns(c)
    ensures (c.state.Enc0? || c.state.Enc1? || c.state.Enc2? || c.state.Enc3?) ==> Suits(c, EncMoves(c, ch))
  {
    hide Is, IsName, IsNameStart, IsSpace, IsRef, IsQuote, IsNum, IsAlpha, IsEncName, Text;
  }

  lemma StdSuits(c: Ctl, ch: Byte)
    requires Returns(c)
    ensures (c.state.Std0? || c.state.Std1? || c.state.Std2? || c.state.Std3?) ==> Suits(c, StdMoves(c, ch))
  {
    hide Is, IsName, IsNameStart, IsSpace, IsRef, IsQuote, IsNum, IsAlpha, IsEncName, Text;
  }

  lemma VerSuits(c: Ctl, ch: Byte)
    requires Returns(c)
    ensures (c.state.Ver0? || c.state.Ver1? || c.state.Ver2? || c.state.Ver3?) ==> Suits(c, VerMoves(c, ch))
  {
    hide Is, IsName, IsNameStart, IsSpace, IsRef, IsQuote, IsNum, IsAlpha, IsEncName, Text;
  }

  lemma XmlDeclSuits(c: Ctl, ch: Byte)
    requires Returns(c)
    ensures (c.state.XmlDecl3? || c.state.XmlDecl4? || c.state.XmlDecl5?) ==> Suits(c, XmlDeclMoves(c, ch))
  {
    hide Is, IsName, IsNameStart, IsSpace, IsRef, IsQuote, IsNum, IsAlpha, IsEncName, Text;
  }

  lemma DeclEndSuits(c: Ctl, ch: Byte)
    requires Returns(c)
    ensures (c.state.XmlDecl6? || c.state.XmlDecl7? || c.state.XmlDecl8? || c.state.XmlDecl9?)
            ==> Suits(c, DeclEndMoves(c, ch))
  {
    hide Is, IsName, IsNameStart, IsSpace, IsRef, IsQuote, IsNum, IsAlpha, IsEncName, Text;
  }

  /** Every entry of the table keeps the discipline between states and stack. */
  lemma ControlSuits(c: Ctl, ch: Byte)
    requires Returns(c)
    ensures Suits(c, Control(c, ch))
  {
    hide Suits, Returns, AttrMoves, CdMoves, ContentMoves, LiteralMoves, CommentMoves, DtMoves, ElemMoves, EtagMoves;
    hide OpeningMoves, MarkupMoves, MiscMoves, PiMoves, XmlNameMoves, EncMoves, StdMoves, VerMoves, XmlDeclMoves,
         DeclEndMoves;
    AttrSuits(c, ch);
    CdSuits(c, ch);
    ContentSuits(c, ch);
    LiteralSuits(c, ch);
    CommentSuits(c, ch);
    DtSuits(c, ch);
    ElemSuits(c, ch);
    EtagSuits(c, ch);
    OpeningSuits(c, ch);
    MarkupSuits(c, ch);
    MiscSuits(c, ch);
    PiSuits(c, ch);
    XmlNameSuits(c, ch);
    EncSuits(c, ch);
    StdSuits(c, ch);
    VerSuits(c, ch);
    XmlDeclSuits(c, ch);
    DeclEndSuits(c, ch);
  }

  /// One octet

  lemma TopIsThere(p: Parser, ch: Byte)
    requires Shape(p)
    ensures NeedsTop(Control(p.ctl, ch).action) ==> p.stack != []
  {
    hide Control, Returns;
    ControlSuits(p.ctl, ch);
  }

  function Octet(room: nat, p: Parser, ch: Byte): Result
    requires Shape(p)
  {
    TopIsThere(p, ch);
    var m := Control(p.ctl, ch);
    Do(room, p.(ctl := m.ctl), m.action, ch)
  }

  /** Line ends are normalised; a zero octet is an error. */
  function Parse(room: nat, p: Parser, octet: Byte): Result
    requires Shape(p)
  {
    if octet == 0 then Fail(SynError, p)
    else if p.ignore == octet then Result(Ok, p.(ignore := 0), [])
    else Octet(room, p.(ignore := if octet == 0x0D then 0x0A else 0), if octet == 0x0D then 0x0A else octet)
  }

  /** The shape of the stack for a control state. */
  predicate Fits(c: Ctl, stack: seq<Name>, closing: Name) {
    && (HasExtra(c.state) ==> stack != [])
    && (PlaceOf(c).Inside? <==> (if HasExtra(c.state) then |stack| > 1 else stack != []))
    && (!c.state.Etag1? ==> closing == []) && (c.state.Etag1? ==> stack != [] && closing <= Top(stack))
  }

  predicate GoodNames(stack: seq<Name>) {
    forall i :: 0 <= i < |stack| ==> GoodName(stack[i])
  }
}
