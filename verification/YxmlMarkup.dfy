/** Everything but tags: blanks, references, comments, processing instructions and character data. */
module YxmlMarkup {
  import opened Bytes
  import opened YxmlClient
  import opened YxmlData
  import opened YxmlSpec
  import opened YxmlTree

  const SPACE: Byte := 32
  const BANG: Byte := 33
  const AMP: Byte := 38
  const DASH: Byte := 45
  const SLASH: Byte := 47
  const SEMICOLON: Byte := 59
  const LT: Byte := 60
  const EQUALS: Byte := 61
  const GT: Byte := 62
  const ASK: Byte := 63
  const OPEN: Byte := 91
  const CLOSE: Byte := 93

  /// Octets and names

  lemma NamesArePlain(ch: Byte)
    ensures IsName(ch) ==> IsPlain(ch)
    ensures IsNameStart(ch) ==> IsName(ch) && ch != BANG && ch != ASK && ch != SLASH
    ensures IsQuote(ch) ==> IsPlain(ch) && !IsName(ch)
    ensures IsRef(ch) || IsSpace(ch) ==> IsPlain(ch)
  {
  }

  lemma PlainName(n: Name)
    requires IsXmlTag(n)
    ensures n != [] && IsNameStart(n[0]) && forall i :: 0 <= i < |n| ==> IsPlain(n[i]) && IsName(n[i])
  {
    hide IsNameStart, IsName;
    forall i | 0 <= i < |n|
      ensures IsPlain(n[i])
    {
      NamesArePlain(n[i]);
    }
  }

  /// Blanks

  predicate AreBlanks(w: seq<Byte>) {
    forall i :: 0 <= i < |w| ==> IsSpace(w[i])
  }

  /** States in which blanks are passed over. */
  predicate PassesBlanks(s: State) {
    s.Elem1? || s.Attr1? || s.Attr2? || s.Etag2? || s.Misc0? || s.Misc1? || s.Misc3?
  }

  lemma BlankTable(c: Ctl, ch: Byte)
    ensures PassesBlanks(c.state) && IsSpace(ch) ==> Control(c, ch) == Move(c, Nothing)
  {
  }

  lemma BlanksGo(room: nat, p: Parser, state: State, stack: seq<Name>, w: seq<Byte>)
    requires On(p, state, stack) && PassesBlanks(state) && AreBlanks(w)
    ensures Goes(room, p, w, p, [])
  {
    hide Goes, Control, On, IsSpace;
    StateOn(p, state, stack);
    forall i | 0 <= i < |w|
      ensures IsPlain(w[i]) && Control(p.ctl, w[i]) == Move(p.ctl, Nothing)
    {
      NamesArePlain(w[i]);
      BlankTable(p.ctl, w[i]);
    }
    Stays(room, p, state, stack, w);
  }

  /** The first blank leaves a state, the others are passed over. */
  lemma BlanksAfter(room: nat, p: Parser, p1: Parser, to: State, stack: seq<Name>, w: seq<Byte>, tokens: seq<Token>)
    requires w != [] && AreBlanks(w) && On(p1, to, stack) && PassesBlanks(to) && Goes(room, p, [w[0]], p1, tokens)
    ensures Goes(room, p, w, p1, tokens)
  {
    hide Goes, On, IsSpace;
    BlanksGo(room, p1, to, stack, w[1..]);
    GoesBefore(room, p, [w[0]], p1, tokens, w[1..], p1);
    assert w == [w[0]] + w[1..];
  }

  /// References

  lemma RefTable(c: Ctl, ch: Byte)
    ensures c.state.Misc2? ==> Control(c, AMP) == Move(c.(state := Misc2a), RefStart)
    ensures c.state.Attr3? ==> Control(c, AMP) == Move(c.(state := Attr4), RefStart)
    ensures (c.state.Misc2a? || c.state.Attr4?) && IsRef(ch) ==> Control(c, ch) == Move(c, RefName)
    ensures c.state.Misc2a? ==> Control(c, SEMICOLON) == Move(c.(state := Misc2), RefContent)
    ensures c.state.Attr4? ==> Control(c, SEMICOLON) == Move(c.(state := Attr3), RefAttrValue)
  {
  }

  /** A reference that stands for a character. */
  predicate IsReference(n: seq<Byte>) {
    |n| <= REF_MAX && (forall i :: 0 <= i < |n| ==> IsRef(n[i])) && RefAllowed(RefValue(n))
  }

  function RefText(n: seq<Byte>): seq<Byte> {
    [AMP] + n + [SEMICOLON]
  }

  function RefData(n: seq<Byte>): seq<Byte>
    requires IsReference(n)
  {
    Utf8(RefValue(n))
  }

  function RefState(from: State): State {
    if from.Misc2? then Misc2a else Attr4
  }

  function RefRet(from: State): Ret {
    if from.Misc2? then ContentToken else AttrValueToken
  }

  lemma RefBegins(room: nat, p: Parser, from: State, stack: seq<Name>) returns (p': Parser)
    requires On(p, from, stack) && (from.Misc2? || from.Attr3?)
    ensures On(p', RefState(from), stack) && p'.ctl == p.ctl.(state := RefState(from)) && p'.reference == []
    ensures Goes(room, p, [AMP], p', [])
  {
    RefTable(p.ctl, AMP);
    hide Control, Shape;
    var r := Parse(room, p, AMP);
    GoesOne(room, p, AMP, r);
    p' := r.p;
  }

  lemma RefGrows(room: nat, p: Parser, state: State, stack: seq<Name>, octet: Byte) returns (p': Parser)
    requires On(p, state, stack) && (state.Misc2a? || state.Attr4?) && IsRef(octet) && |p.reference| < REF_MAX
    ensures On(p', state, stack) && p'.ctl == p.ctl && p'.reference == p.reference + [octet]
            && Goes(room, p, [octet], p', [])
  {
    RefTable(p.ctl, octet);
    NamesArePlain(octet);
    hide Control, Shape, IsRef;
    var r := Parse(room, p, octet);
    GoesOne(room, p, octet, r);
    p' := r.p;
  }

  lemma {:induction false} RefRest(room: nat, p: Parser, state: State, stack: seq<Name>, n: seq<Byte>, k: nat)
    returns (p': Parser)
    requires On(p, state, stack) && (state.Misc2a? || state.Attr4?)
    requires k <= |n| <= REF_MAX && (forall i :: 0 <= i < |n| ==> IsRef(n[i])) && p.reference == n[..k]
    ensures On(p', state, stack) && p'.ctl == p.ctl && p'.reference == n && Goes(room, p, n[k..], p', [])
    decreases |n| - k
  {
    hide Goes, On, IsRef;
    if k == |n| {
      assert n[..k] == n && n[k..] == [];
      p' := p;
      GoesNothing(room, p, state, stack);
    } else {
      var p1 := RefGrows(room, p, state, stack, n[k]);
      assert n[..k] + [n[k]] == n[..k + 1] && n[k..] == [n[k]] + n[k + 1..];
      p' := RefRest(room, p1, state, stack, n, k + 1);
      GoesAfter(room, p, [n[k]], p1, n[k + 1..], p', []);
    }
  }

  lemma RefEnds(room: nat, p: Parser, from: State, stack: seq<Name>, n: seq<Byte>) returns (p': Parser)
    requires On(p, RefState(from), stack) && (from.Misc2? || from.Attr3?) && p.reference == n && IsReference(n)
    ensures On(p', from, stack) && p'.ctl == p.ctl.(state := from)
    ensures Goes(room, p, [SEMICOLON], p', DataTokens(RefRet(from), RefData(n)))
  {
    RefTable(p.ctl, SEMICOLON);
    hide Control, Shape, RefValue, RefAllowed, DataTokens, Utf8, IsRef;
    var r := Parse(room, p, SEMICOLON);
    GoesOne(room, p, SEMICOLON, r);
    p' := r.p;
  }

  /** A reference is seen as the UTF-8 octets of its character. */
  lemma RefGoes(room: nat, p: Parser, from: State, stack: seq<Name>, n: seq<Byte>) returns (p': Parser)
    requires On(p, from, stack) && (from.Misc2? || from.Attr3?) && IsReference(n)
    ensures On(p', from, stack) && p'.ctl == p.ctl
            && Goes(room, p, RefText(n), p', DataTokens(RefRet(from), RefData(n)))
  {
    hide Goes, On, IsRef, RefValue, RefAllowed, DataTokens, RefData;
    StateOn(p, from, stack);
    var p1 := RefBegins(room, p, from, stack);
    assert n[..0] == [] && n[0..] == n;
    var p2 := RefRest(room, p1, RefState(from), stack, n, 0);
    p' := RefEnds(room, p2, from, stack, n);
    GoesAfter(room, p, [AMP], p1, n, p2, []);
    GoesAfter(room, p, [AMP] + n, p2, [SEMICOLON], p', DataTokens(RefRet(from), RefData(n)));
  }

  /// Where markup begins

  lemma StartTable(c: Ctl)
    ensures c.state.Init? ==> Control(c, LT) == Move(c.(state := Le0), Nothing)
    ensures c.state.Misc0? ==> Control(c, LT) == Move(c.(state := Le0), Nothing)
    ensures c.state.Misc1? ==> Control(c, LT) == Move(c.(state := Le1), Nothing)
    ensures c.state.Misc2? ==> Control(c, LT) == Move(c.(state := Le2), Nothing)
    ensures c.state.Misc3? ==> Control(c, LT) == Move(c.(state := Le3), Nothing)
  {
  }

  /** The state behind the first octet of markup. */
  function Marked(from: State): State {
    if from.Misc1? then Le1 else if from.Misc2? then Le2 else if from.Misc3? then Le3 else Le0
  }

  /// Comments

  lemma CommentTable(c: Ctl, ch: Byte)
    ensures c.state.Le2? ==> Control(c, BANG) == Move(c.(state := Lee2), Nothing)
    ensures c.state.Le0? || c.state.Le1? ==> Control(c, BANG) == Move(c.(state := Lee1), Nothing)
    ensures c.state.Le3? ==> Control(c, BANG) == Move(c.(state := Comment0, next := Misc3), Nothing)
    ensures c.state.Lee2? ==> Control(c, DASH) == Move(c.(state := Comment1, next := Misc2), Nothing)
    ensures c.state.Lee1? ==> Control(c, DASH) == Move(c.(state := Comment1, next := Misc1), Nothing)
    ensures c.state.Comment0? ==> Control(c, DASH) == Move(c.(state := Comment1), Nothing)
    ensures c.state.Comment1? ==> Control(c, DASH) == Move(c.(state := Comment2), Nothing)
    ensures c.state.Comment2? && ch != DASH ==> Control(c, ch) == Move(c, Nothing)
    ensures c.state.Comment2? ==> Control(c, DASH) == Move(c.(state := Comment3), Nothing)
    ensures c.state.Comment3? && ch != DASH ==> Control(c, ch) == Move(c.(state := Comment2), Nothing)
    ensures c.state.Comment3? ==> Control(c, DASH) == Move(c.(state := Comment4), Nothing)
    ensures c.state.Comment4? ==> Control(c, GT) == Move(c.(state := c.next), Nothing)
  {
  }

  /** No two dashes in a row, and none at the end. */
  predicate IsCommentText(t: seq<Byte>)
    decreases |t|
  {
    t == [] ||
    if t[0] == DASH then |t| > 1 && t[1] != DASH && IsPlain(t[1]) && IsCommentText(t[2..])
    else IsPlain(t[0]) && IsCommentText(t[1..])
  }

  lemma {:induction false} CommentTextGoes(room: nat, p: Parser, stack: seq<Name>, t: seq<Byte>) returns (p': Parser)
    requires On(p, Comment2, stack) && IsCommentText(t)
    ensures On(p', Comment2, stack) && p'.ctl.next == p.ctl.next && Goes(room, p, t, p', [])
    decreases |t|
  {
    hide Goes, Control, On;
    StateOn(p, Comment2, stack);
    if t == [] {
      p' := p;
      GoesNothing(room, p, Comment2, stack);
    } else {
      CommentTable(p.ctl, t[0]);
      if t[0] == DASH {
        var p1 := Quietly(room, p, Comment2, stack, DASH, Comment3);
        CommentTable(p1.ctl, t[1]);
        var p2 := Quietly(room, p1, Comment3, stack, t[1], Comment2);
        p' := CommentTextGoes(room, p2, stack, t[2..]);
        GoesAfter(room, p, [DASH], p1, [t[1]], p2, []);
        GoesAfter(room, p, [DASH] + [t[1]], p2, t[2..], p', []);
        assert t == [DASH] + [t[1]] + t[2..];
      } else {
        var p1 := Quietly(room, p, Comment2, stack, t[0], Comment2);
        p' := CommentTextGoes(room, p1, stack, t[1..]);
        GoesAfter(room, p, [t[0]], p1, t[1..], p', []);
        assert t == [t[0]] + t[1..];
      }
    }
  }

  /** From the second dash to the end of a comment. */
  function CommentTail(t: seq<Byte>): seq<Byte> {
    [DASH] + t + [DASH] + [DASH] + [GT]
  }

  lemma CommentRest(room: nat, p: Parser, stack: seq<Name>, t: seq<Byte>) returns (p': Parser)
    requires On(p, Comment1, stack) && IsCommentText(t) && !p.ctl.next.Etag1?
    ensures On(p', p.ctl.next, stack) && Goes(room, p, CommentTail(t), p', [])
  {
    hide Goes, Control, On, IsCommentText;
    StateOn(p, Comment1, stack);
    CommentTable(p.ctl, DASH);
    var p1 := Quietly(room, p, Comment1, stack, DASH, Comment2);
    var p2 := CommentTextGoes(room, p1, stack, t);
    StateOn(p2, Comment2, stack);
    CommentTable(p2.ctl, DASH);
    var p3 := Quietly(room, p2, Comment2, stack, DASH, Comment3);
    CommentTable(p3.ctl, DASH);
    var p4 := Quietly(room, p3, Comment3, stack, DASH, Comment4);
    CommentTable(p4.ctl, GT);
    p' := Quietly(room, p4, Comment4, stack, GT, p.ctl.next);
    GoesAfter(room, p, [DASH], p1, t, p2, []);
    GoesAfter(room, p, [DASH] + t, p2, [DASH], p3, []);
    GoesAfter(room, p, [DASH] + t + [DASH], p3, [DASH], p4, []);
    GoesAfter(room, p, [DASH] + t + [DASH] + [DASH], p4, [GT], p', []);
  }

  function CommentText(t: seq<Byte>): seq<Byte> {
    [LT] + [BANG] + [DASH] + CommentTail(t)
  }

  /** Where a document stands behind a comment or an instruction. */
  function After(from: State): State {
    if from.Misc2? || from.Misc3? then from else Misc1
  }

  predicate Outside(s: State) {
    s.Init? || s.Misc0? || s.Misc1? || s.Misc2? || s.Misc3?
  }

  /** The first three octets of a comment. */
  lemma CommentHead(room: nat, p: Parser, from: State, stack: seq<Name>) returns (p': Parser)
    requires On(p, from, stack) && Outside(from)
    ensures On(p', Comment1, stack) && p'.ctl.next == After(from) && Goes(room, p, [LT] + [BANG] + [DASH], p', [])
  {
    hide Goes, Control, On;
    StateOn(p, from, stack);
    StartTable(p.ctl);
    var p1 := Quietly(room, p, from, stack, LT, Marked(from));
    StateOn(p1, Marked(from), stack);
    CommentTable(p1.ctl, BANG);
    var s2 := if from.Misc3? then Comment0 else if from.Misc2? then Lee2 else Lee1;
    var p2 := Quietly(room, p1, Marked(from), stack, BANG, s2);
    StateOn(p2, s2, stack);
    CommentTable(p2.ctl, DASH);
    p' := Quietly(room, p2, s2, stack, DASH, Comment1);
    GoesAfter(room, p, [LT], p1, [BANG], p2, []);
    GoesAfter(room, p, [LT] + [BANG], p2, [DASH], p', []);
  }

  lemma CommentGoes(room: nat, p: Parser, from: State, stack: seq<Name>, t: seq<Byte>) returns (p': Parser)
    requires On(p, from, stack) && Outside(from) && IsCommentText(t)
    ensures On(p', After(from), stack) && Goes(room, p, CommentText(t), p', [])
  {
    hide Goes, On, IsCommentText, CommentTail;
    var p1 := CommentHead(room, p, from, stack);
    p' := CommentRest(room, p1, stack, t);
    GoesAfter(room, p, [LT] + [BANG] + [DASH], p1, CommentTail(t), p', []);
  }

  /// Processing instructions: the text

  lemma PiTable(c: Ctl, ch: Byte)
    ensures c.state.Le1? ==> Control(c, ASK) == Move(c.(state := Pi0, next := Misc1), Nothing)
    ensures c.state.Le2? ==> Control(c, ASK) == Move(c.(state := Pi0, next := Misc2), Nothing)
    ensures c.state.Le3? ==> Control(c, ASK) == Move(c.(state := Pi0, next := Misc3), Nothing)
    ensures c.state.Pi0? && IsNameStart(ch) ==> Control(c, ch) == Move(c.(state := Pi1), PiStart)
    ensures c.state.Pi1? && IsName(ch) ==> Control(c, ch) == Move(c, PiName)
    ensures InPiName(c.state) && IsSpace(ch) ==> Control(c, ch) == Move(c.(state := Pi2), PiNameEnd)
    ensures InPiName(c.state) && ch == ASK ==> Control(c, ch) == Move(c.(state := Pi4), PiNameEnd)
    ensures c.state.Pi2? && ch != ASK ==> Control(c, ch) == Move(c, Action.PiContent)
    ensures c.state.Pi2? && ch == ASK ==> Control(c, ch) == Move(c.(state := Pi3), Nothing)
    ensures c.state.Pi3? && ch != GT ==> Control(c, ch) == Move(c.(state := Pi2), Action.PiContent1)
    ensures (c.state.Pi3? || c.state.Pi4?) && ch == GT ==> Control(c, ch) == Move(c.(state := c.next), Action.PiEnd)
  {
  }

  /** The states in which the name of an instruction may end; the last two stand behind an x or xm. */
  predicate InPiName(s: State) {
    s.Pi1? || s.XmlDecl0? || s.XmlDecl1?
  }

  /** Each question mark is taken together with the octet behind it, which must not end the instruction. */
  predicate IsPiText(t: seq<Byte>)
    decreases |t|
  {
    t == [] ||
    if t[0] == ASK then |t| > 1 && t[1] != GT && IsPlain(t[1]) && IsPiText(t[2..])
    else IsPlain(t[0]) && IsPiText(t[1..])
  }

  /** A question mark and the octet behind it. */
  lemma AskGoes(room: nat, p: Parser, stack: seq<Name>, octet: Byte) returns (p': Parser)
    requires On(p, Pi2, stack) && IsPlain(octet) && octet != GT
    ensures On(p', Pi2, stack) && p'.ctl.next == p.ctl.next
    ensures Goes(room, p, [ASK] + [octet], p', DataTokens(PiContentToken, [ASK] + [octet]))
  {
    hide Goes, Control, On, DataTokens;
    StateOn(p, Pi2, stack);
    PiTable(p.ctl, ASK);
    var p1 := Quietly(room, p, Pi2, stack, ASK, Pi3);
    PiTable(p1.ctl, octet);
    p' := TellsOne(room, p1, Pi3, stack, octet, Pi2);
    assert [QUESTION, octet] == [ASK] + [octet];
    GoesAfter(room, p, [ASK], p1, [octet], p', DataTokens(PiContentToken, [ASK] + [octet]));
  }

  lemma PiOctetGoes(room: nat, p: Parser, stack: seq<Name>, octet: Byte) returns (p': Parser)
    requires On(p, Pi2, stack) && IsPlain(octet) && octet != ASK
    ensures On(p', Pi2, stack) && p'.ctl.next == p.ctl.next
            && Goes(room, p, [octet], p', DataTokens(PiContentToken, [octet]))
  {
    hide Goes, Control, On, DataTokens;
    StateOn(p, Pi2, stack);
    PiTable(p.ctl, octet);
    p' := TellsOne(room, p, Pi2, stack, octet, Pi2);
  }

  lemma {:induction false} PiTextGoes(room: nat, p: Parser, stack: seq<Name>, t: seq<Byte>) returns (p': Parser)
    requires On(p, Pi2, stack) && IsPiText(t)
    ensures On(p', Pi2, stack) && p'.ctl.next == p.ctl.next && Goes(room, p, t, p', DataTokens(PiContentToken, t))
    decreases |t|
  {
    hide Goes, On, DataTokens;
    if t == [] {
      p' := p;
      GoesNothing(room, p, Pi2, stack);
      NoDataTokens(PiContentToken);
    } else {
      var a, p1 := [t[0]], p;
      if t[0] == ASK {
        a := [ASK] + [t[1]];
        p1 := AskGoes(room, p, stack, t[1]);
      } else {
        p1 := PiOctetGoes(room, p, stack, t[0]);
      }
      p' := PiTextGoes(room, p1, stack, t[|a|..]);
      assert t == a + t[|a|..];
      DataGoes(room, p, PiContentToken, a, p1, t[|a|..], p');
    }
  }

  /** The text and the end of an instruction. */
  lemma PiTailGoes(room: nat, p: Parser, stack: seq<Name>, n: Name, t: seq<Byte>) returns (p': Parser)
    requires On(p, Pi2, stack + [n]) && !p.ctl.next.Etag1? && IsPiText(t)
    ensures On(p', p.ctl.next, stack)
    ensures Goes(room, p, t + [ASK] + [GT], p', DataTokens(PiContentToken, t) + [InstructionEnds])
  {
    hide Goes, Control, On, DataTokens, IsPiText;
    var p1 := PiTextGoes(room, p, stack + [n], t);
    StateOn(p1, Pi2, stack + [n]);
    PiTable(p1.ctl, ASK);
    var p2 := Quietly(room, p1, Pi2, stack + [n], ASK, Pi3);
    PiTable(p2.ctl, GT);
    p' := DropsName(room, p2, Pi3, stack, n, GT, p.ctl.next);
    GoesBefore(room, p, t, p1, DataTokens(PiContentToken, t), [ASK], p2);
    GoesThen(room, p, t + [ASK], p2, DataTokens(PiContentToken, t), [GT], p', [InstructionEnds]);
  }

  /// When the end of an instruction is seen

  /** The text holds no end of an instruction. */
  predicate NoPiEnd(t: seq<Byte>) {
    forall i :: 0 <= i < |t| - 1 && t[i] == ASK ==> t[i + 1] != GT
  }

  /** The number of question marks at the end. */
  function Asks(t: seq<Byte>): (n: nat)
    ensures n <= |t|
  {
    if t == [] || t[|t| - 1] != ASK then 0 else 1 + Asks(t[..|t| - 1])
  }

  lemma {:induction false} AsksCons(a: Byte, u: seq<Byte>)
    ensures Asks([a] + u) == if a == ASK && Asks(u) == |u| then |u| + 1 else Asks(u)
    decreases |u|
  {
    if u == [] {
      assert ([a] + u)[..0] == [];
    } else {
      var k := |u| - 1;
      assert ([a] + u)[..k + 1] == [a] + u[..k] && ([a] + u)[k + 1] == u[k];
      AsksCons(a, u[..k]);
    }
  }

  /** A text without an end in it is taken in pairs exactly if an even number of question marks ends it. */
  lemma {:induction false} PiTextIff(t: seq<Byte>)
    requires ArePlain(t) && NoPiEnd(t)
    ensures IsPiText(t) <==> Asks(t) % 2 == 0
    decreases |t|
  {
    hide Asks, IsPlain;
    AsksNone();
    if t != [] {
      assert t == [t[0]] + t[1..];
      AsksCons(t[0], t[1..]);
      if t[0] != ASK {
        PiTextIff(t[1..]);
      } else if |t| > 1 {
        assert t[1..] == [t[1]] + t[2..];
        AsksCons(t[1], t[2..]);
        PiTextIff(t[2..]);
      } else {
        assert t[1..] == [];
      }
    }
  }

  lemma AsksNone()
    ensures Asks([]) == 0
  {
  }

  lemma LastAsk(t: seq<Byte>)
    requires ArePlain(t) && NoPiEnd(t) && Asks(t) % 2 == 1
    ensures t != [] && var u := t[..|t| - 1]; t == u + [ASK] && ArePlain(u) && NoPiEnd(u) && Asks(u) % 2 == 0
  {
  }

  /** With an odd number of question marks before it, the end of an instruction is taken for text. */
  lemma PiEndMissed(room: nat, p: Parser, stack: seq<Name>, t: seq<Byte>) returns (p': Parser)
    requires On(p, Pi2, stack) && ArePlain(t) && NoPiEnd(t) && Asks(t) % 2 == 1
    ensures On(p', Pi2, stack) && Goes(room, p, t + [ASK] + [GT], p', DataTokens(PiContentToken, t + [ASK] + [GT]))
  {
    hide Goes, On, DataTokens, Asks, NoPiEnd, ArePlain, IsPiText;
    LastAsk(t);
    var u, ask := t[..|t| - 1], [ASK] + [ASK];
    PiTextIff(u);
    var p1 := PiTextGoes(room, p, stack, u);
    var p2 := AskGoes(room, p1, stack, ASK);
    p' := PiOctetGoes(room, p2, stack, GT);
    DataGoes(room, p, PiContentToken, u, p1, ask, p2);
    DataGoes(room, p, PiContentToken, u + ask, p2, [GT], p');
    assert u + ask + [GT] == t + [ASK] + [GT];
  }

  /** The end of an instruction is seen, and its name dropped, exactly if the text does not end in an odd number of
      question marks. */
  lemma PiEndIff(room: nat, p: Parser, stack: seq<Name>, n: Name, t: seq<Byte>)
    requires On(p, Pi2, stack + [n]) && !p.ctl.next.Etag1? && ArePlain(t) && NoPiEnd(t)
    ensures Shape(p)
    ensures var r := Run(room, p, t + [ASK] + [GT]); r.ret == Ok && (r.p.stack == stack <==> Asks(t) % 2 == 0)
  {
    assert Shape(p);
    hide Goes, On, DataTokens, Asks, NoPiEnd, ArePlain, Run, Shape;
    PiTextIff(t);
    if Asks(t) % 2 == 0 {
      var p' := PiTailGoes(room, p, stack, n, t);
      StateOn(p', p.ctl.next, stack);
      GoesRuns(room, p, t + [ASK] + [GT], p', DataTokens(PiContentToken, t) + [InstructionEnds]);
    } else {
      var p' := PiEndMissed(room, p, stack + [n], t);
      StateOn(p', Pi2, stack + [n]);
      GoesRuns(room, p, t + [ASK] + [GT], p', DataTokens(PiContentToken, t + [ASK] + [GT]));
      assert |stack + [n]| > |stack|;
    }
  }

  /// Processing instructions: the name

  lemma PiNameMoves(c: Ctl, n: Name)
    requires IsXmlTag(n) && c.state.Pi0?
    ensures Control(c, n[0]) == Move(c.(state := Pi1), PiStart)
    ensures forall i :: 1 <= i < |n| ==> Control(c.(state := Pi1), n[i]) == Move(c.(state := Pi1), PiName)
  {
    hide Control, IsName, IsNameStart;
    PiTable(c, n[0]);
    forall i | 1 <= i < |n|
      ensures Control(c.(state := Pi1), n[i]) == Move(c.(state := Pi1), PiName)
    {
      PiTable(c.(state := Pi1), n[i]);
    }
  }

  lemma PiNameGoes(room: nat, p: Parser, stack: seq<Name>, n: Name) returns (p': Parser)
    requires On(p, Pi0, stack) && IsXmlTag(n) && Size(stack) + |n| + 1 < room
    ensures On(p', Pi1, stack + [n]) && p'.ctl.next == p.ctl.next && Goes(room, p, n, p', [])
  {
    hide Goes, Control, Size, On;
    StateOn(p, Pi0, stack);
    PlainName(n);
    PiNameMoves(p.ctl, n);
    hide IsName, IsNameStart;
    p' := NameGoes(room, p, Pi0, stack, n, Pi1);
  }

  const LOWER_L: Byte := 108
  const LOWER_M: Byte := 109
  const LOWER_X: Byte := 120

  /** At the beginning of a document the name may still become that of the declaration. */
  lemma FirstNameTable(c: Ctl, ch: Byte)
    ensures c.state.Le0? ==> Control(c, ASK) == Move(c.(state := Leq0), Nothing)
    ensures c.state.Leq0? && ch == LOWER_X ==> Control(c, ch) == Move(c.(state := XmlDecl0, next := Misc1), PiStart)
    ensures c.state.Leq0? && ch != LOWER_X && IsNameStart(ch)
            ==> Control(c, ch) == Move(c.(state := Pi1, next := Misc1), PiStart)
    ensures c.state.XmlDecl0? && IsName(ch)
            ==> Control(c, ch) == Move(c.(state := if ch == LOWER_M then XmlDecl1 else Pi1), PiName)
    ensures c.state.XmlDecl1? && IsName(ch)
            ==> Control(c, ch) == Move(c.(state := if ch == LOWER_L then XmlDecl2 else Pi1), PiName)
    ensures (c.state.XmlDecl2? || c.state.Pi1?) && IsName(ch) ==> Control(c, ch) == Move(c.(state := Pi1), PiName)
  {
  }

  /** The state behind the first `k` octets of such a name. */
  function FirstNameState(n: Name, k: nat): State
    requires 1 <= k <= |n|
  {
    if k == 1 && n[0] == LOWER_X then XmlDecl0
    else if k == 2 && n[0] == LOWER_X && n[1] == LOWER_M then XmlDecl1
    else if k == 3 && n[0] == LOWER_X && n[1] == LOWER_M && n[2] == LOWER_L then XmlDecl2
    else Pi1
  }

  lemma {:induction false} FirstNameRest(room: nat, p: Parser, stack: seq<Name>, n: Name, k: nat) returns (p': Parser)
    requires 1 <= k <= |n| && On(p, FirstNameState(n, k), stack + [n[..k]]) && Size(stack) + |n| + 1 < room
    requires forall i :: 0 <= i < |n| ==> IsPlain(n[i]) && IsName(n[i])
    ensures On(p', FirstNameState(n, |n|), stack + [n]) && p'.ctl.next == p.ctl.next && Goes(room, p, n[k..], p', [])
    decreases |n| - k
  {
    hide Goes, Control, On, Size, IsName, IsNameStart;
    StateOn(p, FirstNameState(n, k), stack + [n[..k]]);
    if k == |n| {
      assert n[..k] == n && n[k..] == [];
      p' := p;
      GoesNothing(room, p, FirstNameState(n, k), stack + [n]);
    } else {
      FirstNameTable(p.ctl, n[k]);
      var p1 := GrowName(room, p, FirstNameState(n, k), stack, n[..k], n[k], FirstNameState(n, k + 1));
      assert n[..k] + [n[k]] == n[..k + 1] && n[k..] == [n[k]] + n[k + 1..];
      p' := FirstNameRest(room, p1, stack, n, k + 1);
      GoesAfter(room, p, [n[k]], p1, n[k + 1..], p', []);
    }
  }

  lemma FirstNameGoes(room: nat, p: Parser, stack: seq<Name>, n: Name) returns (p': Parser)
    requires On(p, Leq0, stack) && IsXmlTag(n) && Size(stack) + |n| + 1 < room
    ensures On(p', FirstNameState(n, |n|), stack + [n]) && p'.ctl.next == Misc1 && Goes(room, p, n, p', [])
  {
    hide Goes, Control, Size, On;
    PlainName(n);
    hide IsName, IsNameStart;
    StateOn(p, Leq0, stack);
    FirstNameTable(p.ctl, n[0]);
    var p1 := PushName(room, p, Leq0, stack, n[0], FirstNameState(n, 1));
    assert [n[0]] == n[..1];
    p' := FirstNameRest(room, p1, stack, n, 1);
    GoesAfter(room, p, [n[0]], p1, n[1..], p', []);
    assert [n[0]] + n[1..] == n;
  }

  lemma NameIsNotXml(n: Name)
    requires n != [] && !IsXml(n)
    ensures InPiName(FirstNameState(n, |n|))
  {
  }

  /// Processing instructions: all of it

  /** An instruction may have any name but xml; a blank stands between the name and the text, if there is any. */
  predicate IsInstruction(n: Name, sep: seq<Byte>, t: seq<Byte>) {
    && IsXmlTag(n) && !IsXml(n) && IsPiText(t)
    && AreBlanks(sep) && |sep| <= 1 && (sep == [] ==> t == [])
  }

  function PiTail(sep: seq<Byte>, t: seq<Byte>): seq<Byte> {
    sep + (t + [ASK] + [GT])
  }

  function PiTokens(n: Name, t: seq<Byte>): seq<Token> {
    [Instruction(n)] + (DataTokens(PiContentToken, t) + [InstructionEnds])
  }

  /** From the end of the name on. */
  lemma PiRest(room: nat, p: Parser, from: State, stack: seq<Name>, n: Name, sep: seq<Byte>, t: seq<Byte>)
    returns (p': Parser)
    requires On(p, from, stack + [n]) && InPiName(from) && !p.ctl.next.Etag1? && IsInstruction(n, sep, t)
    ensures On(p', p.ctl.next, stack) && Goes(room, p, PiTail(sep, t), p', PiTokens(n, t))
  {
    hide Goes, Control, On, IsXmlTag, IsXml, IsPiText, DataTokens, IsSpace;
    var names := stack + [n];
    SizeSnoc(stack, n);
    StateOn(p, from, names);
    if sep == [] {
      PiTable(p.ctl, ASK);
      var p1 := NameEnds(room, p, from, names, ASK, Pi4);
      PiTable(p1.ctl, GT);
      p' := DropsName(room, p1, Pi4, stack, n, GT, p.ctl.next);
      GoesThen(room, p, [ASK], p1, [Instruction(n)], [GT], p', [InstructionEnds]);
      NoDataTokens(PiContentToken);
      assert PiTail(sep, t) == [ASK] + [GT] && PiTokens(n, t) == [Instruction(n)] + [InstructionEnds];
    } else {
      PiTable(p.ctl, sep[0]);
      NamesArePlain(sep[0]);
      var p1 := NameEnds(room, p, from, names, sep[0], Pi2);
      p' := PiTailGoes(room, p1, stack, n, t);
      assert sep == [sep[0]];
      GoesThen(room, p, sep, p1, [Instruction(n)], t + [ASK] + [GT], p',
               DataTokens(PiContentToken, t) + [InstructionEnds]);
    }
  }

  function PiText(n: Name, sep: seq<Byte>, t: seq<Byte>): seq<Byte> {
    [LT] + [ASK] + n + PiTail(sep, t)
  }

  /** An instruction up to the end of its name. */
  lemma PiHead(room: nat, p: Parser, from: State, stack: seq<Name>, n: Name) returns (p': Parser, to: State)
    requires On(p, from, stack) && Outside(from) && IsXmlTag(n) && !IsXml(n) && Size(stack) + |n| + 1 < room
    ensures On(p', to, stack + [n]) && InPiName(to) && p'.ctl.next == After(from)
            && Goes(room, p, [LT] + [ASK] + n, p', [])
  {
    hide Goes, Control, On, Size, IsXmlTag, IsXml;
    StateOn(p, from, stack);
    StartTable(p.ctl);
    var p1 := Quietly(room, p, from, stack, LT, Marked(from));
    StateOn(p1, Marked(from), stack);
    PiTable(p1.ctl, ASK);
    FirstNameTable(p1.ctl, ASK);
    var p2 := Quietly(room, p1, Marked(from), stack, ASK, if Marked(from).Le0? then Leq0 else Pi0);
    if Marked(from).Le0? {
      p' := FirstNameGoes(room, p2, stack, n);
      NamesAreNotEmpty(n);
      NameIsNotXml(n);
      to := FirstNameState(n, |n|);
    } else {
      p' := PiNameGoes(room, p2, stack, n);
      to := Pi1;
    }
    GoesAfter(room, p, [LT], p1, [ASK], p2, []);
    GoesAfter(room, p, [LT] + [ASK], p2, n, p', []);
  }

  lemma NamesAreNotEmpty(n: Name)
    requires IsXmlTag(n)
    ensures n != []
  {
  }

  lemma PiGoes(room: nat, p: Parser, from: State, stack: seq<Name>, n: Name, sep: seq<Byte>, t: seq<Byte>)
    returns (p': Parser)
    requires On(p, from, stack) && Outside(from) && IsInstruction(n, sep, t) && Size(stack) + |n| + 1 < room
    ensures On(p', After(from), stack) && Goes(room, p, PiText(n, sep, t), p', PiTokens(n, t))
  {
    hide Goes, On, Size, IsXmlTag, IsXml, PiTokens, PiTail, IsPiText, AreBlanks;
    var p1, to := PiHead(room, p, from, stack, n);
    p' := PiRest(room, p1, to, stack, n, sep, t);
    GoesAfter(room, p, [LT] + [ASK] + n, p1, PiTail(sep, t), p', PiTokens(n, t));
  }

  /// Literals and character data

  lemma LiteralTable(c: Ctl)
    requires c.state.Literal? && c.literal != []
    ensures Control(c, c.literal[0]) ==
            Move(c.(literal := c.literal[1..], state := if |c.literal| == 1 then c.next else Literal), Nothing)
  {
  }

  /** A literal that must follow does. */
  lemma {:induction false} LiteralGoes(room: nat, p: Parser, stack: seq<Name>, t: seq<Byte>) returns (p': Parser)
    requires On(p, Literal, stack) && p.ctl.literal == t != [] && ArePlain(t) && !p.ctl.next.Etag1?
    ensures On(p', p.ctl.next, stack) && p'.ctl.next == p.ctl.next && p'.ctl.quote == p.ctl.quote
            && Goes(room, p, t, p', [])
    decreases |t|
  {
    hide Goes, Control, On;
    StateOn(p, Literal, stack);
    LiteralTable(p.ctl);
    if |t| == 1 {
      p' := Quietly(room, p, Literal, stack, t[0], p.ctl.next);
      assert t == [t[0]];
    } else {
      var p1 := Quietly(room, p, Literal, stack, t[0], Literal);
      p' := LiteralGoes(room, p1, stack, t[1..]);
      GoesAfter(room, p, [t[0]], p1, t[1..], p', []);
      assert t == [t[0]] + t[1..];
    }
  }

  lemma DataTable(c: Ctl, ch: Byte)
    ensures c.state.Misc2? && ch != LT && ch != AMP ==> Control(c, ch) == Move(c, Action.Content)
    ensures c.state.Lee2?
            ==> Control(c, OPEN) == Move(c.(state := Literal, next := Cd0, literal := Text("CDATA[")), Nothing)
  {
  }

  predicate IsChars(t: seq<Byte>) {
    forall i :: 0 <= i < |t| ==> IsPlain(t[i]) && t[i] != LT && t[i] != AMP
  }

  lemma {:induction false} CharsGo(room: nat, p: Parser, stack: seq<Name>, t: seq<Byte>) returns (p': Parser)
    requires On(p, Misc2, stack) && IsChars(t)
    ensures On(p', Misc2, stack) && Goes(room, p, t, p', DataTokens(ContentToken, t))
    decreases |t|
  {
    hide Goes, Control, On, DataTokens;
    if t == [] {
      p' := p;
      GoesNothing(room, p, Misc2, stack);
      NoDataTokens(ContentToken);
    } else {
      StateOn(p, Misc2, stack);
      DataTable(p.ctl, t[0]);
      var p1 := TellsOne(room, p, Misc2, stack, t[0], Misc2);
      p' := CharsGo(room, p1, stack, t[1..]);
      DataGoes(room, p, ContentToken, [t[0]], p1, t[1..], p');
      assert t == [t[0]] + t[1..];
    }
  }

  /// CDATA sections

  lemma CdataTable(c: Ctl, ch: Byte)
    ensures c.state.Cd0? ==> Control(c, ch) == if ch == CLOSE then Move(c.(state := Cd1), Nothing)
            else Move(c, Action.Content)
    ensures c.state.Cd1? ==> Control(c, ch) == if ch == CLOSE then Move(c.(state := Cd2), Nothing)
                                               else Move(c.(state := Cd0), Action.Content1)
    ensures c.state.Cd2? ==> Control(c, ch) == if ch == CLOSE then Move(c, Action.Content)
                                               else if ch == GT then Move(c.(state := Misc2), Nothing)
                                               else Move(c.(state := Cd0), Action.Content2)
  {
  }

  /** No section may hold its own end. */
  predicate NoCdataEnd(t: seq<Byte>) {
    forall i :: 0 <= i < |t| - 2 && t[i] == CLOSE && t[i + 1] == CLOSE ==> t[i + 2] != GT
  }

  predicate IsCdata(t: seq<Byte>) {
    ArePlain(t) && NoCdataEnd(t)
  }

  /** Up to two brackets are held back, since they may belong to the end. */
  function CdataState(held: nat): State {
    if held == 0 then Cd0 else if held == 1 then Cd1 else Cd2
  }

  function Brackets(held: nat): (s: seq<Byte>)
    ensures |s| == held
  {
    seq(held, _ => CLOSE)
  }

  /** One octet of a section: what was held back and what is held back behind it. */
  lemma CdataStep(room: nat, p: Parser, stack: seq<Name>, held: nat, octet: Byte)
    returns (p': Parser, held': nat, out: seq<Byte>)
    requires On(p, CdataState(held), stack) && held <= 2 && IsPlain(octet) && !(held == 2 && octet == GT)
    ensures On(p', CdataState(held'), stack) && held' <= 2 && Goes(room, p, [octet], p', DataTokens(ContentToken, out))
    ensures out + Brackets(held') == Brackets(held) + [octet]
    ensures if octet != CLOSE then held' == 0
            else held' == (if held < 2 then held + 1 else 2) && out == Brackets(held + 1 - held')
  {
    hide Goes, Control, On, DataTokens;
    StateOn(p, CdataState(held), stack);
    CdataTable(p.ctl, octet);
    if octet == CLOSE && held < 2 {
      held', out := held + 1, [];
      p' := Quietly(room, p, CdataState(held), stack, octet, CdataState(held'));
      NoDataTokens(ContentToken);
    } else {
      held' := if octet == CLOSE then 2 else 0;
      out := if octet == CLOSE then [CLOSE] else Brackets(held) + [octet];
      p' := TellsOne(room, p, CdataState(held), stack, octet, CdataState(held'));
      assert out == Data(Control(p.ctl, octet).action, [], octet);
    }
  }

  /** The rest of a section, with what is still held back. */
  lemma {:induction false} CdataRest(room: nat, p: Parser, stack: seq<Name>, held: nat, t: seq<Byte>)
    returns (p': Parser, held': nat, out: seq<Byte>)
    requires On(p, CdataState(held), stack) && held <= 2 && ArePlain(t) && NoCdataEnd(Brackets(held) + t)
    ensures On(p', CdataState(held'), stack) && held' <= 2 && Goes(room, p, t, p', DataTokens(ContentToken, out))
    ensures out + Brackets(held') == Brackets(held) + t
    decreases |t|
  {
    hide Goes, On, DataTokens, CdataState;
    if t == [] {
      p', held', out := p, held, [];
      GoesNothing(room, p, CdataState(held), stack);
      NoDataTokens(ContentToken);
    } else {
      var all := Brackets(held) + t;
      assert held == 2 ==> all[0] == CLOSE && all[1] == CLOSE && all[2] == t[0];
      var p1, h1, a := CdataStep(room, p, stack, held, t[0]);
      var rest := t[1..];
      assert all == a + (Brackets(h1) + rest) by {
        assert t == [t[0]] + rest;
        RegroupHeld(a, Brackets(h1), Brackets(held), [t[0]], rest);
      }
      NoEndBehind(a, Brackets(h1) + rest);
      var b;
      p', held', b := CdataRest(room, p1, stack, h1, rest);
      out := a + b;
      GoesThen(room, p, [t[0]], p1, DataTokens(ContentToken, a), rest, p', DataTokens(ContentToken, b));
      DataTokensConcat(ContentToken, a, b);
      assert t == [t[0]] + rest;
      assert out + Brackets(held') == a + (b + Brackets(held'));
    }
  }

  lemma RegroupHeld(a: seq<Byte>, h: seq<Byte>, g: seq<Byte>, x: seq<Byte>, rest: seq<Byte>)
    requires a + h == g + x
    ensures a + (h + rest) == g + (x + rest)
  {
    assert a + (h + rest) == (a + h) + rest;
    assert g + (x + rest) == (g + x) + rest;
  }

  lemma NoEndBehind(a: seq<Byte>, b: seq<Byte>)
    requires NoCdataEnd(a + b)
    ensures NoCdataEnd(b)
  {
    forall i | 0 <= i < |b| - 2 && b[i] == CLOSE && b[i + 1] == CLOSE
      ensures b[i + 2] != GT
    {
      var j := |a| + i;
      assert (a + b)[j] == b[i] && (a + b)[j + 1] == b[i + 1] && (a + b)[j + 2] == b[i + 2];
    }
  }

  /** The end of a section; brackets held back that do not belong to it come out first. */
  lemma CdataEnds(room: nat, p: Parser, stack: seq<Name>, held: nat) returns (p': Parser)
    requires On(p, CdataState(held), stack) && held <= 2
    ensures On(p', Misc2, stack) && Goes(room, p, [CLOSE] + [CLOSE] + [GT], p',
                                         DataTokens(ContentToken, Brackets(held)))
  {
    hide Goes, Control, On, DataTokens;
    var p1, h1, a := CdataStep(room, p, stack, held, CLOSE);
    var p2, h2, b := CdataStep(room, p1, stack, h1, CLOSE);
    assert a + b == Brackets(held);
    StateOn(p2, Cd2, stack);
    CdataTable(p2.ctl, GT);
    p' := Quietly(room, p2, Cd2, stack, GT, Misc2);
    GoesThen(room, p, [CLOSE], p1, DataTokens(ContentToken, a), [CLOSE], p2, DataTokens(ContentToken, b));
    DataTokensConcat(ContentToken, a, b);
    GoesBefore(room, p, [CLOSE] + [CLOSE], p2, DataTokens(ContentToken, a + b), [GT], p');
  }

  function CdataHeadText(): seq<Byte> {
    [LT] + [BANG] + [OPEN] + Text("CDATA[")
  }

  function CdataText(t: seq<Byte>): seq<Byte> {
    CdataHeadText() + (t + ([CLOSE] + [CLOSE] + [GT]))
  }

  lemma PlainLiteral()
    ensures ArePlain(Text("CDATA["))
  {
  }

  lemma CdataHead(room: nat, p: Parser, stack: seq<Name>) returns (p': Parser)
    requires On(p, Misc2, stack)
    ensures On(p', Cd0, stack) && Goes(room, p, CdataHeadText(), p', [])
  {
    hide Goes, Control, On, Text, ArePlain;
    PlainLiteral();
    StateOn(p, Misc2, stack);
    StartTable(p.ctl);
    var p1 := Quietly(room, p, Misc2, stack, LT, Le2);
    CommentTable(p1.ctl, BANG);
    var p2 := Quietly(room, p1, Le2, stack, BANG, Lee2);
    DataTable(p2.ctl, OPEN);
    var p3 := Quietly(room, p2, Lee2, stack, OPEN, Literal);
    p' := LiteralGoes(room, p3, stack, Text("CDATA["));
    GoesAfter(room, p, [LT], p1, [BANG], p2, []);
    GoesAfter(room, p, [LT] + [BANG], p2, [OPEN], p3, []);
    GoesAfter(room, p, [LT] + [BANG] + [OPEN], p3, Text("CDATA["), p', []);
  }

  /** Character data in a section is seen as it was written, brackets included. */
  lemma CdataGoes(room: nat, p: Parser, stack: seq<Name>, t: seq<Byte>) returns (p': Parser)
    requires On(p, Misc2, stack) && IsCdata(t)
    ensures On(p', Misc2, stack) && Goes(room, p, CdataText(t), p', DataTokens(ContentToken, t))
  {
    hide Goes, On, CdataHeadText, DataTokens, NoCdataEnd, ArePlain;
    var p1 := CdataHead(room, p, stack);
    assert Brackets(0) + t == t;
    var p2, held, out := CdataRest(room, p1, stack, 0, t);
    p' := CdataEnds(room, p2, stack, held);
    var end := [CLOSE] + [CLOSE] + [GT];
    GoesThen(room, p1, t, p2, DataTokens(ContentToken, out), end, p', DataTokens(ContentToken, Brackets(held)));
    DataTokensConcat(ContentToken, out, Brackets(held));
    GoesAfter(room, p, CdataHeadText(), p1, t + end, p', DataTokens(ContentToken, t));
  }
}
