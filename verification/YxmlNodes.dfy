/** The other direction for elements: an accepted element is a written one. */
module YxmlNodes {
  import opened Bytes
  import opened YxmlClient
  import opened YxmlData
  import opened YxmlDocument
  import opened YxmlMarkup
  import opened YxmlScan
  import opened YxmlSpec
  import opened YxmlTree

  /// Markup that begins with an angle bracket

  lemma MarkScanned(room: nat, p: Parser, from: State, stack: seq<Name>, s: seq<Byte>) returns (p': Parser)
    requires On(p, from, stack) && Outside(from) && Accepts(room, p, s) && s != [] && s[0] == LT
    ensures On(p', Marked(from), stack) && p'.ctl == p.ctl.(state := Marked(from)) && Accepts(room, p', s[1..])
    ensures s[1..] != [] && IsPlain(s[1]) && !Control(p'.ctl, s[1]).action.SyntaxError?
  {
    hide Accepts, On, Control;
    StateOn(p, from, stack);
    StartTable(p.ctl);
    p' := Advance(room, p, from, stack, s, Marked(from));
    StateOn(p', Marked(from), stack);
    Legal(room, p', s[1..]);
  }

  lemma Three(a: Byte, b: Byte, c: Byte, s: seq<Byte>)
    requires |s| >= 3 && s[0] == a && s[1] == b && s[2] == c
    ensures s == [a] + [b] + [c] + s[3..]
  {
  }

  lemma CommentAt(room: nat, p: Parser, from: State, stack: seq<Name>, s: seq<Byte>)
    returns (t: seq<Byte>, rest: seq<Byte>)
    requires On(p, from, stack) && Outside(from) && Accepts(room, p, s)
    requires |s| >= 3 && s[0] == LT && s[1] == BANG && s[2] == DASH
    ensures IsCommentText(t) && s == CommentText(t) + rest
  {
    hide Accepts, On, Goes, IsCommentText, CommentTail;
    var p1 := CommentHead(room, p, from, stack);
    Three(LT, BANG, DASH, s);
    var head := [LT] + [BANG] + [DASH];
    AcceptsOn(room, p, head, p1, [], s[3..], Comment1, stack);
    t, rest := CommentScanned(room, p1, stack, s[3..]);
    assert head + (CommentTail(t) + rest) == CommentText(t) + rest;
  }

  /** An instruction from its name on. */
  lemma PiNameAt(room: nat, p: Parser, stack: seq<Name>, s: seq<Byte>)
    returns (n: Name, sep: seq<Byte>, t: seq<Byte>, rest: seq<Byte>)
    requires On(p, Pi0, stack) && Accepts(room, p, s)
    ensures IsInstruction(n, sep, t) && s == n + PiTail(sep, t) + rest && Size(stack) + |n| + 1 < room
  {
    hide Accepts, On, Goes, Control, Size, IsInstruction, PiTail;
    StateOn(p, Pi0, stack);
    Legal(room, p, s);
    TakenPi(p.ctl, s[0]);
    var more;
    n, more := NameScanned(s);
    PlainName(n);
    PiNameMoves(p.ctl, n);
    hide IsName, IsNameStart, IsXmlTag;
    NameFits(room, p, Pi0, stack, n, Pi1, more);
    var p1 := PiNameGoes(room, p, stack, n);
    AcceptsOn(room, p, n, p1, [], more, Pi1, stack + [n]);
    StateOn(p1, Pi1, stack + [n]);
    Legal(room, p1, more);
    sep, t, rest := PiRestScanned(room, p1, Pi1, stack, n, more);
    assert n + (PiTail(sep, t) + rest) == n + PiTail(sep, t) + rest;
  }

  lemma PiAt(room: nat, p: Parser, from: State, stack: seq<Name>, s: seq<Byte>)
    returns (n: Name, sep: seq<Byte>, t: seq<Byte>, rest: seq<Byte>)
    requires On(p, from, stack) && (from.Misc1? || from.Misc2? || from.Misc3?) && Accepts(room, p, s)
    requires |s| >= 2 && s[0] == LT && s[1] == ASK
    ensures IsInstruction(n, sep, t) && s == PiText(n, sep, t) + rest && Size(stack) + |n| + 1 < room
  {
    hide Accepts, On, Control, Size, IsInstruction, PiTail;
    var p1 := MarkScanned(room, p, from, stack, s);
    StateOn(p1, Marked(from), stack);
    PiTable(p1.ctl, ASK);
    var p2 := Advance(room, p1, Marked(from), stack, s[1..], Pi0);
    var u := s[1..][1..];
    n, sep, t, rest := PiNameAt(room, p2, stack, u);
    assert s == [LT] + [ASK] + u;
    assert [LT] + [ASK] + (n + PiTail(sep, t) + rest) == PiText(n, sep, t) + rest;
  }

  lemma CdataAt(room: nat, p: Parser, stack: seq<Name>, s: seq<Byte>) returns (t: seq<Byte>, rest: seq<Byte>)
    requires On(p, Misc2, stack) && Accepts(room, p, s)
    requires |s| >= 3 && s[0] == LT && s[1] == BANG && s[2] == OPEN
    ensures IsCdata(t) && s == CdataText(t) + rest
  {
    hide Accepts, On, Goes, IsCdata, Text;
    var word := Text("CDATA[");
    var u := s[3..];
    Three(LT, BANG, OPEN, s);
    CdataWord(room, p, stack, s);
    var more := u[|word|..];
    assert u == word + more;
    var p1 := CdataHead(room, p, stack);
    var head := [LT] + [BANG] + [OPEN] + word;
    assert s == head + more;
    AcceptsOn(room, p, head, p1, [], more, Cd0, stack);
    t, rest := CdataScanned(room, p1, stack, 0, more);
    assert Brackets(0) + more == more;
    assert head + (t + ([CLOSE] + [CLOSE] + [GT]) + rest) == CdataText(t) + rest;
  }

  lemma CdataWord(room: nat, p: Parser, stack: seq<Name>, s: seq<Byte>)
    requires On(p, Misc2, stack) && Accepts(room, p, s)
    requires |s| >= 3 && s[0] == LT && s[1] == BANG && s[2] == OPEN
    ensures Text("CDATA[") <= s[3..]
  {
    hide Accepts, On, Control, Text;
    var p1 := MarkScanned(room, p, Misc2, stack, s);
    StateOn(p1, Le2, stack);
    CommentTable(p1.ctl, BANG);
    var p2 := Advance(room, p1, Le2, stack, s[1..], Lee2);
    StateOn(p2, Lee2, stack);
    DataTable(p2.ctl, OPEN);
    assert s[1..][1..] == s[2..];
    var p3 := Advance(room, p2, Lee2, stack, s[2..], Literal);
    assert s[2..][1..] == s[3..];
    LiteralScanned(room, p3, stack, Text("CDATA["), s[3..]);
  }

  /// Blanks

  function BlankRun(s: seq<Byte>): (k: nat)
    ensures k <= |s| && (forall i :: 0 <= i < k ==> IsSpace(s[i])) && (k < |s| ==> !IsSpace(s[k]))
    ensures s != [] && IsSpace(s[0]) ==> k > 0
  {
    if s == [] || !IsSpace(s[0]) then 0 else 1 + BlankRun(s[1..])
  }

  lemma BlanksScanned(s: seq<Byte>) returns (w: seq<Byte>, rest: seq<Byte>)
    ensures AreBlanks(w) && s == w + rest && (rest != [] ==> !IsSpace(rest[0]))
    ensures s != [] && IsSpace(s[0]) ==> w != [] && w[0] == s[0]
    ensures s != [] && !IsSpace(s[0]) ==> w == [] && rest == s
  {
    hide IsSpace;
    var k := BlankRun(s);
    w, rest := s[..k], s[k..];
  }

  /** Blanks that are passed over. */
  lemma BlanksPassed(room: nat, p: Parser, state: State, stack: seq<Name>, w: seq<Byte>, rest: seq<Byte>)
    requires On(p, state, stack) && PassesBlanks(state) && AreBlanks(w) && Accepts(room, p, w + rest)
    ensures Accepts(room, p, rest)
  {
    hide Accepts, On, Goes, AreBlanks;
    BlanksGo(room, p, state, stack, w);
    AcceptsOn(room, p, w, p, [], rest, state, stack);
  }

  /// Attributes

  lemma TakenTag(c: Ctl, ch: Byte)
    requires !Control(c, ch).action.SyntaxError?
    ensures c.state.Elem0? ==> IsName(ch) || IsSpace(ch) || ch == SLASH || ch == GT
    ensures c.state.Elem1? ==> IsSpace(ch) || ch == SLASH || ch == GT || IsNameStart(ch)
    ensures c.state.Elem2? ==> IsSpace(ch) || ch == SLASH || ch == GT
    ensures c.state.Elem3? ==> ch == GT
  {
  }

  lemma TakenAttr(c: Ctl, ch: Byte)
    requires !Control(c, ch).action.SyntaxError?
    ensures c.state.Attr0? ==> IsName(ch) || IsSpace(ch) || ch == EQUALS
    ensures c.state.Attr1? ==> IsSpace(ch) || ch == EQUALS
    ensures c.state.Attr2? ==> IsSpace(ch) || IsQuote(ch)
    ensures c.state.Attr3? && ch != c.quote ==> ch != LT
  {
  }

  lemma {:induction false} ValueScanned(room: nat, p: Parser, stack: seq<Name>, s: seq<Byte>)
    returns (v: seq<Piece>, rest: seq<Byte>)
    requires On(p, Attr3, stack) && IsQuote(p.ctl.quote) && Accepts(room, p, s)
    ensures ArePieces(p.ctl.quote, v) && s == ValueText(v) + [p.ctl.quote] + rest
    decreases |s|
  {
    hide Accepts, On, Goes, Control, DataTokens, IsPiece, PieceData, PieceText, IsQuote;
    var quote := p.ctl.quote;
    StateOn(p, Attr3, stack);
    Legal(room, p, s);
    TakenAttr(p.ctl, s[0]);
    if s[0] == quote {
      v, rest := [], s[1..];
      Cons(s);
      assert ValueText([]) + [quote] + rest == [quote] + rest;
    } else {
      var c, more := PieceScanned(room, p, stack, s);
      var p1 := PieceGoes(room, p, stack, c);
      AcceptsOn(room, p, PieceText(c), p1, DataTokens(AttrValueToken, PieceData(quote, c)), more, Attr3, stack);
      var u;
      u, rest := ValueScanned(room, p1, stack, more);
      v := [c] + u;
      assert v[1..] == u;
      assert PieceText(c) + (ValueText(u) + [quote] + rest) == PieceText(c) + ValueText(u) + [quote] + rest;
    }
  }

  lemma PieceScanned(room: nat, p: Parser, stack: seq<Name>, s: seq<Byte>) returns (c: Piece, rest: seq<Byte>)
    requires On(p, Attr3, stack) && Accepts(room, p, s) && s != [] && s[0] != p.ctl.quote
    ensures IsPiece(p.ctl.quote, c) && s == PieceText(c) + rest && |rest| < |s|
  {
    hide Accepts, On, Control, IsReference;
    StateOn(p, Attr3, stack);
    Legal(room, p, s);
    TakenAttr(p.ctl, s[0]);
    if s[0] == AMP {
      var n;
      n, rest := RefScanned(room, p, Attr3, stack, s);
      c := Ref(n);
    } else {
      c, rest := Lit(s[0]), s[1..];
      Cons(s);
    }
  }

  /** The blanks before the equals sign and the sign. */
  lemma EqualsScanned(room: nat, p: Parser, stack: seq<Name>, n: Name, s: seq<Byte>)
    returns (w: seq<Byte>, rest: seq<Byte>)
    requires On(p, Attr0, stack + [n]) && Accepts(room, p, s) && s != [] && !IsName(s[0])
    ensures AreBlanks(w) && s == w + [EQUALS] + rest
  {
    hide Accepts, On, Goes, Control, IsSpace, IsName;
    var names := stack + [n];
    SizeSnoc(stack, n);
    StateOn(p, Attr0, names);
    Legal(room, p, s);
    TakenAttr(p.ctl, s[0]);
    AttrTable(p.ctl, s[0]);
    var more;
    w, more := BlanksScanned(s);
    if w != [] {
      var p1 := NameEnds(room, p, Attr0, names, w[0], Attr1);
      BlanksAfter(room, p, p1, Attr1, names, w, [Attribute(n)]);
      AcceptsOn(room, p, w, p1, [Attribute(n)], more, Attr1, names);
      StateOn(p1, Attr1, names);
      Legal(room, p1, more);
      TakenAttr(p1.ctl, more[0]);
    }
    Cons(more);
    rest := more[1..];
    assert w + ([EQUALS] + rest) == w + [EQUALS] + rest;
  }

  lemma QuoteScanned(room: nat, p: Parser, stack: seq<Name>, s: seq<Byte>)
    returns (w: seq<Byte>, quote: Byte, rest: seq<Byte>)
    requires On(p, Attr2, stack) && Accepts(room, p, s)
    ensures AreBlanks(w) && IsQuote(quote) && s == w + [quote] + rest
  {
    hide Accepts, On, Control, IsSpace, IsQuote, AreBlanks;
    var more;
    w, more := BlanksScanned(s);
    BlanksPassed(room, p, Attr2, stack, w, more);
    StateOn(p, Attr2, stack);
    Legal(room, p, more);
    TakenAttr(p.ctl, more[0]);
    Cons(more);
    quote, rest := more[0], more[1..];
    assert w + ([quote] + rest) == w + [quote] + rest;
  }

  /** An attribute up to its value. */
  lemma AttrHeadScanned(room: nat, p: Parser, stack: seq<Name>, s: seq<Byte>)
    returns (n: Name, before: seq<Byte>, after: seq<Byte>, quote: Byte, rest: seq<Byte>)
    requires On(p, Elem1, stack) && Accepts(room, p, s) && s != [] && IsNameStart(s[0])
    ensures IsXmlTag(n) && AreBlanks(before) && AreBlanks(after) && IsQuote(quote) && Size(stack) + |n| + 1 < room
    ensures s == n + (before + [EQUALS]) + (after + [quote]) + rest
  {
    hide Accepts, On, Goes, Control, Size, AreBlanks, IsQuote;
    StateOn(p, Elem1, stack);
    var m1, m2;
    n, m1 := NameScanned(s);
    PlainName(n);
    AttrNameMoves(p.ctl, n);
    hide IsName, IsNameStart, IsXmlTag;
    NameFits(room, p, Elem1, stack, n, Attr0, m1);
    var p1 := NameGoes(room, p, Elem1, stack, n, Attr0);
    AcceptsOn(room, p, n, p1, [], m1, Attr0, stack + [n]);
    StateOn(p1, Attr0, stack + [n]);
    Legal(room, p1, m1);
    before, m2 := EqualsScanned(room, p1, stack, n, m1);
    var p2 := EqualsGoes(room, p1, stack, n, before);
    AcceptsOn(room, p1, before + [EQUALS], p2, [Attribute(n)], m2, Attr2, stack + [n]);
    after, quote, rest := QuoteScanned(room, p2, stack + [n], m2);
    FourParts(n, before + [EQUALS], after + [quote], rest);
  }

  lemma FourParts(a: seq<Byte>, b: seq<Byte>, c: seq<Byte>, d: seq<Byte>)
    ensures a + (b + (c + d)) == a + b + c + d
  {
  }

  lemma AttrScanned(room: nat, p: Parser, stack: seq<Name>, lead: seq<Byte>, s: seq<Byte>)
    returns (a: Attr, rest: seq<Byte>)
    requires On(p, Elem1, stack) && Accepts(room, p, s) && s != [] && IsNameStart(s[0]) && lead != [] && AreBlanks(lead)
    ensures IsAttribute(a) && a.lead == lead && s == AttrText(a) + rest && Size(stack) + |a.name| + 1 < room
  {
    hide Accepts, On, Goes, Size, AreBlanks, IsQuote, IsXmlTag, ArePieces, ValueText, IsNameStart;
    var n, before, after, quote, more := AttrHeadScanned(room, p, stack, s);
    var h := Attr(lead, n, before, after, quote, []);
    NoPieces(quote);
    var p1 := AttrNameGoes(room, p, stack, h);
    AcceptsOn(room, p, AttrHead(h), p1, [Attribute(n)], more, Attr3, stack + [n]);
    var v;
    v, rest := ValueScanned(room, p1, stack + [n], more);
    a := h.(value := v);
    assert AttrHead(a) == AttrHead(h);
    assert AttrHead(h) + (ValueText(v) + [quote] + rest) == AttrHead(h) + ValueText(v) + [quote] + rest;
  }

  lemma NoPieces(quote: Byte)
    ensures ArePieces(quote, [])
  {
  }

  /// Start tags

  /** Attributes and blanks up to the end of a start tag. */
  lemma {:induction false} AttrsScanned(room: nat, p: Parser, from: State, stack: seq<Name>, s: seq<Byte>)
    returns (attrs: seq<Attr>, tail: seq<Byte>, rest: seq<Byte>)
    requires On(p, from, stack) && (from.Elem0? || from.Elem2?) && stack != [] && Accepts(room, p, s)
    requires s != [] && (from.Elem0? ==> !IsName(s[0]))
    ensures AreAttributes(attrs) && AreBlanks(tail) && s == AttrsText(attrs) + tail + rest
    ensures rest != [] && (rest[0] == GT || rest[0] == SLASH)
            && (attrs != [] ==> Size(stack) + Longest(attrs) + 1 < room)
    decreases |s|
  {
    hide Accepts, On, Goes, Control, Size, IsSpace, IsName, IsNameStart, IsAttribute, AttrText, AttrTokens;
    StateOn(p, from, stack);
    Legal(room, p, s);
    TakenTag(p.ctl, s[0]);
    var w, more := BlanksScanned(s);
    if w == [] {
      attrs, tail, rest := [], [], s;
    } else {
      var p1 := LeadGoes(room, p, from, stack, w);
      AcceptsOn(room, p, w, p1, if from.Elem0? then [Opens(Top(stack))] else [], more, Elem1, stack);
      StateOn(p1, Elem1, stack);
      Legal(room, p1, more);
      TakenTag(p1.ctl, more[0]);
      if more[0] == GT || more[0] == SLASH {
        attrs, tail, rest := [], w, more;
      } else {
        var a, m2 := AttrScanned(room, p1, stack, w, more);
        var p2 := AttrGoes(room, p1, stack, a);
        AcceptsOn(room, p1, AttrText(a), p2, AttrTokens(a), m2, Elem2, stack);
        StateOn(p2, Elem2, stack);
        Legal(room, p2, m2);
        var others;
        others, tail, rest := AttrsScanned(room, p2, Elem2, stack, m2);
        attrs := [a] + others;
        AttrsCons(a, others);
        FourParts(w, AttrText(a), AttrsText(others) + tail, rest);
        assert AttrsText(others) + tail + rest == (AttrsText(others) + tail) + rest;
        assert w + AttrText(a) + (AttrsText(others) + tail) == AttrsText(attrs) + tail;
      }
    }
  }

  lemma AttrsCons(a: Attr, others: seq<Attr>)
    requires IsAttribute(a) && AreAttributes(others)
    ensures AreAttributes([a] + others) && AttrsText([a] + others) == a.lead + AttrText(a) + AttrsText(others)
    ensures Longest([a] + others) == if |a.name| > Longest(others) then |a.name| else Longest(others)
  {
    hide IsAttribute, AttrText;
    assert ([a] + others)[1..] == others;
  }

  /** The name of a start tag. */
  lemma TagNameScanned(room: nat, p: Parser, from: State, stack: seq<Name>, s: seq<Byte>)
    returns (n: Name, rest: seq<Byte>, p': Parser)
    requires On(p, from, stack) && (from.Le0? || from.Le1? || from.Le2?) && Accepts(room, p, s) && s != []
             && IsNameStart(s[0])
    ensures IsXmlTag(n) && s == n + rest && Size(stack) + |n| + 1 < room
    ensures On(p', Elem0, stack + [n]) && Accepts(room, p', rest) && rest != [] && !IsName(rest[0])
  {
    hide Accepts, On, Goes, Control, Size;
    StateOn(p, from, stack);
    n, rest := NameScanned(s);
    PlainName(n);
    TagNameMoves(p.ctl, n);
    hide IsName, IsNameStart, IsXmlTag;
    NameFits(room, p, from, stack, n, Elem0, rest);
    p' := NameGoes(room, p, from, stack, n, Elem0);
    AcceptsOn(room, p, n, p', [], rest, Elem0, stack + [n]);
    StateOn(p', Elem0, stack + [n]);
    Legal(room, p', rest);
  }

  /** A start tag up to its last octet. */
  lemma HeadScanned(room: nat, p: Parser, from: State, stack: seq<Name>, s: seq<Byte>)
    returns (n: Name, attrs: seq<Attr>, tail: seq<Byte>, rest: seq<Byte>)
    requires On(p, from, stack) && Begins(from) && Accepts(room, p, s) && |s| >= 2 && s[0] == LT && IsNameStart(s[1])
    ensures IsHead(n, attrs, tail) && s == Head(n, attrs, tail) + rest && Size(stack) + Room(n, attrs) < room
    ensures rest != [] && (rest[0] == GT || rest[0] == SLASH)
  {
    hide Accepts, On, Size, AttrsText, AreBlanks, AreAttributes, Longest, IsName, IsNameStart, IsXmlTag, Control;
    var p1 := MarkScanned(room, p, from, stack, s);
    var m1, p2;
    n, m1, p2 := TagNameScanned(room, p1, Marked(from), stack, s[1..]);
    SizeSnoc(stack, n);
    attrs, tail, rest := AttrsScanned(room, p2, Elem0, stack + [n], m1);
    Cons(s);
    HeadParts(n, attrs, tail, rest);
  }

  lemma HeadParts(n: Name, attrs: seq<Attr>, tail: seq<Byte>, rest: seq<Byte>)
    ensures [LT] + (n + (AttrsText(attrs) + tail + rest)) == Head(n, attrs, tail) + rest
  {
    hide AttrsText;
  }

  /// Close tags

  lemma TakenClose(c: Ctl, ch: Byte)
    requires !Control(c, ch).action.SyntaxError?
    ensures c.state.Etag0? ==> IsNameStart(ch)
    ensures c.state.Etag1? ==> IsName(ch) || IsSpace(ch) || ch == GT
    ensures c.state.Etag2? ==> IsSpace(ch) || ch == GT
  {
  }

  /** The next octet of a close tag is the next one of the open name, and behind the name no further one. */
  lemma CloseOctet(room: nat, p: Parser, stack: seq<Name>, n: Name, k: nat, s: seq<Byte>)
    requires Closing(p, stack, n, k) && Accepts(room, p, s)
    ensures s != [] && IsPlain(s[0])
    ensures if k < |n| then s[0] == n[k] else s[0] == GT || IsSpace(s[0])
  {
    hide Control, Shape, Accepts, IsName, IsSpace;
    SizeSnoc(stack, n);
    Legal(room, p, s);
    TakenClose(p.ctl, s[0]);
    CloseTable(p.ctl, s[0]);
    ActionSucceeds(room, p, s);
  }

  lemma CloseFirstOctet(room: nat, p: Parser, stack: seq<Name>, n: Name, s: seq<Byte>)
    requires On(p, Etag0, stack + [n]) && n != [] && Accepts(room, p, s)
    ensures s != [] && s[0] == n[0]
  {
    hide Control, Shape, Accepts, IsNameStart;
    SizeSnoc(stack, n);
    Legal(room, p, s);
    TakenClose(p.ctl, s[0]);
    CloseTable(p.ctl, s[0]);
    ActionSucceeds(room, p, s);
  }

  lemma ClosingMark(p: Parser, stack: seq<Name>, n: Name, k: nat)
    requires Closing(p, stack, n, k)
    ensures p.ignore == 0
  {
  }

  lemma {:induction false} CloseRestScanned(room: nat, p: Parser, stack: seq<Name>, n: Name, k: nat, s: seq<Byte>)
    requires Closing(p, stack, n, k) && IsXmlTag(n) && k <= |n| && Accepts(room, p, s)
    ensures n[k..] <= s
    decreases |n| - k
  {
    hide Accepts, Closing, IsXmlTag, Goes;
    if k < |n| {
      CloseOctet(room, p, stack, n, k, s);
      var p1 := CloseNext(room, p, stack, n, k);
      Cons(s);
      ClosingMark(p1, stack, n, k + 1);
      AcceptsRest(room, p, [s[0]], p1, [], s[1..]);
      CloseRestScanned(room, p1, stack, n, k + 1, s[1..]);
      assert n[k..] == [n[k]] + n[k + 1..];
    }
  }

  /** The name of a close tag is that of the innermost element. */
  lemma CloseNameScanned(room: nat, p: Parser, stack: seq<Name>, n: Name, s: seq<Byte>) returns (rest: seq<Byte>)
    requires On(p, Misc2, stack + [n]) && IsXmlTag(n) && Accepts(room, p, s) && |s| >= 2 && s[0] == LT && s[1] == SLASH
    ensures s == [LT] + [SLASH] + n + rest
  {
    hide Accepts, On, Closing, Control, IsXmlTag, Goes;
    NamesAreNotEmpty(n);
    var names := stack + [n];
    var p1 := MarkScanned(room, p, Misc2, names, s);
    StateOn(p1, Le2, names);
    CloseTable(p1.ctl, SLASH);
    var p2 := Advance(room, p1, Le2, names, s[1..], Etag0);
    assert s[1..][1..] == s[2..];
    var u := s[2..];
    CloseFirstOctet(room, p2, stack, n, u);
    var p3 := CloseFirst(room, p2, stack, n);
    Cons(u);
    ClosingMark(p3, stack, n, 1);
    AcceptsRest(room, p2, [u[0]], p3, [], u[1..]);
    CloseRestScanned(room, p3, stack, n, 1, u[1..]);
    rest := u[|n|..];
    assert n == [n[0]] + n[1..];
    assert u == n + rest;
    assert s == [LT] + [SLASH] + u;
    assert [LT] + [SLASH] + (n + rest) == [LT] + [SLASH] + n + rest;
  }

  lemma CloseScanned(room: nat, p: Parser, stack: seq<Name>, n: Name, s: seq<Byte>)
    returns (w: seq<Byte>, last: Byte, rest: seq<Byte>)
    requires On(p, Misc2, stack + [n]) && IsXmlTag(n) && Accepts(room, p, s) && |s| >= 2 && s[0] == LT && s[1] == SLASH
    ensures ClosesWell(stack, w, last) && s == CloseText(n, w, last) + rest
  {
    hide Accepts, On, Closing, Control, IsXmlTag, Goes;
    var u := CloseNameScanned(room, p, stack, n, s);
    var p1 := CloseNameGoes(room, p, stack, n);
    ClosingMark(p1, stack, n, |n|);
    AcceptsRest(room, p, [LT] + [SLASH] + n, p1, [], u);
    w, last, rest := CloseTailScanned(room, p1, stack, n, u);
    assert [LT] + [SLASH] + n + (w + [last] + rest) == CloseText(n, w, last) + rest;
  }

  lemma CloseTailScanned(room: nat, p: Parser, stack: seq<Name>, n: Name, s: seq<Byte>)
    returns (w: seq<Byte>, last: Byte, rest: seq<Byte>)
    requires Closing(p, stack, n, |n|) && Accepts(room, p, s)
    ensures ClosesWell(stack, w, last) && s == w + [last] + rest
  {
    hide Accepts, On, Closing, Control, Goes, IsSpace;
    CloseOctet(room, p, stack, n, |n|, s);
    Cons(s);
    if stack == [] || s[0] == GT {
      w, last, rest := [], s[0], s[1..];
      assert [] + [last] + rest == [last] + rest;
    } else {
      var more;
      w, more := BlanksScanned(s);
      var p1 := CloseEnds(room, p, stack, n, w[0]);
      BlanksAfter(room, p, p1, Etag2, stack, w, [Closes]);
      AcceptsOn(room, p, w, p1, [Closes], more, Etag2, stack);
      StateOn(p1, Etag2, stack);
      Legal(room, p1, more);
      TakenClose(p1.ctl, more[0]);
      Cons(more);
      last, rest := GT, more[1..];
      assert w + ([GT] + rest) == w + [GT] + rest;
    }
  }

  /// Content

  /** Where content ends: the close tag of its element begins. */
  predicate AtClose(s: seq<Byte>) {
    |s| >= 2 && s[0] == LT && s[1] == SLASH
  }

  /** A node other than an element. */
  lemma LeafScanned(room: nat, p: Parser, stack: seq<Name>, s: seq<Byte>) returns (d: Node, rest: seq<Byte>)
    requires On(p, Misc2, stack) && Accepts(room, p, s) && s != []
    requires s[0] == LT ==> |s| >= 2 && (s[1] == BANG || s[1] == ASK)
    ensures !d.Tag? && IsNode(d) && s == NodeText(d) + rest && (NodeRoom(d) == 0 || Size(stack) + NodeRoom(d) < room)
    ensures |rest| < |s|
  {
    hide Accepts, On, Size, IsReference, IsCdata, IsCommentText, IsInstruction, Text, CommentTail, PiTail, CdataText,
         RefText;
    if s[0] == AMP {
      var n;
      n, rest := RefScanned(room, p, Misc2, stack, s);
      d := Entity(n);
      RefTextSize(n);
    } else if s[0] != LT {
      AcceptedOctet(room, p, s);
      d, rest := Chars([s[0]]), s[1..];
      Cons(s);
    } else if s[1] == ASK {
      var n, sep, t;
      n, sep, t, rest := PiAt(room, p, Misc2, stack, s);
      d := Pi(n, sep, t);
    } else {
      d, rest := BangScanned(room, p, stack, s);
    }
  }

  lemma RefTextSize(n: seq<Byte>)
    ensures |RefText(n)| > 0
  {
  }

  lemma BangScanned(room: nat, p: Parser, stack: seq<Name>, s: seq<Byte>) returns (d: Node, rest: seq<Byte>)
    requires On(p, Misc2, stack) && Accepts(room, p, s) && |s| >= 2 && s[0] == LT && s[1] == BANG
    ensures !d.Tag? && IsNode(d) && s == NodeText(d) + rest && NodeRoom(d) == 0 && |rest| < |s|
  {
    hide Accepts, On, IsCdata, IsCommentText, Control, CommentTail, CdataHeadText;
    var p1 := MarkScanned(room, p, Misc2, stack, s);
    StateOn(p1, Le2, stack);
    CommentTable(p1.ctl, BANG);
    var p2 := Advance(room, p1, Le2, stack, s[1..], Lee2);
    StateOn(p2, Lee2, stack);
    assert s[1..][1..] == s[2..];
    Legal(room, p2, s[2..]);
    TakenMarkup(p2.ctl, s[2..][0]);
    var t;
    if s[2] == DASH {
      t, rest := CommentAt(room, p, Misc2, stack, s);
      d := Comment(t);
    } else {
      t, rest := CdataAt(room, p, stack, s);
      d := Cdata(t);
    }
  }

  /** An element, with the octet that ends it. */
  lemma {:induction false} TagScanned(room: nat, p: Parser, from: State, stack: seq<Name>, s: seq<Byte>)
    returns (d: Node, last: Byte, rest: seq<Byte>)
    requires On(p, from, stack) && Begins(from) && Accepts(room, p, s) && |s| >= 2 && s[0] == LT && IsNameStart(s[1])
    ensures d.Tag? && IsNode(d) && EndsWell(stack, d, last) && s == TagText(d, last) + rest && |rest| < |s|
    ensures Size(stack) + NodeRoom(d) < room
    decreases |s|, 0
  {
    hide Accepts, On, Goes, Size, Control, AreAttributes, AreBlanks, IsXmlTag, IsNameStart, AttrsText, AttrsTokens,
         Longest;
    hide CloseText, ClosesWell;
    var n, attrs, tail, m1 := HeadScanned(room, p, from, stack, s);
    var p1 := OpenGoes(room, p, from, stack, n, attrs, tail, m1[0]);
    Cons(m1);
    var head := Head(n, attrs, tail) + [m1[0]];
    assert s == head + m1[1..];
    AcceptsOn(room, p, head, p1, [Opens(n)] + AttrsTokens(attrs), m1[1..], if m1[0] == GT then Misc2 else Elem3,
              stack + [n]);
    if m1[0] == SLASH {
      last := GT;
      d, rest := EmptyScanned(room, p1, stack, n, attrs, tail, m1[1..]);
    } else {
      d, last, rest := BodyScanned(room, p1, stack, n, attrs, tail, m1[1..]);
    }
  }

  lemma EmptyScanned(room: nat, p: Parser, stack: seq<Name>, n: Name, attrs: seq<Attr>, tail: seq<Byte>, s: seq<Byte>)
    returns (d: Node, rest: seq<Byte>)
    requires On(p, Elem3, stack + [n]) && Accepts(room, p, s) && IsHead(n, attrs, tail)
             && Size(stack) + Room(n, attrs) < room
    ensures d.Tag? && IsNode(d) && EndsWell(stack, d, GT) && Size(stack) + NodeRoom(d) < room && |rest| < |s|
    ensures Head(n, attrs, tail) + [SLASH] + s == TagText(d, GT) + rest
  {
    hide Accepts, On, Size, Control, AreAttributes, AreBlanks, IsXmlTag, Head, Longest;
    StateOn(p, Elem3, stack + [n]);
    Legal(room, p, s);
    TakenTag(p.ctl, s[0]);
    Cons(s);
    NoBlanks();
    d, rest := Tag(n, attrs, tail, true, [], []), s[1..];
    assert Head(n, attrs, tail) + [SLASH] + ([GT] + rest) == Head(n, attrs, tail) + [SLASH] + [GT] + rest;
  }

  lemma NoBlanks()
    ensures AreBlanks([])
  {
  }

  /** The content and the close tag of an element. */
  lemma {:induction false} BodyScanned(room: nat, p: Parser, stack: seq<Name>, n: Name, attrs: seq<Attr>,
                                       tail: seq<Byte>,
                                       s: seq<Byte>)
    returns (d: Node, last: Byte, rest: seq<Byte>)
    requires On(p, Misc2, stack + [n]) && Accepts(room, p, s) && IsHead(n, attrs, tail)
             && Size(stack) + Room(n, attrs) < room
    ensures d.Tag? && IsNode(d) && EndsWell(stack, d, last) && Size(stack) + NodeRoom(d) < room && |rest| < |s|
    ensures Head(n, attrs, tail) + [GT] + s == TagText(d, last) + rest
    decreases |s|, 3
  {
    hide Accepts, On, Goes, Size, AreAttributes, AreBlanks, IsXmlTag, Head, AreNodes, ContentTokens, Longest;
    SizeSnoc(stack, n);
    var ds, m := ContentScanned(room, p, stack + [n], s);
    var p1 := ContentGoes(room, p, stack + [n], ds);
    AcceptsOn(room, p, ContentText(ds), p1, ContentTokens(ds), m, Misc2, stack + [n]);
    var w;
    w, last, rest := CloseScanned(room, p1, stack, n, m);
    ClosesBlank(stack, w, last);
    d := Tag(n, attrs, tail, false, ds, w);
    BodyParts(Head(n, attrs, tail) + [GT], ContentText(ds), CloseText(n, w, last), rest);
    CloseSize(n, w, last);
  }

  lemma ClosesBlank(stack: seq<Name>, w: seq<Byte>, last: Byte)
    requires ClosesWell(stack, w, last)
    ensures AreBlanks(w)
  {
  }

  lemma CloseSize(n: Name, w: seq<Byte>, last: Byte)
    ensures |CloseText(n, w, last)| > 0
  {
  }

  lemma BodyParts(a: seq<Byte>, b: seq<Byte>, c: seq<Byte>, d: seq<Byte>)
    ensures a + (b + (c + d)) == a + b + c + d
  {
  }

  lemma {:induction false} NodeScanned(room: nat, p: Parser, stack: seq<Name>, s: seq<Byte>)
    returns (d: Node, rest: seq<Byte>)
    requires On(p, Misc2, stack) && stack != [] && Accepts(room, p, s) && s != [] && !AtClose(s)
    ensures IsNode(d) && s == NodeText(d) + rest && (NodeRoom(d) == 0 || Size(stack) + NodeRoom(d) < room)
            && |rest| < |s|
    decreases |s|, 1
  {
    hide Accepts, On, Size, Control, IsNode, NodeText, NodeRoom, IsNameStart, TagText, EndsWell;
    if s[0] == LT {
      var p1 := MarkScanned(room, p, Misc2, stack, s);
      StateOn(p1, Le2, stack);
      TakenMarkup(p1.ctl, s[1]);
      if s[1] != BANG && s[1] != ASK {
        var last;
        d, last, rest := TagScanned(room, p, Misc2, stack, s);
        EndsInside(stack, d, last);
        WellInside(stack, d);
        return;
      }
    }
    d, rest := LeafScanned(room, p, stack, s);
  }

  lemma EndsInside(stack: seq<Name>, d: Node, last: Byte)
    requires d.Tag? && stack != [] && EndsWell(stack, d, last)
    ensures last == GT
  {
  }

  lemma {:induction false} ContentScanned(room: nat, p: Parser, stack: seq<Name>, s: seq<Byte>)
    returns (ds: seq<Node>, rest: seq<Byte>)
    requires On(p, Misc2, stack) && stack != [] && Accepts(room, p, s) && Size(stack) < room
    ensures AreNodes(ds) && s == ContentText(ds) + rest && AtClose(rest) && Size(stack) + ContentRoom(ds) < room
    ensures |rest| <= |s|
    decreases |s|, 2
  {
    hide Accepts, On, Goes, Size, IsNode, NodeText, NodeTokens, NodeRoom;
    StateOn(p, Misc2, stack);
    Legal(room, p, s);
    if AtClose(s) {
      ds, rest := [], s;
    } else {
      var d, more := NodeScanned(room, p, stack, s);
      var p1 := NodeGoes(room, p, stack, d);
      AcceptsOn(room, p, NodeText(d), p1, NodeTokens(d), more, Misc2, stack);
      var others;
      others, rest := ContentScanned(room, p1, stack, more);
      ds := [d] + others;
      assert ds[1..] == others;
      assert NodeText(d) + (ContentText(others) + rest) == NodeText(d) + ContentText(others) + rest;
    }
  }
}
