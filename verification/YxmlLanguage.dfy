/** The language of the parser: it accepts exactly the written documents. */
module YxmlLanguage {
  import opened Bytes
  import opened Options
  import opened YxmlClient
  import opened YxmlData
  import opened YxmlDocument
  import opened YxmlLines
  import opened YxmlMarkup
  import opened YxmlNodes
  import opened YxmlProlog
  import opened YxmlScan
  import opened YxmlSpec
  import opened YxmlTree

  /// Declarations of the document type

  lemma TakenDoctype(c: Ctl, ch: Byte)
    requires !Control(c, ch).action.SyntaxError?
    ensures c.state.Dt2? ==> ch == ASK || ch == BANG
    ensures c.state.Lee1? ==> ch == DASH || ch == UPPER_D
    ensures c.state.Misc0? || c.state.Misc1? || c.state.Misc3? ==> IsSpace(ch) || ch == LT
    ensures c.state.Init? ==> ch == 0xEF || IsSpace(ch) || ch == LT
  {
  }

  /** The text up to a quote. */
  lemma {:induction false} QuotedScanned(room: nat, p: Parser, s: seq<Byte>) returns (t: seq<Byte>, rest: seq<Byte>)
    requires On(p, Dt1, []) && Accepts(room, p, s)
    ensures (forall i :: 0 <= i < |t| ==> IsPlain(t[i]) && t[i] != p.ctl.quote) && s == t + [p.ctl.quote] + rest
    decreases |s|
  {
    hide Accepts, On, Control;
    var quote := p.ctl.quote;
    StateOn(p, Dt1, []);
    Legal(room, p, s);
    Cons(s);
    if s[0] == quote {
      t, rest := [], s[1..];
      assert [] + [quote] + rest == [quote] + rest;
    } else {
      DoctypeTable(p.ctl, s[0]);
      var p1 := Advance(room, p, Dt1, [], s, Dt1);
      var u;
      u, rest := QuotedScanned(room, p1, s[1..]);
      t := [s[0]] + u;
      assert [s[0]] + (u + [quote] + rest) == t + [quote] + rest;
    }
  }

  /** An octet or a quoted string of a declaration. */
  lemma BitScanned(room: nat, p: Parser, state: State, s: seq<Byte>) returns (b: Bit, rest: seq<Byte>)
    requires On(p, state, []) && (state.Dt0? || state.Dt4?) && Accepts(room, p, s)
    requires s != [] && s[0] != GT && (state.Dt0? ==> s[0] != LT)
    ensures IsBit(state, b) && s == BitText(b) + rest && |rest| < |s|
  {
    hide Accepts, On, Control, IsQuote;
    StateOn(p, state, []);
    Legal(room, p, s);
    Cons(s);
    if IsQuote(s[0]) {
      DoctypeTable(p.ctl, s[0]);
      var p1 := Advance(room, p, state, [], s, Dt1);
      var t;
      t, rest := QuotedScanned(room, p1, s[1..]);
      b := Quoted(s[0], t);
      assert [s[0]] + (t + [s[0]] + rest) == BitText(b) + rest;
    } else {
      b, rest := Loose(s[0]), s[1..];
    }
  }

  /** A markup declaration up to its end. */
  lemma {:induction false} BitsScanned(room: nat, p: Parser, s: seq<Byte>) returns (bs: seq<Bit>, rest: seq<Byte>)
    requires On(p, Dt4, []) && Accepts(room, p, s)
    ensures AreBits(Dt4, bs) && s == BitsText(bs) + [GT] + rest
    decreases |s|
  {
    hide Accepts, On, Goes, IsBit, BitText;
    StateOn(p, Dt4, []);
    Legal(room, p, s);
    if s[0] == GT {
      bs, rest := [], s[1..];
      Cons(s);
      assert BitsText([]) + [GT] + rest == [GT] + rest;
    } else {
      var b, more := BitScanned(room, p, Dt4, s);
      var p1 := BitGoes(room, p, Dt4, b);
      AcceptsOn(room, p, BitText(b), p1, [], more, Dt4, []);
      var u;
      u, rest := BitsScanned(room, p1, more);
      bs := [b] + u;
      assert bs[1..] == u;
      assert BitText(b) + (BitsText(u) + [GT] + rest) == BitText(b) + BitsText(u) + [GT] + rest;
    }
  }

  /** Markup in the internal subset. */
  lemma SubsetScanned(room: nat, p: Parser, s: seq<Byte>) returns (part: Part, rest: seq<Byte>)
    requires On(p, Dt0, []) && Accepts(room, p, s) && s != [] && s[0] == LT
    ensures IsPart(part) && s == PartText(part) + rest && |rest| < |s| && (PartRoom(part) == 0 || PartRoom(part) < room)
  {
    hide Accepts, On, Goes, Control, IsCommentText, IsInstruction, AreBits, CommentTail, PiTail, BitsText, Size;
    StateOn(p, Dt0, []);
    DoctypeTable(p.ctl, LT);
    var p1 := Advance(room, p, Dt0, [], s, Dt2);
    StateOn(p1, Dt2, []);
    Legal(room, p1, s[1..]);
    TakenDoctype(p1.ctl, s[1]);
    var p2 := SubsetHead(room, p, s[1]);
    var u := s[2..];
    assert s == [LT] + [s[1]] + u;
    AcceptsOn(room, p, [LT] + [s[1]], p2, [], u, if s[1] == BANG then Dt3 else Pi0, []);
    if s[1] == ASK {
      var n, sep, t;
      n, sep, t, rest := PiNameAt(room, p2, [], u);
      NoNames();
      part := Ordered(n, sep, t);
      assert [LT] + [ASK] + (n + PiTail(sep, t) + rest) == PartText(part) + rest;
    } else {
      part, rest := DeclaredScanned(room, p2, u);
    }
  }

  lemma DeclaredScanned(room: nat, p: Parser, s: seq<Byte>) returns (part: Part, rest: seq<Byte>)
    requires On(p, Dt3, []) && Accepts(room, p, s)
    ensures IsPart(part) && [LT] + [BANG] + s == PartText(part) + rest && |rest| < |s| && PartRoom(part) == 0
  {
    hide Accepts, On, Goes, Control, IsCommentText, AreBits, PartText;
    StateOn(p, Dt3, []);
    Legal(room, p, s);
    DoctypeTable(p.ctl, s[0]);
    Cons(s);
    if s[0] == DASH {
      var p1 := Advance(room, p, Dt3, [], s, Comment1);
      var t;
      t, rest := CommentScanned(room, p1, [], s[1..]);
      part := Remarked(t);
      RemarkedParts(t, rest);
    } else {
      var p1 := Advance(room, p, Dt3, [], s, Dt4);
      var bits;
      bits, rest := BitsScanned(room, p1, s[1..]);
      part := Declared(s[0], bits);
      DeclaredParts(s[0], bits, rest);
    }
  }

  lemma RemarkedParts(t: seq<Byte>, rest: seq<Byte>)
    ensures [LT] + [BANG] + ([DASH] + (CommentTail(t) + rest)) == PartText(Remarked(t)) + rest
  {
    hide CommentTail;
  }

  lemma DeclaredParts(first: Byte, bits: seq<Bit>, rest: seq<Byte>)
    ensures [LT] + [BANG] + ([first] + (BitsText(bits) + [GT] + rest)) == PartText(Declared(first, bits)) + rest
  {
    hide BitsText;
  }

  lemma PartScanned(room: nat, p: Parser, s: seq<Byte>) returns (part: Part, rest: seq<Byte>)
    requires On(p, Dt0, []) && Accepts(room, p, s) && s != [] && s[0] != GT
    ensures IsPart(part) && s == PartText(part) + rest && |rest| < |s| && (PartRoom(part) == 0 || PartRoom(part) < room)
  {
    hide Accepts, On, IsBit, BitText;
    if s[0] == LT {
      part, rest := SubsetScanned(room, p, s);
    } else {
      var b;
      b, rest := BitScanned(room, p, Dt0, s);
      part := Part.Bit(b);
    }
  }

  lemma {:induction false} PartsScanned(room: nat, p: Parser, s: seq<Byte>) returns (ps: seq<Part>, rest: seq<Byte>)
    requires On(p, Dt0, []) && Accepts(room, p, s) && room > 0
    ensures AreParts(ps) && s == PartsText(ps) + [GT] + rest && PartsRoom(ps) < room
    decreases |s|
  {
    hide Accepts, On, Goes, IsPart, PartText, PartTokens, PartRoom;
    StateOn(p, Dt0, []);
    Legal(room, p, s);
    if s[0] == GT {
      ps, rest := [], s[1..];
      Cons(s);
      assert PartsText([]) + [GT] + rest == [GT] + rest;
    } else {
      var part, more := PartScanned(room, p, s);
      var p1 := PartGoes(room, p, part);
      AcceptsOn(room, p, PartText(part), p1, PartTokens(part), more, Dt0, []);
      var u;
      u, rest := PartsScanned(room, p1, more);
      ps := [part] + u;
      assert ps[1..] == u;
      assert PartText(part) + (PartsText(u) + [GT] + rest) == PartText(part) + PartsText(u) + [GT] + rest;
    }
  }

  /** The word that begins a declaration of the document type. */
  lemma DoctypeWord(room: nat, p: Parser, from: State, s: seq<Byte>)
    requires On(p, from, []) && (from.Init? || from.Misc0? || from.Misc1?) && Accepts(room, p, s)
    requires |s| >= 3 && s[0] == LT && s[1] == BANG && s[2] == UPPER_D
    ensures Text("OCTYPE") <= s[3..]
  {
    hide Accepts, On, Control, Text;
    var p1 := MarkScanned(room, p, from, [], s);
    StateOn(p1, Marked(from), []);
    CommentTable(p1.ctl, BANG);
    var p2 := Advance(room, p1, Marked(from), [], s[1..], Lee1);
    StateOn(p2, Lee1, []);
    DoctypeTable(p2.ctl, UPPER_D);
    assert s[1..][1..] == s[2..];
    var p3 := Advance(room, p2, Lee1, [], s[2..], Literal);
    assert s[2..][1..] == s[3..];
    LiteralScanned(room, p3, [], Text("OCTYPE"), s[3..]);
  }

  lemma DoctypeAt(room: nat, p: Parser, from: State, s: seq<Byte>) returns (ps: seq<Part>, rest: seq<Byte>)
    requires On(p, from, []) && (from.Init? || from.Misc0? || from.Misc1?) && Accepts(room, p, s) && room > 0
    requires |s| >= 3 && s[0] == LT && s[1] == BANG && s[2] == UPPER_D
    ensures AreParts(ps) && s == DoctypeText(ps) + rest && PartsRoom(ps) < room
  {
    hide Accepts, On, Goes, Text, AreParts, PartsText, PartsRoom;
    var word := Text("OCTYPE");
    DoctypeWord(room, p, from, s);
    Three(LT, BANG, UPPER_D, s);
    var more := s[3..][|word|..];
    assert s[3..] == word + more;
    var p1 := DoctypeHead(room, p, from);
    var head := [LT] + [BANG] + [UPPER_D] + word;
    assert s == head + more;
    AcceptsOn(room, p, head, p1, [], more, Dt0, []);
    ps, rest := PartsScanned(room, p1, more);
    assert head + (PartsText(ps) + [GT] + rest) == DoctypeText(ps) + rest;
  }

  /// Around the root

  /** A blank, a comment, an instruction or a document type, which is not the beginning of the root. */
  predicate AtMisc(s: seq<Byte>) {
    s != [] && (IsSpace(s[0]) || (|s| >= 2 && s[0] == LT && (s[1] == BANG || s[1] == ASK)))
  }

  /** Behind the beginning of a comment or a document type. */
  lemma BangAt(room: nat, p: Parser, from: State, s: seq<Byte>) returns (m: Misc, rest: seq<Byte>)
    requires On(p, from, []) && IsOutside(from) && Accepts(room, p, s) && room > 0
    requires |s| >= 2 && s[0] == LT && s[1] == BANG
    ensures IsMisc(from, m) && !m.Blank? && s == MiscText(m) + rest && MiscRoom(m) < room
  {
    hide Accepts, On, Control, IsCommentText, CommentTail, AreParts, DoctypeText, PartsRoom;
    var p1 := MarkScanned(room, p, from, [], s);
    StateOn(p1, Marked(from), []);
    CommentTable(p1.ctl, BANG);
    var to := if from.Misc3? then Comment0 else Lee1;
    var p2 := Advance(room, p1, Marked(from), [], s[1..], to);
    StateOn(p2, to, []);
    assert s[1..][1..] == s[2..];
    Legal(room, p2, s[2..]);
    TakenMarkup(p2.ctl, s[2..][0]);
    TakenDoctype(p2.ctl, s[2..][0]);
    if s[2] == DASH {
      var t;
      t, rest := CommentAt(room, p, from, [], s);
      m := Remark(t);
    } else {
      var ps;
      ps, rest := DoctypeAt(room, p, from, s);
      m := Doctype(ps);
    }
  }

  /** The name with which a document begins, if it begins with a question mark. */
  lemma FirstNameFits(room: nat, p: Parser, stack: seq<Name>, n: Name, rest: seq<Byte>)
    requires On(p, Leq0, stack) && IsXmlTag(n) && Accepts(room, p, n + rest)
    ensures Size(stack) + |n| + 1 < room
  {
    hide Goes, Control, On, Size, Accepts;
    StateOn(p, Leq0, stack);
    PlainName(n);
    hide IsName, IsNameStart, IsXmlTag;
    FirstNameTable(p.ctl, n[0]);
    assert (n + rest)[0] == n[0];
    PushFits(room, p, Leq0, stack, n + rest);
    if Size(stack) + |n| + 1 >= room {
      var m := room - Size(stack) - 2;
      var u := n[..m];
      PrefixName(n, m);
      var p1 := FirstNameGoes(room, p, stack, u);
      assert n + rest == u + (n[m..] + rest);
      AcceptsOn(room, p, u, p1, [], n[m..] + rest, FirstNameState(u, m), stack + [u]);
      StateOn(p1, FirstNameState(u, m), stack + [u]);
      FirstNameTable(p1.ctl, n[m]);
      assert (n[m..] + rest)[0] == n[m];
      GrowFits(room, p1, FirstNameState(u, m), stack, u, n[m..] + rest);
    }
  }

  lemma PrefixName(n: Name, m: nat)
    requires IsXmlTag(n) && 1 <= m <= |n|
    ensures IsXmlTag(n[..m])
  {
    hide IsName, IsNameStart;
  }

  lemma FirstAskAt(room: nat, p: Parser, from: State, s: seq<Byte>) returns (p': Parser)
    requires On(p, from, []) && (from.Init? || from.Misc0?) && Accepts(room, p, s)
    requires |s| >= 2 && s[0] == LT && s[1] == ASK
    ensures On(p', Leq0, []) && Accepts(room, p', s[2..]) && s[2..] != [] && IsNameStart(s[2..][0])
  {
    hide Accepts, On, Control, IsName, IsNameStart;
    var p1 := MarkScanned(room, p, from, [], s);
    StateOn(p1, Le0, []);
    FirstNameTable(p1.ctl, ASK);
    p' := Advance(room, p1, Le0, [], s[1..], Leq0);
    StateOn(p', Leq0, []);
    assert s[1..][1..] == s[2..];
    Legal(room, p', s[2..]);
    TakenPi(p'.ctl, s[2..][0]);
  }

  /** The question mark at the beginning of a document: up to the end of the name behind it. */
  lemma FirstNameAt(room: nat, p: Parser, from: State, s: seq<Byte>) returns (n: Name, rest: seq<Byte>, p': Parser)
    requires On(p, from, []) && (from.Init? || from.Misc0?) && Accepts(room, p, s)
    requires |s| >= 2 && s[0] == LT && s[1] == ASK
    ensures IsXmlTag(n) && s == [LT] + [ASK] + n + rest && |n| + 1 < room && rest != [] && !IsName(rest[0])
    ensures On(p', FirstNameState(n, |n|), [] + [n]) && p'.ctl.next == Misc1 && Accepts(room, p', rest)
  {
    hide Accepts, On, Goes, Control, Size, IsName, IsNameStart, IsXmlTag, FirstNameState;
    NoNames();
    var p1 := FirstAskAt(room, p, from, s);
    n, rest := NameScanned(s[2..]);
    NamesAreNotEmpty(n);
    FirstNameFits(room, p1, [], n, rest);
    p' := FirstNameGoes(room, p1, [], n);
    AcceptsOn(room, p1, n, p', [], rest, FirstNameState(n, |n|), [] + [n]);
    StateOn(p', FirstNameState(n, |n|), [] + [n]);
    NameStateInside(n);
    Legal(room, p', rest);
    assert s == [LT] + [ASK] + s[2..];
    assert [LT] + [ASK] + (n + rest) == [LT] + [ASK] + n + rest;
  }

  lemma NameStateInside(n: Name)
    requires n != []
    ensures !FirstNameState(n, |n|).Misc3?
    ensures InPiName(FirstNameState(n, |n|)) || n == XML
  {
    if |n| == 3 { assert n == [n[0], n[1], n[2]]; }
  }

  /** An instruction that is the first thing of a document. */
  lemma FirstPiAt(room: nat, p: Parser, from: State, s: seq<Byte>, n: Name, u: seq<Byte>, p1: Parser)
    returns (m: Misc, rest: seq<Byte>)
    requires On(p, from, []) && (from.Init? || from.Misc0?) && IsXmlTag(n) && n != XML && |n| + 1 < room
    requires s == [LT] + [ASK] + n + u && u != [] && !IsName(u[0])
    requires On(p1, FirstNameState(n, |n|), [] + [n]) && Accepts(room, p1, u)
    ensures IsMisc(from, m) && m.Order? && s == MiscText(m) + rest && MiscRoom(m) < room
  {
    hide Accepts, On, IsInstruction, PiTail, IsName, IsXmlTag;
    NamesAreNotEmpty(n);
    NameStateInside(n);
    hide FirstNameState;
    var sep, t;
    sep, t, rest := PiRestScanned(room, p1, FirstNameState(n, |n|), [], n, u);
    m := Order(n, sep, t);
    assert [LT] + [ASK] + n + (PiTail(sep, t) + rest) == PiText(n, sep, t) + rest;
  }

  lemma MiscScanned(room: nat, p: Parser, from: State, s: seq<Byte>) returns (m: Misc, rest: seq<Byte>)
    requires On(p, from, []) && (from.Misc1? || from.Misc3?) && Accepts(room, p, s) && AtMisc(s) && room > 0
    ensures IsMisc(from, m) && s == MiscText(m) + rest && MiscRoom(m) < room
  {
    hide Accepts, On, IsInstruction, PiTail, IsSpace, Size;
    if IsSpace(s[0]) {
      m, rest := Blank(s[0]), s[1..];
      Cons(s);
    } else if s[1] == BANG {
      m, rest := BangAt(room, p, from, s);
    } else {
      var n, sep, t;
      n, sep, t, rest := PiAt(room, p, from, [], s);
      NoNames();
      m := Order(n, sep, t);
    }
  }

  /// Lists of such things

  lemma MiscIsSome(from: State, m: Misc)
    ensures |MiscText(m)| > 0
  {
  }

  lemma MiscsCons(from: State, m: Misc, ms: seq<Misc>)
    requires IsMisc(from, m) && AreMiscs(NextState(from, m), ms)
    ensures var all := [m] + ms;
            && AreMiscs(from, all) && MiscsText(all) == MiscText(m) + MiscsText(ms)
            && MiscsRoom(all) == (if MiscRoom(m) > MiscsRoom(ms) then MiscRoom(m) else MiscsRoom(ms))
            && EndState(from, all) == EndState(NextState(from, m), ms)
  {
    hide IsMisc, NextState, MiscText, MiscRoom;
    assert ([m] + ms)[1..] == ms;
  }

  /** Behind the root nothing else may come. */
  lemma {:induction false} EpilogScanned(room: nat, p: Parser, s: seq<Byte>) returns (ms: seq<Misc>)
    requires On(p, Misc3, []) && Accepts(room, p, s) && room > 0
    ensures AreMiscs(Misc3, ms) && s == MiscsText(ms) && MiscsRoom(ms) < room
    decreases |s|
  {
    hide Accepts, On, Goes, Control, IsSpace, MiscText, MiscTokens, MiscRoom;
    if s == [] {
      ms := [];
    } else {
      EpilogGoesOn(room, p, s);
      hide IsMisc;
      var m, more := MiscScanned(room, p, Misc3, s);
      MiscIsSome(Misc3, m);
      var p1 := MiscGoes(room, p, Misc3, m);
      EpilogNext(m);
      AcceptsOn(room, p, MiscText(m), p1, MiscTokens(m), more, Misc3, []);
      var u := EpilogScanned(room, p1, more);
      ms := [m] + u;
      MiscsCons(Misc3, m, u);
    }
  }

  lemma EpilogNext(m: Misc)
    ensures IsMisc(Misc3, m) ==> NextState(Misc3, m) == Misc3
  {
  }

  lemma EpilogGoesOn(room: nat, p: Parser, s: seq<Byte>)
    requires On(p, Misc3, []) && Accepts(room, p, s) && s != []
    ensures AtMisc(s)
  {
    hide Accepts, On, Control, IsSpace;
    StateOn(p, Misc3, []);
    Legal(room, p, s);
    TakenDoctype(p.ctl, s[0]);
    if s[0] == LT {
      var p1 := MarkScanned(room, p, Misc3, [], s);
      StateOn(p1, Le3, []);
      TakenMarkup(p1.ctl, s[1]);
    }
  }

  /** Where the root begins. */
  predicate AtRoot(s: seq<Byte>) {
    |s| >= 2 && s[0] == LT && IsNameStart(s[1])
  }

  lemma PrologGoesOn(room: nat, p: Parser, from: State, s: seq<Byte>)
    requires On(p, from, []) && (from.Misc0? || from.Misc1?) && Accepts(room, p, s)
    ensures s != [] && (AtMisc(s) || AtRoot(s)) && !(IsSpace(s[0]) && s[0] == LT)
  {
    hide Accepts, On, Control, IsSpace, IsNameStart;
    StateOn(p, from, []);
    Legal(room, p, s);
    TakenDoctype(p.ctl, s[0]);
    SpaceIsNotMark(s[0]);
    if s[0] == LT {
      var p1 := MarkScanned(room, p, from, [], s);
      StateOn(p1, Marked(from), []);
      TakenMarkup(p1.ctl, s[1]);
    }
  }

  lemma SpaceIsNotMark(ch: Byte)
    ensures !(IsSpace(ch) && ch == LT)
  {
  }

  /** Between the declaration, if there is one, and the root. */
  lemma {:induction false} PrologScanned(room: nat, p: Parser, s: seq<Byte>) returns (ms: seq<Misc>, rest: seq<Byte>)
    requires On(p, Misc1, []) && Accepts(room, p, s) && room > 0
    ensures AreMiscs(Misc1, ms) && s == MiscsText(ms) + rest && MiscsRoom(ms) < room && AtRoot(rest)
    decreases |s|
  {
    hide Accepts, On, Goes, IsSpace, IsNameStart, MiscText, MiscTokens, MiscRoom;
    PrologGoesOn(room, p, Misc1, s);
    if AtRoot(s) {
      ms, rest := [], s;
    } else {
      hide IsMisc;
      var m, more := MiscScanned(room, p, Misc1, s);
      MiscIsSome(Misc1, m);
      var p1 := MiscGoes(room, p, Misc1, m);
      PrologNext(m);
      AcceptsOn(room, p, MiscText(m), p1, MiscTokens(m), more, Misc1, []);
      var u;
      u, rest := PrologScanned(room, p1, more);
      ms := [m] + u;
      MiscsCons(Misc1, m, u);
      assert MiscText(m) + (MiscsText(u) + rest) == MiscText(m) + MiscsText(u) + rest;
    }
  }

  lemma PrologNext(m: Misc)
    ensures NextState(Misc1, m) == Misc1
  {
  }

  /// The declaration

  lemma TakenDecl(c: Ctl, ch: Byte)
    requires !Control(c, ch).action.SyntaxError?
    ensures c.state.XmlDecl3? ==> IsSpace(ch) || ch == LOWER_V
    ensures c.state.XmlDecl4? || c.state.XmlDecl6? || c.state.XmlDecl8? ==> IsSpace(ch) || ch == ASK
    ensures c.state.XmlDecl5? ==> IsSpace(ch) || ch == ASK || ch == LOWER_E || ch == LOWER_S
    ensures c.state.XmlDecl7? ==> IsSpace(ch) || ch == ASK || ch == LOWER_S
    ensures c.state.XmlDecl9? ==> ch == GT
  {
  }

  lemma TakenOption(c: Ctl, ch: Byte)
    requires !Control(c, ch).action.SyntaxError?
    ensures c.state.Ver0? || c.state.Enc0? || c.state.Std0? ==> IsSpace(ch) || ch == EQUALS
    ensures c.state.Ver1? || c.state.Enc1? || c.state.Std1? ==> IsSpace(ch) || IsQuote(ch)
    ensures c.state.Ver2? ==> IsNum(ch)
    ensures c.state.Ver3? ==> IsNum(ch) || ch == c.quote
    ensures c.state.Enc2? ==> IsAlpha(ch)
    ensures c.state.Enc3? ==> IsEncName(ch) || ch == c.quote
    ensures c.state.Std2? ==> ch == LOWER_Y || ch == LOWER_N
    ensures c.state.Std3? ==> ch == c.quote
  {
  }

  predicate EqualsStates(s: Steps) {
    (s.equals.Ver0? || s.equals.Enc0? || s.equals.Std0?) && (s.quoted.Ver1? || s.quoted.Enc1? || s.quoted.Std1?)
  }

  lemma DeclBlanksPassed(room: nat, p: Parser, state: State, w: seq<Byte>, rest: seq<Byte>)
    requires On(p, state, []) && PassesDeclBlanks(state) && AreBlanks(w) && Accepts(room, p, w + rest)
    ensures Accepts(room, p, rest)
  {
    hide Accepts, On, Goes, AreBlanks;
    DeclBlanksGo(room, p, state, w);
    AcceptsOn(room, p, w, p, [], rest, state, []);
  }

  /** The blanks, the equals sign, the blanks and the quote of a part. */
  lemma EqualsQuoteScanned(room: nat, p: Parser, st: Steps, first: Byte, word: seq<Byte>, s: seq<Byte>)
    returns (before: seq<Byte>, after: seq<Byte>, quote: Byte, rest: seq<Byte>)
    requires On(p, st.equals, []) && EqualsStates(st) && Accepts(room, p, s)
             && (forall c :: Takes(c, st, first, word, 34))
    ensures AreBlanks(before) && AreBlanks(after) && IsQuote(quote) && s == before + [EQUALS] + (after + [quote] + rest)
  {
    hide Accepts, On, Control, IsSpace, IsQuote, ArePlain;
    var m1, m2;
    StateOn(p, st.equals, []);
    before, m1 := BlanksScanned(s);
    DeclBlanksPassed(room, p, st.equals, before, m1);
    Legal(room, p, m1);
    TakenOption(p.ctl, m1[0]);
    assert Takes(p.ctl, st, first, word, 34);
    NotClosing(st.quoted);
    var p1 := Advance(room, p, st.equals, [], m1, st.quoted);
    Cons(m1);
    StateOn(p1, st.quoted, []);
    after, m2 := BlanksScanned(m1[1..]);
    DeclBlanksPassed(room, p1, st.quoted, after, m2);
    Legal(room, p1, m2);
    TakenOption(p1.ctl, m2[0]);
    Cons(m2);
    quote, rest := m2[0], m2[1..];
    assert before + ([EQUALS] + (after + ([quote] + rest))) == before + [EQUALS] + (after + [quote] + rest);
  }

  /** The name of a part up to its quote. */
  lemma PartHeadScanned(room: nat, p: Parser, st: Steps, first: Byte, word: seq<Byte>, lead: seq<Byte>, s: seq<Byte>)
    returns (w: Spacing, quote: Byte, rest: seq<Byte>)
    requires On(p, st.from, []) && EqualsStates(st) && Accepts(room, p, s)
             && (forall c :: Takes(c, st, first, word, 34))
    requires s != [] && s[0] == first && lead != [] && AreBlanks(lead)
    ensures IsSpacing(w) && w.lead == lead && IsQuote(quote) && s == PartHead(first, word, w, quote) + rest
  {
    hide Accepts, On, Goes, Control, IsSpace, IsQuote, ArePlain;
    StateOn(p, st.from, []);
    assert Takes(p.ctl, st, first, word, 34);
    var p1 := Advance(room, p, st.from, [], s, Literal);
    NotClosing(st.equals);
    LiteralScanned(room, p1, [], word, s[1..]);
    var m := s[1..][|word|..];
    assert s[1..] == word + m;
    var p2 := LiteralGoes(room, p1, [], word);
    AcceptsOn(room, p1, word, p2, [], m, st.equals, []);
    hide Takes, EqualsStates;
    var before, after;
    before, after, quote, rest := EqualsQuoteScanned(room, p2, st, first, word, m);
    w := Spacing(lead, before, after);
    Cons(s);
    PartParts([first], word, before + [EQUALS], after + [quote], rest);
  }

  lemma PartParts(a: seq<Byte>, b: seq<Byte>, c: seq<Byte>, d: seq<Byte>, e: seq<Byte>)
    ensures a + (b + (c + (d + e))) == a + b + c + d + e
  {
  }

  /// Version

  function NumRun(s: seq<Byte>): (k: nat)
    ensures k <= |s| && (forall i :: 0 <= i < k ==> IsNum(s[i])) && (k < |s| ==> !IsNum(s[k]))
  {
    if s == [] || !IsNum(s[0]) then 0 else 1 + NumRun(s[1..])
  }

  /** The rest up to the quote. */
  lemma DigitsRestScanned(room: nat, p: Parser, s: seq<Byte>) returns (t: seq<Byte>, rest: seq<Byte>)
    requires On(p, Ver3, []) && Accepts(room, p, s)
    ensures (forall i :: 0 <= i < |t| ==> IsNum(t[i])) && s == t + ([p.ctl.quote] + rest)
  {
    hide Accepts, On, Goes, Control, IsNum;
    StateOn(p, Ver3, []);
    var k := NumRun(s);
    t := s[..k];
    var m := s[k..];
    assert s == t + m;
    forall i | 0 <= i < |t|
      ensures IsPlain(t[i]) && Control(p.ctl, t[i]) == Move(p.ctl, Nothing)
    {
      PlainClasses(t[i]);
      VersionTable(p.ctl, t[i]);
    }
    Stays(room, p, Ver3, [], t);
    AcceptsOn(room, p, t, p, [], m, Ver3, []);
    Legal(room, p, m);
    TakenOption(p.ctl, m[0]);
    Cons(m);
    rest := m[1..];
  }

  lemma DigitsScanned(room: nat, p: Parser, s: seq<Byte>) returns (digits: seq<Byte>, rest: seq<Byte>)
    requires On(p, Ver2, []) && Accepts(room, p, s)
    ensures digits != [] && (forall i :: 0 <= i < |digits| ==> IsNum(digits[i])) && s == digits + [p.ctl.quote] + rest
  {
    hide Accepts, On, Control, IsNum;
    StateOn(p, Ver2, []);
    Legal(room, p, s);
    TakenOption(p.ctl, s[0]);
    VersionTable(p.ctl, s[0]);
    var p1 := Advance(room, p, Ver2, [], s, Ver3);
    var t;
    t, rest := DigitsRestScanned(room, p1, s[1..]);
    Cons(s);
    digits := [s[0]] + t;
    assert [s[0]] + (t + ([p.ctl.quote] + rest)) == digits + [p.ctl.quote] + rest;
  }

  lemma VersionScanned(room: nat, p: Parser, n: Name, s: seq<Byte>) returns (v: Version, rest: seq<Byte>)
    requires On(p, XmlDecl2, [] + [n]) && Accepts(room, p, s) && s != [] && !IsName(s[0])
    ensures IsVersion(v) && s == VersionText(v) + rest
  {
    hide Accepts, On, Goes, Control, IsSpace, IsQuote, IsNum, IsName, PartHead, Text, ArePlain, Takes;
    StateOn(p, XmlDecl2, [] + [n]);
    Legal(room, p, s);
    TakenPi(p.ctl, s[0]);
    var lead, m1 := BlanksScanned(s);
    var p1 := XmlLeadGoes(room, p, n, lead);
    AcceptsOn(room, p, lead, p1, [], m1, XmlDecl3, []);
    StateOn(p1, XmlDecl3, []);
    Legal(room, p1, m1);
    TakenDecl(p1.ctl, m1[0]);
    var st, word := Steps(XmlDecl3, Ver0, Ver1, Literal), Text("ersion");
    forall c
      ensures Takes(c, st, LOWER_V, word, 34)
    {
      Quote34();
      VersionTakes(c, 34);
    }
    var w, quote, m2 := PartHeadScanned(room, p1, st, LOWER_V, word, lead, m1);
    v, rest := VersionRest(room, p1, w, quote, PartHead(LOWER_V, word, w, quote), m2);
    assert lead + (PartHead(LOWER_V, word, w, quote) + m2) == lead + PartHead(LOWER_V, word, w, quote) + m2;
  }

  lemma Quote34()
    ensures IsQuote(34)
  {
  }

  lemma VersionRest(room: nat, p: Parser, w: Spacing, quote: Byte, head: seq<Byte>, s: seq<Byte>)
    returns (v: Version, rest: seq<Byte>)
    requires On(p, XmlDecl3, []) && IsSpacing(w) && IsQuote(quote)
             && head == PartHead(LOWER_V, Text("ersion"), w, quote)
    requires Accepts(room, p, head + s)
    ensures IsVersion(v) && v.space == w && v.quote == quote && w.lead + head + s == VersionText(v) + rest
  {
    hide Accepts, On, Goes, IsQuote, IsNum, PartHead, Text, ArePlain, IsSpacing;
    PlainWords();
    var p2 := VersionHead(room, p, w, quote);
    AcceptsOn(room, p, head, p2, [], s, Literal, []);
    LiteralScanned(room, p2, [], Text("1."), s);
    var m := s[|Text("1.")|..];
    assert s == Text("1.") + m;
    var p3 := LiteralGoes(room, p2, [], Text("1."));
    AcceptsOn(room, p2, Text("1."), p3, [], m, Ver2, []);
    var digits;
    digits, rest := DigitsScanned(room, p3, m);
    v := Version(w, quote, digits);
    assert w.lead + head + (Text("1.") + (digits + [quote] + rest)) == VersionText(v) + rest;
  }

  /// Encoding and standalone

  function EncRun(s: seq<Byte>): (k: nat)
    ensures k <= |s| && (forall i :: 0 <= i < k ==> IsEncName(s[i])) && (k < |s| ==> !IsEncName(s[k]))
  {
    if s == [] || !IsEncName(s[0]) then 0 else 1 + EncRun(s[1..])
  }

  lemma AlphaIsName(ch: Byte)
    ensures IsAlpha(ch) ==> IsEncName(ch)
  {
  }

  /** The rest up to the quote. */
  lemma EncRestScanned(room: nat, p: Parser, s: seq<Byte>) returns (t: seq<Byte>, rest: seq<Byte>)
    requires On(p, Enc3, []) && Accepts(room, p, s)
    ensures (forall i :: 0 <= i < |t| ==> IsEncName(t[i])) && s == t + ([p.ctl.quote] + rest)
  {
    hide Accepts, On, Goes, Control, IsEncName;
    StateOn(p, Enc3, []);
    var k := EncRun(s);
    t := s[..k];
    var m := s[k..];
    assert s == t + m;
    forall i | 0 <= i < |t|
      ensures IsPlain(t[i]) && Control(p.ctl, t[i]) == Move(p.ctl, Nothing)
    {
      PlainClasses(t[i]);
      EncodingTable(p.ctl, t[i]);
    }
    Stays(room, p, Enc3, [], t);
    AcceptsOn(room, p, t, p, [], m, Enc3, []);
    Legal(room, p, m);
    TakenOption(p.ctl, m[0]);
    Cons(m);
    rest := m[1..];
  }

  lemma EncNameScanned(room: nat, p: Parser, s: seq<Byte>) returns (name: seq<Byte>, rest: seq<Byte>)
    requires On(p, Enc2, []) && Accepts(room, p, s)
    ensures name != [] && IsAlpha(name[0]) && (forall i :: 0 <= i < |name| ==> IsEncName(name[i]))
    ensures s == name + [p.ctl.quote] + rest
  {
    hide Accepts, On, Control, IsAlpha, IsEncName;
    StateOn(p, Enc2, []);
    Legal(room, p, s);
    TakenOption(p.ctl, s[0]);
    EncodingTable(p.ctl, s[0]);
    AlphaIsName(s[0]);
    var p1 := Advance(room, p, Enc2, [], s, Enc3);
    var t;
    t, rest := EncRestScanned(room, p1, s[1..]);
    Cons(s);
    name := [s[0]] + t;
    assert [s[0]] + (t + ([p.ctl.quote] + rest)) == name + [p.ctl.quote] + rest;
  }

  /** The encoding, behind the blanks before it. */
  lemma EncodingScanned(room: nat, p: Parser, lead: seq<Byte>, s: seq<Byte>) returns (e: Encoding, rest: seq<Byte>)
    requires On(p, XmlDecl5, []) && Accepts(room, p, s) && s != [] && s[0] == LOWER_E && lead != [] && AreBlanks(lead)
    ensures IsEncoding(e) && e.space.lead == lead && lead + s == EncodingText(e) + rest
  {
    hide Accepts, On, Goes, Control, IsQuote, IsAlpha, IsEncName, PartHead, Text, Takes, AreBlanks;
    var st, word := Steps(XmlDecl5, Enc0, Enc1, Enc2), Text("ncoding");
    Quote34();
    forall c
      ensures Takes(c, st, LOWER_E, word, 34)
    {
      EncodingTakes(c, 34);
    }
    var w, quote, m := PartHeadScanned(room, p, st, LOWER_E, word, lead, s);
    forall c
      ensures Takes(c, st, LOWER_E, word, quote)
    {
      EncodingTakes(c, quote);
    }
    var p1, c := PartHeadGoes(room, p, st, LOWER_E, word, w, quote);
    var head := PartHead(LOWER_E, word, w, quote);
    AcceptsOn(room, p, head, p1, [], m, Enc2, []);
    var name;
    name, rest := EncNameScanned(room, p1, m);
    e := Encoding(w, quote, name);
    assert lead + (head + (name + [quote] + rest)) == lead + head + (name + [quote]) + rest;
  }

  lemma AnswerScanned(room: nat, p: Parser, s: seq<Byte>) returns (yes: bool, rest: seq<Byte>)
    requires On(p, Std2, []) && Accepts(room, p, s)
    ensures s == AnswerText(yes) + [p.ctl.quote] + rest
  {
    hide Accepts, On, Goes, Control, Text, ArePlain;
    PlainWords();
    StateOn(p, Std2, []);
    Legal(room, p, s);
    TakenOption(p.ctl, s[0]);
    StandaloneTable(p.ctl, 0);
    yes := s[0] == LOWER_Y;
    var word := if yes then Text("es") else Text("o");
    var p1 := Advance(room, p, Std2, [], s, Literal);
    LiteralScanned(room, p1, [], word, s[1..]);
    var m := s[1..][|word|..];
    assert s[1..] == word + m;
    Cons(s);
    var p2 := WordGoes(room, p, yes);
    assert s == AnswerText(yes) + m;
    AcceptsOn(room, p, AnswerText(yes), p2, [], m, Std3, []);
    StateOn(p2, Std3, []);
    Legal(room, p2, m);
    TakenOption(p2.ctl, m[0]);
    Cons(m);
    rest := m[1..];
    assert AnswerText(yes) + ([p.ctl.quote] + rest) == AnswerText(yes) + [p.ctl.quote] + rest;
  }

  lemma StandaloneScanned(room: nat, p: Parser, from: State, lead: seq<Byte>, s: seq<Byte>)
    returns (a: Standalone, rest: seq<Byte>)
    requires On(p, from, []) && (from.XmlDecl5? || from.XmlDecl7?) && Accepts(room, p, s)
    requires s != [] && s[0] == LOWER_S && lead != [] && AreBlanks(lead)
    ensures IsStandalone(a) && a.space.lead == lead && lead + s == StandaloneText(a) + rest
  {
    hide Accepts, On, Goes, Control, IsQuote, PartHead, Text, Takes, AreBlanks, AnswerText;
    var st, word := Steps(from, Std0, Std1, Std2), Text("tandalone");
    Quote34();
    forall c
      ensures Takes(c, st, LOWER_S, word, 34)
    {
      StandaloneTakes(c, from, 34);
    }
    var w, quote, m := PartHeadScanned(room, p, st, LOWER_S, word, lead, s);
    forall c
      ensures Takes(c, st, LOWER_S, word, quote)
    {
      StandaloneTakes(c, from, quote);
    }
    var p1, c := PartHeadGoes(room, p, st, LOWER_S, word, w, quote);
    var head := PartHead(LOWER_S, word, w, quote);
    AcceptsOn(room, p, head, p1, [], m, Std2, []);
    var yes;
    yes, rest := AnswerScanned(room, p1, m);
    a := Standalone(w, quote, yes);
    assert lead + (head + (AnswerText(yes) + [quote] + rest)) == lead + head + (AnswerText(yes) + [quote]) + rest;
  }

  /// The end of the declaration

  /** The blanks behind a part of the declaration. */
  lemma GapScanned(room: nat, p: Parser, from: State, s: seq<Byte>) returns (w: seq<Byte>, rest: seq<Byte>, p': Parser)
    requires On(p, from, []) && (from.XmlDecl4? || from.XmlDecl6? || from.XmlDecl8?) && Accepts(room, p, s)
    ensures AreBlanks(w) && s == w + rest && On(p', if w == [] then from else Spaced(from), [])
            && Accepts(room, p', rest)
    ensures rest != [] && if rest[0] == LOWER_E then w != [] && from.XmlDecl4?
                          else if rest[0] == LOWER_S then w != [] && !from.XmlDecl8? else rest[0] == ASK
  {
    hide Accepts, On, Goes, Control, IsSpace;
    StateOn(p, from, []);
    Legal(room, p, s);
    TakenDecl(p.ctl, s[0]);
    w, rest := BlanksScanned(s);
    p' := p;
    if w != [] {
      p' := DeclLeadGoes(room, p, from, w);
      AcceptsOn(room, p, w, p', [], rest, Spaced(from), []);
      StateOn(p', Spaced(from), []);
      Legal(room, p', rest);
      TakenDecl(p'.ctl, rest[0]);
    }
  }

  lemma DeclEndScanned(room: nat, p: Parser, state: State, s: seq<Byte>) returns (rest: seq<Byte>)
    requires On(p, state, []) && BehindOption(state) && Accepts(room, p, s) && s != [] && s[0] == ASK
    ensures s == [ASK] + [GT] + rest
  {
    hide Accepts, On, Control;
    StateOn(p, state, []);
    DeclTable(p.ctl, ASK);
    var p1 := Advance(room, p, state, [], s, XmlDecl9);
    StateOn(p1, XmlDecl9, []);
    Legal(room, p1, s[1..]);
    TakenDecl(p1.ctl, s[1..][0]);
    Cons(s);
    Cons(s[1..]);
    rest := s[1..][1..];
    assert [ASK] + ([GT] + rest) == [ASK] + [GT] + rest;
  }

  /** The answer, if it comes now, and the end; `w` stands before both. */
  lemma TailScanned(room: nat, p: Parser, state: State, w: seq<Byte>, s: seq<Byte>)
    returns (a: Option<Standalone>, tail: seq<Byte>, rest: seq<Byte>)
    requires On(p, state, []) && BehindOption(state) && !state.XmlDecl8? && Accepts(room, p, s) && AreBlanks(w)
             && s != []
    requires if s[0] == LOWER_S then w != [] && (state.XmlDecl5? || state.XmlDecl7?) else s[0] == ASK
    ensures (a.Some? ==> IsStandalone(a.value)) && AreBlanks(tail)
    ensures w + s == (if a.Some? then StandaloneText(a.value) else []) + (tail + ([ASK] + [GT])) + rest
  {
    hide Accepts, On, Goes, IsStandalone, StandaloneText, AreBlanks;
    if s[0] == ASK {
      a, tail := None, w;
      rest := DeclEndScanned(room, p, state, s);
      assert w + ([ASK] + [GT] + rest) == [] + (w + ([ASK] + [GT])) + rest;
    } else {
      tail, rest := [], [];
      var v;
      v, tail, rest := AnswerTailScanned(room, p, state, w, s);
      a := Some(v);
    }
  }

  lemma AnswerTailScanned(room: nat, p: Parser, state: State, w: seq<Byte>, s: seq<Byte>)
    returns (a: Standalone, tail: seq<Byte>, rest: seq<Byte>)
    requires On(p, state, []) && (state.XmlDecl5? || state.XmlDecl7?) && Accepts(room, p, s)
    requires AreBlanks(w) && w != [] && s != [] && s[0] == LOWER_S
    ensures IsStandalone(a) && AreBlanks(tail) && w + s == StandaloneText(a) + (tail + ([ASK] + [GT])) + rest
  {
    hide Accepts, On, Goes, StandaloneText, AreBlanks, IsSpacing, IsQuote;
    var m1;
    a, m1 := StandaloneScanned(room, p, state, w, s);
    var p1 := AnsweredGoes(room, p, state, w, a, s, m1);
    var m2, p2;
    tail, m2, p2 := GapScanned(room, p1, XmlDecl8, m1);
    rest := DeclEndScanned(room, p2, XmlDecl8, m2);
    assert StandaloneText(a) + (tail + ([ASK] + [GT] + rest)) == StandaloneText(a) + (tail + ([ASK] + [GT])) + rest;
  }

  /** Behind the answer; the blanks before it have been taken already. */
  lemma AnsweredGoes(room: nat, p: Parser, state: State, w: seq<Byte>, a: Standalone, s: seq<Byte>, rest: seq<Byte>)
    returns (p': Parser)
    requires On(p, state, []) && (state.XmlDecl5? || state.XmlDecl7?) && Accepts(room, p, s) && IsStandalone(a)
    requires w + s == StandaloneText(a) + rest && a.space.lead == w
    ensures On(p', XmlDecl8, []) && Accepts(room, p', rest)
  {
    hide Accepts, On, Goes, Text, IsQuote, AnswerText, PartHead, Takes, Control, AreBlanks;
    var st, word := Steps(state, Std0, Std1, Std2), Text("tandalone");
    forall c
      ensures Takes(c, st, LOWER_S, word, a.quote)
    {
      StandaloneTakes(c, state, a.quote);
    }
    var p1, c := PartHeadGoes(room, p, st, LOWER_S, word, a.space, a.quote);
    p' := AnswerGoes(room, p1, a);
    var head, answer := PartHead(LOWER_S, word, a.space, a.quote), AnswerText(a.yes) + [a.quote];
    GoesAfter(room, p, head, p1, answer, p', []);
    Unlead(w, head, answer, rest, s);
    AcceptsOn(room, p, head + answer, p', [], rest, XmlDecl8, []);
  }

  lemma Unlead(w: seq<Byte>, head: seq<Byte>, tail: seq<Byte>, rest: seq<Byte>, s: seq<Byte>)
    requires w + s == w + head + tail + rest
    ensures s == head + tail + rest
  {
    assert s == (w + s)[|w|..];
    assert head + tail + rest == (w + head + tail + rest)[|w|..];
  }

  /** Behind the encoding; the blanks before it have been taken already. */
  lemma EncodedGoes(room: nat, p: Parser, w: seq<Byte>, e: Encoding, s: seq<Byte>, rest: seq<Byte>) returns (p': Parser)
    requires On(p, XmlDecl5, []) && Accepts(room, p, s) && IsEncoding(e)
    requires w + s == EncodingText(e) + rest && e.space.lead == w
    ensures On(p', XmlDecl6, []) && Accepts(room, p', rest)
  {
    hide Accepts, On, Goes, Text, IsQuote, PartHead, Takes, Control, AreBlanks, IsAlpha, IsEncName;
    var st, word := Steps(XmlDecl5, Enc0, Enc1, Enc2), Text("ncoding");
    forall c
      ensures Takes(c, st, LOWER_E, word, e.quote)
    {
      EncodingTakes(c, e.quote);
    }
    var p1, c := PartHeadGoes(room, p, st, LOWER_E, word, e.space, e.quote);
    p' := EncodingName(room, p1, e);
    var head, name := PartHead(LOWER_E, word, e.space, e.quote), e.name + [e.quote];
    GoesAfter(room, p, head, p1, name, p', []);
    Unlead(w, head, name, rest, s);
    AcceptsOn(room, p, head + name, p', [], rest, XmlDecl6, []);
  }

  /** Everything behind the version. */
  lemma OptionsScanned(room: nat, p: Parser, v: Version, s: seq<Byte>) returns (d: Decl, rest: seq<Byte>)
    requires On(p, XmlDecl4, []) && Accepts(room, p, s) && IsVersion(v)
    ensures IsDecl(d) && d.version == v && s == OptionsText(d) + (d.tail + ([ASK] + [GT])) + rest
  {
    hide Accepts, On, Goes, IsVersion, IsEncoding, IsStandalone, EncodingText, StandaloneText, AreBlanks;
    var w, m, p1 := GapScanned(room, p, XmlDecl4, s);
    var state := if w == [] then XmlDecl4 else XmlDecl5;
    if m[0] == LOWER_E {
      d, rest := EncodedScanned(room, p1, v, w, m);
    } else {
      var a, tail;
      a, tail, rest := TailScanned(room, p1, state, w, m);
      d := Decl(v, None, a, tail);
      assert [] + (if a.Some? then StandaloneText(a.value) else []) == if a.Some? then StandaloneText(a.value) else [];
    }
  }

  lemma EncodedScanned(room: nat, p: Parser, v: Version, w: seq<Byte>, s: seq<Byte>) returns (d: Decl, rest: seq<Byte>)
    requires On(p, XmlDecl5, []) && Accepts(room, p, s) && IsVersion(v)
    requires AreBlanks(w) && w != [] && s != [] && s[0] == LOWER_E
    ensures IsDecl(d) && d.version == v && w + s == OptionsText(d) + (d.tail + ([ASK] + [GT])) + rest
  {
    hide Accepts, On, Goes, IsVersion, IsEncoding, IsStandalone, EncodingText, StandaloneText, AreBlanks;
    var e, m1 := EncodingScanned(room, p, w, s);
    var p1 := EncodedGoes(room, p, w, e, s, m1);
    var w2, m2, p2 := GapScanned(room, p1, XmlDecl6, m1);
    var a, tail;
    a, tail, rest := TailScanned(room, p2, if w2 == [] then XmlDecl6 else XmlDecl7, w2, m2);
    d := Decl(v, Some(e), a, tail);
    var answer := if a.Some? then StandaloneText(a.value) else [];
    assert EncodingText(e) + (answer + (tail + ([ASK] + [GT])) + rest)
           == EncodingText(e) + answer + (tail + ([ASK] + [GT])) + rest;
  }

  lemma DeclScanned(room: nat, p: Parser, n: Name, s: seq<Byte>) returns (d: Decl, rest: seq<Byte>)
    requires On(p, XmlDecl2, [] + [n]) && Accepts(room, p, s) && s != [] && !IsName(s[0])
    ensures IsDecl(d) && [LT] + [ASK] + XML + s == DeclText(d) + rest
  {
    hide Accepts, On, Goes, IsName, IsVersion, VersionText, OptionsText, IsDecl;
    var v, m := VersionScanned(room, p, n, s);
    var p1 := VersionGoes(room, p, n, v);
    AcceptsOn(room, p, VersionText(v), p1, [], m, XmlDecl4, []);
    d, rest := OptionsScanned(room, p1, v, m);
    var end := d.tail + ([ASK] + [GT]);
    assert [LT] + [ASK] + XML + (VersionText(v) + (OptionsText(d) + end + rest))
           == [LT] + [ASK] + XML + VersionText(v) + OptionsText(d) + end + rest;
  }

  /// Documents

  /** Without any room no name is ever taken, and nothing comes out of the prolog. */
  lemma NoRoomStep(p: Parser, octet: Byte)
    requires Shape(p) && p.stack == [] && PlaceOf(p.ctl).Prolog?
    ensures var r := Parse(0, p, octet); !IsError(r.ret) ==> r.p.stack == [] && PlaceOf(r.p.ctl).Prolog?
  {
    var ch := if octet == 0x0D then 0x0A else octet;
    ControlSuits(p.ctl, ch);
    TopIsThere(p, ch);
    hide Control, PlaceOf, HasExtra, Returns, SuitsStack, RefValue, RefAllowed;
  }

  lemma {:induction false} NoRoom(p: Parser, s: seq<Byte>)
    requires Shape(p) && p.stack == [] && PlaceOf(p.ctl).Prolog?
    ensures var t := Run(0, p, s); !IsError(t.ret) ==> PlaceOf(t.p.ctl).Prolog?
    decreases |s|
  {
    hide Shape, Parse, PlaceOf;
    if s != [] {
      NoRoomStep(p, s[0]);
      KeepsShape(0, p, s[0]);
      var r := Parse(0, p, s[0]);
      if !IsError(r.ret) { NoRoom(r.p, s[1..]); }
    }
  }

  lemma SomeRoom(room: nat, s: seq<Byte>)
    requires Accepts(room, START, s)
    ensures room > 0
  {
    hide Run, Shape;
    if room == 0 { NoRoom(START, s); }
  }

  /** A byte order mark and blanks. */
  lemma BeginScanned(room: nat, s: seq<Byte>) returns (bom: bool, w: seq<Byte>, rest: seq<Byte>, p: Parser)
    requires Accepts(room, START, s)
    ensures AreBlanks(w) && s == (if bom then [0xEF] + [0xBB, 0xBF] else []) + w + rest
    ensures On(p, if bom || w != [] then Misc0 else Init, []) && Accepts(room, p, rest) && rest != [] && rest[0] == LT
  {
    hide Accepts, On, Goes, Control, IsSpace;
    StartOn();
    StateOn(START, Init, []);
    Legal(room, START, s);
    TakenDoctype(START.ctl, s[0]);
    BomTable(START.ctl);
    var m, p0;
    bom, m, p0 := s[0] == 0xEF, s, START;
    if bom {
      m, p0 := BomScanned(room, s);
    }
    w, rest := BlanksScanned(m);
    p := FirstBlanksGo(room, p0, if bom then Misc0 else Init, w);
    AcceptsOn(room, p0, w, p, [], rest, if bom || w != [] then Misc0 else Init, []);
    StateOn(p, if bom || w != [] then Misc0 else Init, []);
    Legal(room, p, rest);
    TakenDoctype(p.ctl, rest[0]);
    BomOnce(bom, w, s, rest);
    assert (if bom then [0xEF] + [0xBB, 0xBF] else []) + (w + rest)
           == (if bom then [0xEF] + [0xBB, 0xBF] else []) + w + rest;
  }

  lemma BomOnce(bom: bool, w: seq<Byte>, s: seq<Byte>, rest: seq<Byte>)
    requires s != [] && rest != [] && bom == (s[0] == 0xEF) && (!bom ==> s == w + rest)
    ensures !bom && w == [] ==> rest[0] != 0xEF
  {
  }

  lemma BomScanned(room: nat, s: seq<Byte>) returns (rest: seq<Byte>, p: Parser)
    requires Accepts(room, START, s) && s != [] && s[0] == 0xEF
    ensures s == [0xEF] + [0xBB, 0xBF] + rest && On(p, Misc0, []) && Accepts(room, p, rest)
  {
    hide Accepts, On, Goes, Control, ArePlain;
    StartOn();
    StateOn(START, Init, []);
    BomTable(START.ctl);
    var p1 := Advance(room, START, Init, [], s, Literal);
    LiteralScanned(room, p1, [], [0xBB, 0xBF], s[1..]);
    rest := s[1..][2..];
    assert s[1..] == [0xBB, 0xBF] + rest;
    p := LiteralGoes(room, p1, [], [0xBB, 0xBF]);
    AcceptsOn(room, p1, [0xBB, 0xBF], p, [], rest, Misc0, []);
    Cons(s);
    assert [0xEF] + ([0xBB, 0xBF] + rest) == [0xEF] + [0xBB, 0xBF] + rest;
  }

  /** What follows: a declaration, something else before the root, or the root itself. */
  lemma FrontScanned(room: nat, p: Parser, from: State, s: seq<Byte>)
    returns (decl: Option<Decl>, ms: seq<Misc>, rest: seq<Byte>)
    requires On(p, from, []) && (from.Init? || from.Misc0?) && Accepts(room, p, s) && s != [] && s[0] == LT && room > 0
    ensures decl.Some? ==> IsDecl(decl.value) && room > 4
    ensures AreMiscs(if decl.Some? then Misc1 else from, ms) && MiscsRoom(ms) < room && AtRoot(rest)
    ensures s == (if decl.Some? then DeclText(decl.value) else []) + MiscsText(ms) + rest
  {
    hide Accepts, On, Goes, Control, IsNameStart, DeclText, IsDecl, MiscText, MiscRoom, IsMisc, NextState;
    var p1 := MarkScanned(room, p, from, [], s);
    StateOn(p1, Le0, []);
    TakenMarkup(p1.ctl, s[1]);
    decl, ms, rest := None, [], s;
    if s[1] == BANG {
      var m, more := BangAt(room, p, from, s);
      ms, rest := OneThenProlog(room, p, from, m, s, more);
    } else if s[1] == ASK {
      decl, ms, rest := AskScanned(room, p, from, s);
    }
    assert [] + MiscsText(ms) == MiscsText(ms);
  }

  /** Behind the first comment, instruction or document type the prolog goes on. */
  lemma OneThenProlog(room: nat, p: Parser, from: State, m: Misc, s: seq<Byte>, more: seq<Byte>)
    returns (ms: seq<Misc>, rest: seq<Byte>)
    requires On(p, from, []) && (from.Init? || from.Misc0?) && Accepts(room, p, s) && room > 0
    requires IsMisc(from, m) && !m.Blank? && s == MiscText(m) + more && MiscRoom(m) < room
    ensures AreMiscs(from, ms) && MiscsRoom(ms) < room && AtRoot(rest) && s == MiscsText(ms) + rest
  {
    hide Accepts, On, Goes, IsNameStart, IsMisc, MiscText, MiscTokens, MiscRoom;
    var p1 := MiscGoes(room, p, from, m);
    assert NextState(from, m) == Misc1;
    AcceptsOn(room, p, MiscText(m), p1, MiscTokens(m), more, Misc1, []);
    hide NextState;
    var u;
    u, rest := PrologScanned(room, p1, more);
    ms := [m] + u;
    MiscsCons(from, m, u);
    assert MiscText(m) + (MiscsText(u) + rest) == MiscText(m) + MiscsText(u) + rest;
  }

  lemma AskScanned(room: nat, p: Parser, from: State, s: seq<Byte>)
    returns (decl: Option<Decl>, ms: seq<Misc>, rest: seq<Byte>)
    requires On(p, from, []) && (from.Init? || from.Misc0?) && Accepts(room, p, s) && room > 0
    requires |s| >= 2 && s[0] == LT && s[1] == ASK
    ensures decl.Some? ==> IsDecl(decl.value) && room > 4
    ensures AreMiscs(if decl.Some? then Misc1 else from, ms) && MiscsRoom(ms) < room && AtRoot(rest)
    ensures s == (if decl.Some? then DeclText(decl.value) else []) + MiscsText(ms) + rest
  {
    hide Accepts, On, Goes, IsName, IsNameStart, IsXmlTag, DeclText, IsDecl, MiscText, MiscRoom, IsMisc, AreMiscs,
         MiscsText;
    var n, u, p1 := FirstNameAt(room, p, from, s);
    if n == XML {
      assert FirstNameState(n, |n|) == XmlDecl2;
      var d, more := DeclScanned(room, p1, n, u);
      decl := Some(d);
      var p2 := DeclGoes(room, p, from, d);
      AcceptsOn(room, p, DeclText(d), p2, [], more, Misc1, []);
      ms, rest := PrologScanned(room, p2, more);
      assert DeclText(d) + (MiscsText(ms) + rest) == DeclText(d) + MiscsText(ms) + rest;
    } else {
      var m, more := FirstPiAt(room, p, from, s, n, u, p1);
      decl := None;
      ms, rest := OneThenProlog(room, p, from, m, s, more);
      assert [] + MiscsText(ms) == MiscsText(ms);
    }
  }

  /** The root and what follows it. */
  lemma RootScanned(room: nat, p: Parser, from: State, s: seq<Byte>) returns (root: Node, last: Byte, ms: seq<Misc>)
    requires On(p, from, []) && Begins(from) && Accepts(room, p, s) && AtRoot(s) && room > 0
    ensures root.Tag? && IsNode(root) && EndsWell([], root, last) && NodeRoom(root) < room
    ensures AreMiscs(Misc3, ms) && MiscsRoom(ms) < room && s == TagText(root, last) + MiscsText(ms)
  {
    hide Accepts, On, Goes, IsNameStart, IsNode, EndsWell, TagText, NodeRoom, NodeTokens, AreMiscs, MiscsText,
         MiscsRoom, Size;
    NoNames();
    var more;
    root, last, more := TagScanned(room, p, from, [], s);
    var p1 := TagGoes(room, p, from, [], root, last);
    AcceptsOn(room, p, TagText(root, last), p1, NodeTokens(root), more, Misc3, []);
    ms := EpilogScanned(room, p1, more);
  }

  /** Every accepted text is a written document. */
  lemma OnlyDocuments(room: nat, s: seq<Byte>) returns (d: XmlDoc)
    requires Accepts(room, START, s)
    ensures IsDoc(d) && YxmlProlog.Fits(d, room) && s == DocText(d)
  {
    hide Accepts, On, Goes, AreBlanks, IsDecl, DeclText, AreMiscs, MiscsText, MiscsRoom, EndState, IsNode, TagText,
         NodeRoom, EndsWell;
    hide IsNameStart;
    SomeRoom(room, s);
    var bom, w, m1, p1 := BeginScanned(room, s);
    var from := if bom || w != [] then Misc0 else Init;
    var decl, prolog, m2 := FrontScanned(room, p1, from, m1);
    var p2, to := FrontGoes(room, p1, from, decl, prolog, m1, m2);
    var root, last, epilog := RootScanned(room, p2, to, m2);
    d := XmlDoc(bom, w, decl, prolog, root, last, epilog);
    var begin := if bom then [0xEF] + [0xBB, 0xBF] else [];
    var front := if decl.Some? then DeclText(decl.value) else [];
    assert begin + w + (front + MiscsText(prolog) + (TagText(root, last) + MiscsText(epilog)))
           == begin + w + front + MiscsText(prolog) + TagText(root, last) + MiscsText(epilog);
  }

  /** The parser before the root. */
  lemma FrontGoes(room: nat, p: Parser, from: State, decl: Option<Decl>, ms: seq<Misc>, s: seq<Byte>, rest: seq<Byte>)
    returns (p': Parser, to: State)
    requires On(p, from, []) && (from.Init? || from.Misc0?) && Accepts(room, p, s)
    requires decl.Some? ==> IsDecl(decl.value) && room > 4
    requires AreMiscs(if decl.Some? then Misc1 else from, ms) && MiscsRoom(ms) < room
    requires s == (if decl.Some? then DeclText(decl.value) else []) + MiscsText(ms) + rest
    ensures On(p', to, []) && Begins(to) && Accepts(room, p', rest)
  {
    hide Accepts, On, Goes, IsDecl, DeclText, AreMiscs, MiscsText, MiscsTokens, MiscsRoom, EndState;
    var p1, first := p, from;
    if decl.Some? {
      p1 := DeclGoes(room, p, from, decl.value);
      first := Misc1;
      assert s == DeclText(decl.value) + (MiscsText(ms) + rest);
      AcceptsOn(room, p, DeclText(decl.value), p1, [], MiscsText(ms) + rest, Misc1, []);
    } else {
      assert s == MiscsText(ms) + rest;
    }
    p' := MiscsGo(room, p1, first, ms);
    to := EndState(first, ms);
    PrologEnds(first, ms);
    AcceptsOn(room, p1, MiscsText(ms), p', MiscsTokens(ms), rest, to, []);
  }

  /// The theorem

  lemma {:induction false} UnifiedHasNoCr(s: seq<Byte>, skip: bool)
    ensures NoCr(Unified(s, skip))
    decreases |s|
  {
    if s != [] {
      UnifiedHasNoCr(s[1..], false);
      UnifiedHasNoCr(s[1..], true);
    }
  }

  /** The text is taken without an error, and its end is accepted. */
  ghost predicate Accepted(room: nat, s: seq<Byte>) {
    var t := Document(room, s); !IsError(t.ret) && Eof(t.p) == Ok
  }

  /** A text is accepted exactly if it is a written document, whatever its line ends, for which the stack has room. */
  lemma AcceptedIff(room: nat, s: seq<Byte>)
    ensures Accepted(room, s) <==> exists d :: IsDoc(d) && YxmlProlog.Fits(d, room) && Unified(s, false) == DocText(d)
  {
    StartAgreesEmpty();
    hide Run, Shape, IsDoc, YxmlProlog.Fits, DocText, Unified, NoCr;
    if Accepted(room, s) {
      LineEnds(room, START, false, s);
      assert Skips(START, false) == START;
      UnifiedHasNoCr(s, false);
      assert Accepts(room, START, Unified(s, false));
      var d := OnlyDocuments(room, Unified(s, false));
    }
    if d :| IsDoc(d) && YxmlProlog.Fits(d, room) && Unified(s, false) == DocText(d) {
      var p := DocumentIsParsed(room, d, s);
    }
  }
}
