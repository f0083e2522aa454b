/** Which of the errors is reported. */
module YxmlErrors {
  import opened Bytes
  import Yxml
  import opened YxmlMarkup
  import opened YxmlSpec

  predicate InClose(c: Ctl, ch: Byte) {
    (c.state.Etag0? && IsNameStart(ch)) || (c.state.Etag1? && IsName(ch))
  }

  predicate AtCloseEnd(c: Ctl, ch: Byte) {
    c.state.Etag1? && !IsName(ch) && (IsSpace(ch) || ch == GT)
  }

  lemma CloseActions(c: Ctl, ch: Byte)
    requires c.state.Etag0? || c.state.Etag1?
    ensures var a := Control(c, ch).action;
            (a.CloseName? <==> InClose(c, ch)) && (a.CloseEnd? <==> AtCloseEnd(c, ch))
  {
    hide IsNameStart, IsName, IsSpace;
  }

  lemma RefActions(c: Ctl, ch: Byte)
    requires Yxml.InRef(c.state)
    ensures var a := Control(c, ch).action;
            && (a.RefName? <==> IsRef(ch))
            && (a.RefContent? || a.RefAttrValue? <==> !IsRef(ch) && ch == SEMICOLON)
  {
    hide IsRef;
  }

  /** Where the table compares the name of a close tag, and where it reads a reference. */
  lemma ActionsAre(c: Ctl, ch: Byte)
    requires Returns(c)
    ensures var a := Control(c, ch).action;
            && (a.CloseName? <==> InClose(c, ch)) && (a.CloseEnd? <==> AtCloseEnd(c, ch))
            && (a.RefName? <==> Yxml.InRef(c.state) && IsRef(ch))
            && (a.RefContent? || a.RefAttrValue? <==> Yxml.InRef(c.state) && !IsRef(ch) && ch == SEMICOLON)
  {
    hide Control, Returns, IsNameStart, IsName, IsSpace, IsRef;
    ControlSuits(c, ch);
    Yxml.RefMoves(c, ch);
    if c.state.Etag0? || c.state.Etag1? { CloseActions(c, ch); }
    if Yxml.InRef(c.state) { RefActions(c, ch); }
  }

  /** A close tag is in error exactly if its name departs from that of the open element, or ends before it. */
  lemma CloseErrorIff(room: nat, p: Parser, ch: Byte)
    requires Shape(p)
    ensures Octet(room, p, ch).ret == CloseError <==>
              && p.stack != []
              && ((InClose(p.ctl, ch) && !(p.closing + [ch] <= Top(p.stack)))
                  || (AtCloseEnd(p.ctl, ch) && p.closing != Top(p.stack)))
  {
    hide Control, Returns, InClose, AtCloseEnd, Yxml.InRef;
    ActionsAre(p.ctl, ch);
    TopIsThere(p, ch);
    ClosingIsPrefix(p);
    hide Shape;
    if p.stack != [] {
      PrefixStep(p.closing, Top(p.stack), ch);
    }
  }

  lemma ClosingIsPrefix(p: Parser)
    requires Shape(p)
    ensures p.stack != [] ==> p.closing <= Top(p.stack)
  {
  }

  lemma PrefixStep(a: seq<Byte>, b: seq<Byte>, x: Byte)
    requires a <= b
    ensures a + [x] <= b <==> |a| < |b| && b[|a|] == x
    ensures |a| < |b| <==> a != b
  {
  }

  /** A reference is in error exactly at its eighth character, or at its end if it denotes no allowed character. */
  lemma RefErrorIff(room: nat, p: Parser, ch: Byte)
    requires Shape(p)
    ensures Octet(room, p, ch).ret == RefError <==>
              && Yxml.InRef(p.ctl.state)
              && if IsRef(ch) then |p.reference| >= 7 else ch == SEMICOLON && !RefAllowed(RefValue(p.reference))
  {
    hide Control, Returns, InClose, AtCloseEnd, Yxml.InRef, RefAllowed, RefValue, IsRef;
    ActionsAre(p.ctl, ch);
    TopIsThere(p, ch);
    hide Shape;
  }

  /** A name is in error exactly if the stack has no room for its octet and the zero behind it, and where it begins
      also for the zero before it. */
  lemma StackErrorIff(room: nat, p: Parser, ch: Byte)
    requires Shape(p)
    ensures var a := Control(p.ctl, ch).action;
            Octet(room, p, ch).ret == StackError <==>
              || ((a.ElemStart? || a.AttrStart? || a.PiStart?) && room <= Size(p.stack) + 2)
              || ((a.ElemName? || a.AttrName? || a.PiName?) && room <= Size(p.stack) + 1)
  {
    hide Control, Returns, Size;
    TopIsThere(p, ch);
    hide Shape;
  }
}
