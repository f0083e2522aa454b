/** The texts that are read are exactly the written documents. */
module Cj5Language {
  import opened Cj5Spec
  import opened Cj5Build
  import opened Cj5Read
  import opened Cj5Write
  import opened Options

  /// Gaps in the text

  predicate IsBlank(c: char) {
    c == '\n' || c == '\r' || c == '\t' || c == ' '
  }

  /** No gap goes on at `p`: the text ends there, or with a comment, or a comment is refused, or something else comes.
      */
  predicate GapEnds(s: string, p: nat) {
    || p >= |s|
    || (!IsBlank(s[p]) && s[p] != '#' && s[p] != '/')
    || ((s[p] == '#' || s[p] == '/') && (CommentEnd(s, p) == None || IsEnding(s[p..])))
  }

  lemma HoldsJoin(s: string, p: nat, t: string, u: string)
    requires Holds(s, p, t) && Holds(s, p + |t|, u)
    ensures Holds(s, p, t + u)
  {
    assert s[p..p + |t| + |u|] == s[p..p + |t|] + s[p + |t|..p + |t| + |u|];
  }

  lemma {:induction false} LineFound(s: string, p: nat)
    requires p <= |s|
    ensures var q := LineEnd(s, p); '\n' !in s[p..q] && (q < |s| ==> s[q] == '\n')
    decreases |s| - p
  {
    if p < |s| && s[p] != '\n' {
      LineFound(s, p + 1);
      var q := LineEnd(s, p);
      assert s[p..q] == [s[p]] + s[p + 1..q];
    }
  }

  lemma {:induction false} BlockFound(s: string, p: nat)
    requires BlockEnd(s, p).Some?
    ensures var e := BlockEnd(s, p).value - 2;
            && p <= e && e + 2 <= |s| && s[e] == '*' && s[e + 1] == '/' && IsFiller(Block(s[p..e]))
    decreases |s| - p
  {
    if !(s[p] == '*' && s[p + 1] == '/') {
      BlockFound(s, p + 1);
      var e := BlockEnd(s, p).value - 2;
      var t, u := s[p..e], s[p + 1..e];
      assert IsFiller(Block(u));
      forall i, j | 0 <= i && j == i + 1 < |t|
        ensures !(t[i] == '*' && t[j] == '/')
      {
        if i > 0 {
          var h := i - 1;
          assert u[h] == t[i] && u[i] == t[j];
          assert !(u[h] == '*' && u[i] == '/');
        } else {
          assert t[i] == s[p] && t[j] == s[p + 1];
        }
      }
    }
  }

  lemma BlockCommentFound(s: string, p: nat) returns (f: Filler)
    requires p + 1 < |s| && s[p] == '/' && s[p + 1] == '*' && BlockEnd(s, p + 2).Some?
    ensures IsFiller(f) && Holds(s, p, FillerText(f)) && FillerText(f) != ""
  {
    hide BlockEnd;
    BlockFound(s, p + 2);
    var e := BlockEnd(s, p + 2).value - 2;
    var t := s[p + 2..e];
    f := Block(t);
    assert Holds(s, p, "/*") && Holds(s, p + 2, t) && Holds(s, e, "*/");
    hide Holds;
    HoldsJoin(s, p, "/*", t);
    HoldsJoin(s, p, "/*" + t, "*/");
  }

  lemma LineCommentFound(s: string, p: nat, q: nat) returns (f: Filler)
    requires p < q <= |s| && s[p..q] == (if s[p] == '#' then "#" else "//") && !IsEnding(s[p..])
    ensures IsFiller(f) && Holds(s, p, FillerText(f)) && FillerText(f) != ""
  {
    LineFound(s, q);
    var e := LineEnd(s, q);
    var head, t := s[p..q], s[q..e];
    EndingFound(s, p, q, e);
    f := Line(s[p] == '#', t);
    assert Holds(s, p, head) && Holds(s, q, t) && Holds(s, e, "\n");
    hide Holds;
    HoldsJoin(s, p, head, t);
    HoldsJoin(s, p, head + t, "\n");
  }

  lemma EndingFound(s: string, p: nat, q: nat, e: nat)
    requires p < q <= e <= |s| && s[p..q] == (if s[p] == '#' then "#" else "//") && '\n' !in s[q..e]
    ensures e == |s| ==> IsEnding(s[p..])
  {
    assert e == |s| ==> s[p..] == s[p..q] + s[q..e];
  }

  /** The comment at `p`, if the text does not end with it, is a filler. */
  lemma CommentFound(s: string, p: nat) returns (f: Filler)
    requires p < |s| && (s[p] == '#' || s[p] == '/') && CommentEnd(s, p).Some? && !IsEnding(s[p..])
    ensures IsFiller(f) && Holds(s, p, FillerText(f)) && FillerText(f) != ""
  {
    hide IsFiller, FillerText, Holds, IsEnding, BlockEnd, LineEnd;
    if s[p] == '#' {
      assert s[p..p + 1] == "#";
      f := LineCommentFound(s, p, p + 1);
    } else if s[p + 1] == '*' {
      f := BlockCommentFound(s, p);
    } else {
      assert s[p..p + 2] == "//";
      f := LineCommentFound(s, p, p + 2);
    }
  }

  /** The filler with which a gap goes on. */
  lemma FillerFound(s: string, p: nat) returns (f: Filler)
    requires p < |s| && !GapEnds(s, p)
    ensures IsFiller(f) && Holds(s, p, FillerText(f)) && FillerText(f) != ""
  {
    if IsBlank(s[p]) {
      f := Blank(s[p]);
    } else {
      f := CommentFound(s, p);
    }
  }

  /** The whole gap at `p`. */
  lemma {:induction false} GapFound(s: string, p: nat) returns (g: Gap)
    requires p <= |s|
    ensures IsGap(g) && Holds(s, p, GapText(g)) && GapEnds(s, p + |GapText(g)|)
    decreases |s| - p
  {
    hide GapEnds, IsFiller, FillerText, Holds;
    if p == |s| || GapEnds(s, p) {
      g := [];
      NoGap(s, p);
    } else {
      var f := FillerFound(s, p);
      HoldsInside(s, p, FillerText(f));
      var rest := GapFound(s, p + |FillerText(f)|);
      g := [f] + rest;
      assert g[1..] == rest;
      HoldsJoin(s, p, FillerText(f), GapText(rest));
    }
  }

  lemma NoGap(s: string, p: nat)
    requires p <= |s|
    ensures Holds(s, p, GapText([])) && GapText([]) == "" && (p == |s| ==> GapEnds(s, p))
  {
  }

  lemma HoldsInside(s: string, p: nat, t: string)
    requires Holds(s, p, t)
    ensures p + |t| <= |s|
  {
  }

  /// Words in the text

  lemma {:induction false} StringUnshift(s: string, p: nat, a: nat, quote: char)
    requires IsQuote(quote) && a <= p && StringEnd(s, p, quote).Some?
    ensures var e := StringEnd(s, p, quote).value; StringEnd(s[a..e + 1], p - a, quote) == Some(e - a)
    decreases |s| - p
  {
    var e := StringEnd(s, p, quote).value;
    assert s[a..e + 1][p - a] == s[p];
    if s[p] == '\\' {
      StringUnshift(s, p + 2, a, quote);
    } else if s[p] != quote {
      StringUnshift(s, p + 1, a, quote);
    }
  }

  lemma QuotedFound(s: string, p: nat)
    requires p < |s| && IsQuote(s[p]) && QuotedAt(s, p).Some?
    ensures var e := QuotedAt(s, p).value.resume; p < e <= |s| && IsQuotedText(s[p..e])
  {
    hide StringEnd;
    StringUnshift(s, p + 1, p, s[p]);
  }

  lemma NotWord(s: string, p: nat, t: string, word: string)
    requires Holds(s, p, t) && IsLower(word) && !IsWord(s, p, word)
    ensures !IsWord(t, 0, word)
  {
    if IsWord(t, 0, word) { WordShift(s, p, t, word); }
  }

  lemma AtomFound(s: string, p: nat)
    requires p < |s| && PrimitiveAt(s, p).Some?
    ensures var l := PrimitiveAt(s, p).value; p < l.resume <= |s| && IsAtom(l.leaf.kind, s[p..l.resume])
  {
    var l := PrimitiveAt(s, p).value;
    var t, kind := s[p..l.resume], l.leaf.kind;
    if IsQuote(s[p]) {
      QuotedFound(s, p);
    } else {
      hide IsWord;
      if kind == Null {
        WordInside(s, p, t, "null");
      } else if kind == Bool {
        WordInside(s, p, t, "true");
        WordInside(s, p, t, "false");
      } else {
        NotWord(s, p, t, "null");
        NotWord(s, p, t, "true");
        NotWord(s, p, t, "fals");
      }
    }
  }

  lemma KeyFound(s: string, p: nat)
    requires p < |s| && KeyAt(s, p).Some?
    ensures var e := KeyAt(s, p).value.resume; p < e <= |s| && (IsQuotedText(s[p..e]) || IsName(s[p..e]))
  {
    if IsQuote(s[p]) { QuotedFound(s, p); }
  }

  /// What can come next

  /** The text is read to its end, and there is a value. */
  predicate Complete(r: Option<State>) {
    r.Some? && r.value.frames == [] && r.value.root.Some?
  }

  predicate IsPlain(s: string, p: nat) {
    p < |s| && !IsBlank(s[p]) && s[p] != '#' && s[p] != '/'
  }

  /** Behind a gap, as long as something is missing, something else must come. */
  lemma GoesOn(s: string, p: nat, st: State)
    requires p <= |s| && GapEnds(s, p) && Complete(Run(s, p, st)) && (st.frames != [] || st.root.None?)
    ensures IsPlain(s, p)
  {
    if p == |s| {
      RunEnds(s, st);
    } else if s[p] == '#' || s[p] == '/' {
      RunStep(s, p, st);
      if IsEnding(s[p..]) { EndingRuns(s, p, st, s[p..]); }
    }
  }

  /** The step at a plain character. */
  lemma PlainStep(s: string, p: nat, st: State)
    requires IsPlain(s, p) && Complete(Run(s, p, st))
    ensures var c, m := s[p], Step(s, p, st);
            && m.Moved? && Run(s, p, st) == Run(s, m.resume, m.st)
            && m == (if c == '{' || c == '[' || c == '}' || c == ']' then Bracket(p, c, st)
                     else if c == ':' || c == ',' then Separator(p, c, st)
                     else WordAt(s, p, st))
  {
    hide Run, WordAt, Bracket, Separator;
    RunStep(s, p, st);
  }

  /** After a value: a comma or the end of the container. */
  lemma AfterValue(s: string, p: nat, frames: seq<Frame>, kind: Kind, start: nat, kids: seq<Value>)
    requires IsPlain(s, p) && (kind == Object || kind == Array)
    requires Complete(Run(s, p, Inside(frames, kind, start, kids, ',')))
    ensures s[p] == ',' || s[p] == CloseBracket(kind)
  {
    hide Run;
    PlainStep(s, p, Inside(frames, kind, start, kids, ','));
    SnocFrames(frames, Frame(kind, start, kids));
  }

  /** After a key: a colon. */
  lemma AfterKey(s: string, p: nat, frames: seq<Frame>, start: nat, kids: seq<Value>)
    requires IsPlain(s, p) && Complete(Run(s, p, Inside(frames, Object, start, kids, ':')))
    ensures s[p] == ':'
  {
    hide Run;
    PlainStep(s, p, Inside(frames, Object, start, kids, ':'));
    SnocFrames(frames, Frame(Object, start, kids));
  }

  /** Where a value is expected: a word, an opening bracket or the end of an array. */
  lemma ValueNext(s: string, p: nat, st: State)
    requires IsPlain(s, p) && st.next == 'v' && Complete(Run(s, p, st))
    ensures var c := s[p];
            if c == '{' || c == '[' then |st.frames| + 1 < MAX_NESTING
            else if c == ']' then st.frames != [] && Top(st.frames).kind == Array
            else PrimitiveAt(s, p).Some? &&
                 Run(s, p, st) == Run(s, PrimitiveAt(s, p).value.resume, With(st, PrimitiveAt(s, p).value.leaf))
  {
    hide Run, PrimitiveAt, With;
    PlainStep(s, p, st);
  }

  /** Where a key is expected: a key or the end of the object. */
  lemma KeyNext(s: string, p: nat, frames: seq<Frame>, start: nat, kids: seq<Value>)
    requires IsPlain(s, p) && Complete(Run(s, p, Inside(frames, Object, start, kids, 'k')))
    ensures s[p] == '}' ||
            (KeyAt(s, p).Some? &&
             var l := KeyAt(s, p).value;
             Run(s, p, Inside(frames, Object, start, kids, 'k'))
               == Run(s, l.resume, Inside(frames, Object, start, kids + [l.leaf], ':')))
  {
    hide Run, KeyAt, Grow;
    PlainStep(s, p, Inside(frames, Object, start, kids, 'k'));
    SnocFrames(frames, Frame(Object, start, kids));
    if KeyAt(s, p).Some? { InsideWith(frames, Object, start, kids, 'k', KeyAt(s, p).value.leaf); }
  }

  /// Documents in the text

  /** A gap inside an open container, and the plain character behind it. */
  lemma GapInside(s: string, p: nat, st: State) returns (g: Gap)
    requires p <= |s| && Complete(Run(s, p, st)) && (st.frames != [] || st.root.None?)
    ensures IsGap(g) && Holds(s, p, GapText(g)) && IsPlain(s, p + |GapText(g)|)
    ensures Run(s, p, st) == Run(s, p + |GapText(g)|, st)
  {
    hide Run, GapEnds, GapText, IsGap;
    g := GapFound(s, p);
    GapRuns(s, p, st, g);
    GoesOn(s, p + |GapText(g)|, st);
  }

  /** A key and its colon. */
  lemma KeyHead(s: string, p: nat, frames: seq<Frame>, start: nat, kids: seq<Value>)
    returns (t: string, behind: Gap, kids': seq<Value>)
    requires IsPlain(s, p) && s[p] != '}' && Complete(Run(s, p, Inside(frames, Object, start, kids, 'k')))
    ensures t != "" && (IsQuotedText(t) || IsName(t)) && IsGap(behind) && Holds(s, p, t)
            && Holds(s, p + |t|, GapText(behind))
    ensures var r := p + |t| + |GapText(behind)|;
            && r < |s| && Holds(s, r, ":")
            && Run(s, p, Inside(frames, Object, start, kids, 'k'))
               == Run(s, r + 1, Inside(frames, Object, start, kids', 'v'))
  {
    hide Run, KeyAt, IsPlain, GapText, IsGap, Complete, IsQuotedText, IsName, Inside, Holds;
    KeyNext(s, p, frames, start, kids);
    KeyFound(s, p);
    var l := KeyAt(s, p).value;
    t := s[p..l.resume];
    HoldsSlice(s, p, l.resume);
    kids' := kids + [l.leaf];
    InsideOpen(frames, Object, start, kids', ':');
    behind := GapInside(s, l.resume, Inside(frames, Object, start, kids', ':'));
    var r := l.resume + |GapText(behind)|;
    AfterKey(s, r, frames, start, kids');
    PlainInside(s, r);
    HoldsChar(s, r);
    ColonStep(s, r, frames, start, kids');
  }

  /** A key with its colon, up to the value. */
  lemma KeyPart(s: string, p: nat, frames: seq<Frame>, start: nat, kids: seq<Value>) returns (k: Key, kids': seq<Value>)
    requires IsPlain(s, p) && s[p] != '}' && Complete(Run(s, p, Inside(frames, Object, start, kids, 'k')))
    ensures Holds(s, p, KeyText(Some(k))) && (IsQuotedText(k.text) || IsName(k.text)) && IsGap(k.behind)
            && IsGap(k.ahead)
    ensures var e := p + |KeyText(Some(k))|;
            && p < e && IsPlain(s, e)
            && Run(s, p, Inside(frames, Object, start, kids, 'k'))
               == Run(s, e, Inside(frames, Object, start, kids', 'v'))
  {
    hide Run, IsPlain, GapText, IsGap, Complete, IsQuotedText, IsName, Inside, Holds, KeyText;
    var t, behind;
    t, behind, kids' := KeyHead(s, p, frames, start, kids);
    InsideOpen(frames, Object, start, kids', 'v');
    var ahead := GapInside(s, p + |t| + |GapText(behind)| + 1, Inside(frames, Object, start, kids', 'v'));
    k := Key(t, behind, ahead);
    KeyJoin(s, p, k);
  }

  lemma KeyJoin(s: string, p: nat, k: Key)
    requires Holds(s, p, k.text) && Holds(s, p + |k.text|, GapText(k.behind))
    requires var r := p + |k.text| + |GapText(k.behind)|; Holds(s, r, ":") && Holds(s, r + 1, GapText(k.ahead))
    ensures Holds(s, p, KeyText(Some(k)))
    ensures |KeyText(Some(k))| == |k.text| + |GapText(k.behind)| + 1 + |GapText(k.ahead)|
  {
    hide Holds, GapText;
    var q := p + |k.text|;
    HoldsJoin(s, q + |GapText(k.behind)|, ":", GapText(k.ahead));
    HoldsJoin(s, q, GapText(k.behind), ":" + GapText(k.ahead));
    HoldsJoin(s, p, k.text, GapText(k.behind) + (":" + GapText(k.ahead)));
  }

  lemma HoldsSlice(s: string, p: nat, e: nat)
    requires p <= e <= |s|
    ensures Holds(s, p, s[p..e])
  {
  }

  lemma HoldsChar(s: string, p: nat)
    requires p < |s|
    ensures Holds(s, p, [s[p]])
  {
  }

  lemma PlainInside(s: string, p: nat)
    requires IsPlain(s, p)
    ensures p < |s|
  {
  }

  /** The value at a plain character, wherever one is expected. */
  lemma {:induction false} ValueFound(s: string, p: nat, st: State) returns (j: Json, v: Value)
    requires IsPlain(s, p) && s[p] != ']' && st.next == 'v' && |st.frames| < MAX_NESTING && Complete(Run(s, p, st))
    ensures Holds(s, p, Text(j)) && Text(j) != "" && Writable(j) && |st.frames| + Depth(j) < MAX_NESTING
    ensures Run(s, p, st) == Run(s, p + |Text(j)|, With(st, v))
    decreases |s| - p, 0
  {
    hide Run, PrimitiveAt, IsAtom, GapText, IsGap, MembersText, AllWritable, DepthAll, Complete;
    ValueNext(s, p, st);
    if s[p] == '{' || s[p] == '[' {
      var kind := KindOf(s[p]);
      OpenStep(s, p, st, kind);
      var ms, trailing, tail, w := MembersFound(s, p + 1, st.frames, kind, p, []);
      j, v := Node(kind, ms, trailing, tail), w;
      assert Holds(s, p, [OpenBracket(kind)]);
      HoldsJoin(s, p, [OpenBracket(kind)], MembersText(ms, trailing) + (GapText(tail) + [CloseBracket(kind)]));
      assert With(st, v) == With(State(st.frames, NUL, None), v);
    } else {
      AtomFound(s, p);
      var l := PrimitiveAt(s, p).value;
      j, v := Atom(l.leaf.kind, s[p..l.resume]), l.leaf;
    }
  }

  lemma {:induction false} MembersFound(s: string, p: nat, frames: seq<Frame>, kind: Kind, start: nat, kids: seq<Value>)
    returns (ms: seq<Member>, trailing: bool, tail: Gap, v: Value)
    requires p <= |s| && (kind == Object || kind == Array) && |frames| + 1 < MAX_NESTING
    requires Complete(Run(s, p, Inside(frames, kind, start, kids, First(kind))))
    ensures Holds(s, p, MembersText(ms, trailing) + (GapText(tail) + [CloseBracket(kind)]))
    ensures AllWritable(kind, ms) && IsGap(tail) && (trailing ==> ms != []) && |frames| + 1 + DepthAll(ms) < MAX_NESTING
    ensures Run(s, p, Inside(frames, kind, start, kids, First(kind))) ==
            Run(s, p + |MembersText(ms, trailing) + (GapText(tail) + [CloseBracket(kind)])|,
                With(State(frames, NUL, None), v))
    decreases |s| - p, 2
  {
    hide Run, GapText, IsGap, With, Complete, IsPlain, MemberText, MemberWritable, Depth, Inside;
    InsideOpen(frames, kind, start, kids, First(kind));
    var g := GapInside(s, p, Inside(frames, kind, start, kids, First(kind)));
    var q := p + |GapText(g)|;
    PlainInside(s, q);
    if s[q] == CloseBracket(kind) {
      v := Tree(kind, start, q, kids);
      CloseStep(s, q, frames, kind, start, kids, First(kind), State(frames, NUL, None));
      ms, trailing, tail := [], false, g;
      NoneFound(s, p, g, kind);
    } else {
      var m, kids' := MemberFound(s, p, frames, kind, start, kids, g);
      var r := p + |MemberText(m)|;
      PlainInside(s, r);
      AfterValue(s, r, frames, kind, start, kids');
      if s[r] == ',' {
        assert Holds(s, r, ",");
        CommaStep(s, r, frames, kind, start, kids');
        var ms', t', tail', w := MembersFound(s, r + 1, frames, kind, start, kids');
        ms, trailing, tail, v := [m] + ms', t' || ms' == [], tail', w;
        MembersJoin(s, p, m, ms', t', tail', kind);
      } else {
        v := Tree(kind, start, r, kids');
        CloseStep(s, r, frames, kind, start, kids', ',', State(frames, NUL, None));
        ms, trailing, tail := [m], false, [];
        LastJoin(s, p, m, kind);
      }
    }
  }

  lemma InsideOpen(frames: seq<Frame>, kind: Kind, start: nat, kids: seq<Value>, next: char)
    ensures Inside(frames, kind, start, kids, next).frames != []
  {
  }

  lemma NoneFound(s: string, p: nat, g: Gap, kind: Kind)
    requires Holds(s, p, GapText(g))
    requires var q := p + |GapText(g)|; q < |s| && s[q] == CloseBracket(kind)
    ensures Holds(s, p, MembersText([], false) + (GapText(g) + [CloseBracket(kind)])) && DepthAll([]) == 0
    ensures |MembersText([], false) + (GapText(g) + [CloseBracket(kind)])| == |GapText(g)| + 1
  {
    hide GapText;
    HoldsJoin(s, p, GapText(g), [CloseBracket(kind)]);
    assert "" + (GapText(g) + [CloseBracket(kind)]) == GapText(g) + [CloseBracket(kind)];
  }

  lemma LastJoin(s: string, p: nat, m: Member, kind: Kind)
    requires Holds(s, p, MemberText(m)) && MemberWritable(kind, m)
    requires var r := p + |MemberText(m)|; r < |s| && s[r] == CloseBracket(kind)
    ensures var all := MembersText([m], false) + (GapText([]) + [CloseBracket(kind)]);
            Holds(s, p, all) && |all| == |MemberText(m)| + 1
    ensures AllWritable(kind, [m]) && DepthAll([m]) == Depth(m.value) && IsGap([])
  {
    hide MemberText, MemberWritable, Depth, MemberValues;
    LastMember([m], 0);
    HoldsJoin(s, p, MemberText(m), [CloseBracket(kind)]);
    assert GapText([]) + [CloseBracket(kind)] == [CloseBracket(kind)];
    assert [m][1..] == [];
  }

  lemma MembersJoin(s: string, p: nat, m: Member, ms: seq<Member>, trailing: bool, tail: Gap, kind: Kind)
    requires Holds(s, p, MemberText(m)) && Holds(s, p + |MemberText(m)|, ",") && (trailing ==> ms != [])
    requires Holds(s, p + |MemberText(m)| + 1, MembersText(ms, trailing) + (GapText(tail) + [CloseBracket(kind)]))
    requires MemberWritable(kind, m) && AllWritable(kind, ms)
    ensures var now := trailing || ms == [];
            var old_, all := MembersText(ms, trailing) + (GapText(tail) + [CloseBracket(kind)]),
                             MembersText([m] + ms, now) + (GapText(tail) + [CloseBracket(kind)]);
            Holds(s, p, all) && |all| == |MemberText(m)| + 1 + |old_|
    ensures AllWritable(kind, [m] + ms)
    ensures DepthAll([m] + ms) == Depth(m.value) || DepthAll([m] + ms) == DepthAll(ms)
  {
    hide MemberText, MemberWritable, Depth, MemberValues, GapText, Holds;
    var now := trailing || ms == [];
    var rest := GapText(tail) + [CloseBracket(kind)];
    assert ([m] + ms)[1..] == ms;
    MembersParts([m] + ms, now, 0);
    SameMembers(ms, trailing);
    var t := MemberText(m);
    HoldsJoin(s, p + |t|, ",", MembersText(ms, trailing) + rest);
    HoldsJoin(s, p, t, "," + (MembersText(ms, trailing) + rest));
    Associate(t, ",", MembersText(ms, trailing), rest);
  }

  lemma Associate(t: string, u: string, v: string, w: string)
    ensures t + (u + v) + w == t + (u + (v + w))
  {
  }

  lemma SameMembers(ms: seq<Member>, trailing: bool)
    ensures MembersText(ms, trailing || ms == []) == MembersText(ms, trailing)
  {
  }

  lemma {:induction false} MemberFound(s: string, p: nat, frames: seq<Frame>, kind: Kind, start: nat, kids: seq<Value>,
                                       g: Gap)
    returns (m: Member, kids': seq<Value>)
    requires IsGap(g) && Holds(s, p, GapText(g)) && (kind == Object || kind == Array) && |frames| + 1 < MAX_NESTING
    requires var q := p + |GapText(g)|;
             IsPlain(s, q) && s[q] != CloseBracket(kind)
               && Complete(Run(s, q, Inside(frames, kind, start, kids, First(kind))))
    ensures Holds(s, p, MemberText(m)) && MemberText(m) != "" && MemberWritable(kind, m)
    ensures |frames| + 1 + Depth(m.value) < MAX_NESTING && IsPlain(s, p + |MemberText(m)|)
    ensures Run(s, p + |GapText(g)|, Inside(frames, kind, start, kids, First(kind))) ==
            Run(s, p + |MemberText(m)|, Inside(frames, kind, start, kids', ','))
    decreases |s| - p, 1
  {
    hide Run, GapText, IsGap, With, Complete, Depth, Writable, Text, IsPlain, Inside, KeyText, IsQuotedText, IsName,
         Holds;
    var q := p + |GapText(g)|;
    var key: Option<Key>, e := None, q;
    kids' := kids;
    NoKey(s, q);
    if kind == Object {
      var k;
      k, kids' := KeyPart(s, q, frames, start, kids);
      key := Some(k);
      e := q + |KeyText(key)|;
    }
    var st := Inside(frames, kind, start, kids', 'v');
    NotAtEnd(s, e, frames, kind, start, kids');
    var j, v := ValueFound(s, e, st);
    InsideWith(frames, kind, start, kids', 'v', v);
    kids' := kids' + [v];
    InsideOpen(frames, kind, start, kids', ',');
    HoldsInside(s, e, Text(j));
    var after := GapInside(s, e + |Text(j)|, Inside(frames, kind, start, kids', ','));
    m := Member(g, key, j, after);
    MemberJoin(s, p, m);
  }

  lemma NoKey(s: string, q: nat)
    requires IsPlain(s, q)
    ensures Holds(s, q, KeyText(None)) && KeyText(None) == "" && q < |s|
  {
  }

  /** At the value of a member no array ends. */
  lemma NotAtEnd(s: string, e: nat, frames: seq<Frame>, kind: Kind, start: nat, kids: seq<Value>)
    requires IsPlain(s, e) && Complete(Run(s, e, Inside(frames, kind, start, kids, 'v')))
    requires kind == Object || s[e] != ']'
    ensures e < |s| && s[e] != ']'
    ensures Inside(frames, kind, start, kids, 'v').next == 'v'
            && |Inside(frames, kind, start, kids, 'v').frames| == |frames| + 1
  {
    hide Run, PrimitiveAt, With;
    ValueNext(s, e, Inside(frames, kind, start, kids, 'v'));
  }

  lemma MemberJoin(s: string, p: nat, m: Member)
    requires Holds(s, p, GapText(m.before)) && Holds(s, p + |GapText(m.before)|, KeyText(m.key))
    requires Holds(s, p + |GapText(m.before)| + |KeyText(m.key)|, Text(m.value))
    requires Holds(s, p + |GapText(m.before)| + |KeyText(m.key)| + |Text(m.value)|, GapText(m.after))
    ensures Holds(s, p, MemberText(m))
    ensures |MemberText(m)| == |GapText(m.before)| + |KeyText(m.key)| + |Text(m.value)| + |GapText(m.after)|
  {
    hide Holds, GapText, KeyText, Text;
    var q := p + |GapText(m.before)|;
    HoldsJoin(s, q + |KeyText(m.key)|, Text(m.value), GapText(m.after));
    HoldsJoin(s, q, KeyText(m.key), Text(m.value) + GapText(m.after));
    HoldsJoin(s, p, GapText(m.before), KeyText(m.key) + (Text(m.value) + GapText(m.after)));
  }

  /** Behind the value only a gap and a comment at the end can come. */
  lemma NothingBehind(s: string, p: nat, v: Value)
    requires p <= |s| && GapEnds(s, p) && Run(s, p, State([], NUL, Some(v))).Some?
    ensures IsEnding(s[p..])
  {
    var st := State([], NUL, Some(v));
    if p < |s| {
      hide IsEnding;
      RunStep(s, p, st);
    }
  }

  /** Every text that is read is a written document, and what is read is its value. */
  lemma OnlyDocuments(s: string) returns (before: Gap, j: Json, after: Gap, ending: string)
    requires Read(s).Some?
    ensures IsDocument(before, j, after, ending) && s == Document(before, j, after, ending)
    ensures Read(s) == Some(ValueAt(j, |GapText(before)|))
  {
    hide Run, GapText, IsGap, Text, Writable, IsEnding, Holds, GapEnds, Depth, ValueAt;
    before := GapInside(s, 0, INITIAL);
    var q := |GapText(before)|;
    ValueNext(s, q, INITIAL);
    var v;
    j, v := ValueFound(s, q, INITIAL);
    var e := q + |Text(j)|;
    HoldsInside(s, q, Text(j));
    after := GapFound(s, e);
    GapRuns(s, e, With(INITIAL, v), after);
    var r := e + |GapText(after)|;
    HoldsInside(s, e, GapText(after));
    NothingBehind(s, r, v);
    ending := s[r..];
    Whole(s, before, j, after);
    WrittenIsRead(before, j, after, ending);
  }

  lemma Slices(s: string, q: nat, e: nat, r: nat)
    requires q <= e <= r <= |s|
    ensures s == s[..q] + (s[q..e] + (s[e..r] + s[r..]))
  {
  }

  lemma Whole(s: string, before: Gap, j: Json, after: Gap)
    requires Holds(s, 0, GapText(before)) && Holds(s, |GapText(before)|, Text(j))
    requires Holds(s, |GapText(before)| + |Text(j)|, GapText(after))
    ensures var r := |GapText(before)| + |Text(j)| + |GapText(after)|;
            r <= |s| && s == Document(before, j, after, s[r..])
  {
    hide GapText, Text;
    var q, e := |GapText(before)|, |GapText(before)| + |Text(j)|;
    var r := e + |GapText(after)|;
    assert s[..q] == GapText(before) && s[q..e] == Text(j) && s[e..r] == GapText(after);
    Slices(s, q, e, r);
  }

  /** The texts that are read are exactly the documents. */
  lemma ReadIffDocument(s: string)
    ensures Read(s).Some? <==>
            exists before, j, after, ending :: IsDocument(before, j, after, ending)
              && s == Document(before, j, after, ending)
  {
    hide Read, IsDocument, Document;
    if Read(s).Some? {
      var before, j, after, ending := OnlyDocuments(s);
    }
    forall before, j, after, ending | IsDocument(before, j, after, ending) && s == Document(before, j, after, ending)
      ensures Read(s).Some?
    {
      WrittenIsRead(before, j, after, ending);
    }
  }
}
