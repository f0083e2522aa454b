/** Documents as they are written, with blanks, comments and trailing commas, and the value that reading them gives. */
module Cj5Write {
  import opened Cj5Spec
  import opened Cj5Build
  import opened Cj5Read
  import opened Options

  /// Gaps

  datatype Filler = Blank(c: char) | Line(hash: bool, text: string) | Block(text: string)

  type Gap = seq<Filler>

  predicate IsFiller(f: Filler) {
    match f
    case Blank(c) => c == '\n' || c == '\r' || c == '\t' || c == ' '
    case Line(_, t) => '\n' !in t
    case Block(t) => forall i, j :: 0 <= i && j == i + 1 < |t| ==> !(t[i] == '*' && t[j] == '/')
  }

  function FillerText(f: Filler): string {
    match f
    case Blank(c) => [c]
    case Line(hash, t) => (if hash then "#" else "//") + t + "\n"
    case Block(t) => "/*" + t + "*/"
  }

  predicate IsGap(g: Gap) {
    forall i :: 0 <= i < |g| ==> IsFiller(g[i])
  }

  function GapText(g: Gap): string {
    if g == [] then "" else FillerText(g[0]) + GapText(g[1..])
  }

  /// Text in its place

  /** The text `t` stands at `p`. */
  predicate Holds(s: string, p: nat, t: string) {
    p + |t| <= |s| && s[p..p + |t|] == t
  }

  lemma HoldsParts(s: string, p: nat, t: string, u: string)
    requires Holds(s, p, t + u)
    ensures Holds(s, p, t) && Holds(s, p + |t|, u)
  {
    assert s[p..p + |t|] == (t + u)[..|t|];
    assert s[p + |t|..p + |t| + |u|] == (t + u)[|t|..];
  }

  lemma HoldsAt(s: string, p: nat, t: string, i: nat)
    requires Holds(s, p, t) && i < |t|
    ensures s[p + i] == t[i]
  {
    assert s[p..p + |t|][i] == t[i];
  }

  /** The text ends at `p`, or no word goes on there. */
  predicate Stops(s: string, p: nat) {
    p >= |s| || (!IsNumberChar(s[p]) && !IsNameChar(s[p]))
  }

  lemma {:induction false} LineEndIs(s: string, p: nat, n: nat)
    requires p + n < |s| && s[p + n] == '\n' && forall i :: p <= i < p + n ==> s[i] != '\n'
    ensures LineEnd(s, p) == p + n
    decreases n
  {
    if n > 0 { LineEndIs(s, p + 1, n - 1); }
  }

  lemma {:induction false} BlockEndIs(s: string, p: nat, n: nat)
    requires p + n + 1 < |s| && s[p + n] == '*' && s[p + n + 1] == '/'
    requires forall i, j :: p <= i < p + n && j == i + 1 ==> !(s[i] == '*' && s[j] == '/')
    ensures BlockEnd(s, p) == Some(p + n + 2)
    decreases n
  {
    if n > 0 { BlockEndIs(s, p + 1, n - 1); }
  }

  lemma LineInside(s: string, q: nat, t: string)
    requires '\n' !in t && Holds(s, q, t) && Holds(s, q + |t|, "\n")
    ensures LineEnd(s, q) == q + |t| && s[q + |t|] == '\n'
  {
    hide LineEnd;
    HoldsAt(s, q + |t|, "\n", 0);
    forall i | q <= i < q + |t|
      ensures s[i] != '\n'
    {
      HoldsAt(s, q, t, i - q);
    }
    LineEndIs(s, q, |t|);
  }

  lemma LineRuns(s: string, p: nat, st: State, hash: bool, t: string)
    requires '\n' !in t && Holds(s, p, FillerText(Line(hash, t)))
    ensures Run(s, p, st) == Run(s, p + |FillerText(Line(hash, t))|, st)
  {
    hide Run, LineEnd;
    var head := if hash then "#" else "//";
    HoldsParts(s, p, head + t, "\n");
    HoldsParts(s, p, head, t);
    HoldsAt(s, p, head, 0);
    if !hash { HoldsAt(s, p, head, 1); }
    LineInside(s, p + |head|, t);
    hide Holds;
    var e := p + |head| + |t|;
    assert Step(s, p, st) == Moved(e, st);
    RunStep(s, p, st);
    assert Step(s, e, st) == Moved(e + 1, st);
    RunStep(s, e, st);
  }

  lemma BlockInside(s: string, q: nat, t: string)
    requires IsFiller(Block(t)) && Holds(s, q, t) && Holds(s, q + |t|, "*/")
    ensures BlockEnd(s, q) == Some(q + |t| + 2)
  {
    hide BlockEnd;
    var e := q + |t|;
    HoldsAt(s, e, "*/", 0);
    HoldsAt(s, e, "*/", 1);
    forall i, j | q <= i < e && j == i + 1
      ensures !(s[i] == '*' && s[j] == '/')
    {
      HoldsAt(s, q, t, i - q);
      if j < e { HoldsAt(s, q, t, j - q); }
    }
    BlockEndIs(s, q, |t|);
  }

  lemma BlockRuns(s: string, p: nat, st: State, t: string)
    requires IsFiller(Block(t)) && Holds(s, p, FillerText(Block(t)))
    ensures Run(s, p, st) == Run(s, p + |FillerText(Block(t))|, st)
  {
    hide Run, BlockEnd, IsFiller;
    HoldsParts(s, p, "/*" + t, "*/");
    HoldsParts(s, p, "/*", t);
    HoldsAt(s, p, "/*", 0);
    HoldsAt(s, p, "/*", 1);
    BlockInside(s, p + 2, t);
    hide Holds;
    assert Step(s, p, st) == Moved(p + 2 + |t| + 2, st);
    RunStep(s, p, st);
  }

  lemma BlankRuns(s: string, p: nat, st: State, c: char)
    requires IsFiller(Blank(c)) && Holds(s, p, [c])
    ensures Run(s, p, st) == Run(s, p + 1, st)
  {
    HoldsAt(s, p, [c], 0);
  }

  lemma FillerRuns(s: string, p: nat, st: State, f: Filler)
    requires IsFiller(f) && Holds(s, p, FillerText(f))
    ensures Run(s, p, st) == Run(s, p + |FillerText(f)|, st)
  {
    hide Run, Holds;
    match f {
      case Blank(c) => BlankRuns(s, p, st, c);
      case Line(hash, t) => LineRuns(s, p, st, hash, t);
      case Block(t) => BlockRuns(s, p, st, t);
    }
  }

  /** Blanks and comments change nothing. */
  lemma {:induction false} GapRuns(s: string, p: nat, st: State, g: Gap)
    requires IsGap(g) && Holds(s, p, GapText(g))
    ensures Run(s, p, st) == Run(s, p + |GapText(g)|, st)
    decreases |g|
  {
    hide Run, FillerText, IsFiller, Holds;
    if g != [] {
      var f := g[0];
      HoldsParts(s, p, FillerText(f), GapText(g[1..]));
      FillerRuns(s, p, st, f);
      GapRuns(s, p + |FillerText(f)|, st, g[1..]);
    }
  }

  lemma FillerStops(f: Filler)
    requires IsFiller(f)
    ensures FillerText(f) != [] && !IsNumberChar(FillerText(f)[0]) && !IsNameChar(FillerText(f)[0])
  {
  }

  /** A word stops before a gap as before what follows the gap. */
  lemma StopsBeforeGap(s: string, p: nat, g: Gap)
    requires IsGap(g) && Holds(s, p, GapText(g)) && Stops(s, p + |GapText(g)|)
    ensures Stops(s, p)
  {
    hide IsFiller, FillerText, IsNumberChar, IsNameChar;
    if g != [] {
      var f := g[0];
      FillerStops(f);
      HoldsParts(s, p, FillerText(f), GapText(g[1..]));
      HoldsAt(s, p, FillerText(f), 0);
    }
  }

  /// Documents

  datatype Key = Key(text: string, behind: Gap, ahead: Gap)

  /** An element of a container; in objects it has a key. */
  datatype Member = Member(before: Gap, key: Option<Key>, value: Json, after: Gap)

  datatype Json =
    | Atom(kind: Kind, text: string)
    | Node(kind: Kind, members: seq<Member>, trailing: bool, tail: Gap)

  function Text(j: Json): (t: string)
    decreases j, 2
  {
    match j
    case Atom(_, text) => text
    case Node(kind, members, trailing, tail) =>
      [OpenBracket(kind)] + (MembersText(members, trailing) + (GapText(tail) + [CloseBracket(kind)]))
  }

  function MembersText(ms: seq<Member>, trailing: bool): string
    decreases ms, 1
  {
    if ms == [] then "" else MemberText(ms[0]) + (Comma(ms, trailing) + MembersText(ms[1..], trailing))
  }

  function Comma(ms: seq<Member>, trailing: bool): string {
    if |ms| > 1 || trailing then "," else ""
  }

  function MemberText(m: Member): string
    decreases m, 0
  {
    GapText(m.before) + (KeyText(m.key) + (Text(m.value) + GapText(m.after)))
  }

  function KeyText(key: Option<Key>): string {
    match key
    case None => ""
    case Some(k) => k.text + (GapText(k.behind) + (":" + GapText(k.ahead)))
  }

  predicate IsQuotedText(t: string) {
    |t| >= 2 && IsQuote(t[0]) && StringEnd(t, 1, t[0]) == Some(|t| - 1)
  }

  predicate IsName(t: string) {
    t != [] && IsKeyStart(t[0]) && forall i :: 0 <= i < |t| ==> IsNameChar(t[i])
  }

  predicate IsAtom(kind: Kind, t: string) {
    match kind
    case String => IsQuotedText(t)
    case Null => |t| == 4 && IsWord(t, 0, "null")
    case Bool => (|t| == 4 && IsWord(t, 0, "true")) || (|t| == 5 && IsWord(t, 0, "false"))
    case Number =>
      && t != [] && (forall i :: 0 <= i < |t| ==> IsNumberChar(t[i]))
      && !IsWord(t, 0, "null") && !IsWord(t, 0, "true") && !IsWord(t, 0, "fals")
    case _ => false
  }

  /** The words and gaps are well formed, and exactly the members of objects have keys. */
  predicate Writable(j: Json)
    decreases j, 2
  {
    match j
    case Atom(kind, text) => IsAtom(kind, text)
    case Node(kind, members, trailing, tail) =>
      (kind == Object || kind == Array) && AllWritable(kind, members) && IsGap(tail) && (trailing ==> members != [])
  }

  predicate AllWritable(kind: Kind, ms: seq<Member>)
    decreases ms, 1
  {
    ms == [] || (MemberWritable(kind, ms[0]) && AllWritable(kind, ms[1..]))
  }

  predicate MemberWritable(kind: Kind, m: Member)
    decreases m, 0
  {
    && IsGap(m.before) && IsGap(m.after) && Writable(m.value) && (m.key.Some? <==> kind == Object)
    && (m.key.Some? ==>
          var k := m.key.value; (IsQuotedText(k.text) || IsName(k.text)) && IsGap(k.behind) && IsGap(k.ahead))
  }

  function Depth(j: Json): nat
    decreases j, 2
  {
    match j
    case Atom(_, _) => 0
    case Node(_, members, _, _) => 1 + DepthAll(members)
  }

  function DepthAll(ms: seq<Member>): nat
    decreases ms, 1
  {
    if ms == [] then 0
    else if Depth(ms[0].value) > DepthAll(ms[1..]) then Depth(ms[0].value) else DepthAll(ms[1..])
  }

  /// The value of a document

  function StringLeaf(t: string, p: nat): Value {
    if t != [] && IsQuote(t[0]) then Leaf(String, p + 1, p + |t| - 2) else Leaf(String, p, p + |t| - 1)
  }

  /** The value of a document that stands at `p`. */
  function ValueAt(j: Json, p: nat): Value
    decreases j, 2
  {
    match j
    case Atom(kind, text) => if kind == String then StringLeaf(text, p) else Leaf(kind, p, p + |text| - 1)
    case Node(kind, members, trailing, _) => Tree(kind, p, p + |Text(j)| - 1, Children(members, p + 1, trailing))
  }

  function Children(ms: seq<Member>, p: nat, trailing: bool): seq<Value>
    decreases ms, 1
  {
    if ms == [] then []
    else MemberValues(ms[0], p) + Children(ms[1..], p + |MemberText(ms[0])| + |Comma(ms, trailing)|, trailing)
  }

  function MemberValues(m: Member, p: nat): seq<Value>
    decreases m, 0
  {
    var q := p + |GapText(m.before)|;
    (if m.key.None? then [] else [StringLeaf(m.key.value.text, q)]) + [ValueAt(m.value, q + |KeyText(m.key)|)]
  }

  /// Words

  lemma {:induction false} StringShift(s: string, p: nat, t: string, k: nat, quote: char)
    requires Holds(s, p, t) && IsQuote(quote) && StringEnd(t, k, quote).Some?
    ensures StringEnd(s, p + k, quote) == Some(p + StringEnd(t, k, quote).value)
    decreases |t| - k
  {
    HoldsAt(s, p, t, k);
    if t[k] == '\\' {
      StringShift(s, p, t, k + 2, quote);
    } else if t[k] != quote {
      StringShift(s, p, t, k + 1, quote);
    }
  }

  lemma QuotedShift(s: string, p: nat, t: string)
    requires Holds(s, p, t) && IsQuotedText(t)
    ensures IsQuote(s[p]) && QuotedAt(s, p) == Some(Lexeme(StringLeaf(t, p), p + |t|))
  {
    hide StringEnd;
    HoldsAt(s, p, t, 0);
    StringShift(s, p, t, 1, t[0]);
  }

  lemma NumberShift(s: string, p: nat, t: string)
    requires Holds(s, p, t) && Stops(s, p + |t|) && forall i :: 0 <= i < |t| ==> IsNumberChar(t[i])
    ensures NumberEnd(s, p) == p + |t|
  {
    hide IsNumberChar;
    var q := NumberEnd(s, p);
    if q < p + |t| {
      HoldsAt(s, p, t, q - p);
    }
  }

  lemma NameShift(s: string, p: nat, t: string)
    requires Holds(s, p, t) && Stops(s, p + |t|) && IsName(t)
    ensures KeyAt(s, p) == Some(Lexeme(StringLeaf(t, p), p + |t|)) && IsKeyStart(s[p])
  {
    HoldsAt(s, p, t, 0);
    var q := NameEnd(s, p);
    if q < p + |t| {
      HoldsAt(s, p, t, q - p);
    }
  }

  predicate IsLower(word: string) {
    forall i :: 0 <= i < |word| ==> 'a' <= word[i] <= 'z'
  }

  lemma WordShift(s: string, p: nat, t: string, word: string)
    requires Holds(s, p, t) && IsLower(word) && IsWord(t, 0, word)
    ensures IsWord(s, p, word)
  {
    forall i | 0 <= i < |word|
      ensures Same(s[p + i], word[i])
    {
      HoldsAt(s, p, t, i);
      assert t[0 + i] == t[i];
    }
  }

  lemma WordInside(s: string, p: nat, t: string, word: string)
    requires Holds(s, p, t) && IsLower(word)
    ensures IsWord(s, p, word) && |word| <= |t| ==> IsWord(t, 0, word)
  {
    if IsWord(s, p, word) && |word| <= |t| {
      forall i | 0 <= i < |word|
        ensures Same(t[0 + i], word[i])
      {
        HoldsAt(s, p, t, i);
      }
    }
  }

  lemma WordLetters(s: string, p: nat, word: string, i: nat)
    requires IsLower(word)
    ensures IsWord(s, p, word) && i < |word| ==> p + i < |s| && IsNumberChar(s[p + i])
  {
    if IsWord(s, p, word) && i < |word| {
      assert Same(s[p + i], word[i]);
    }
  }

  lemma NoWord(s: string, p: nat, t: string, word: string)
    requires Holds(s, p, t) && Stops(s, p + |t|) && IsLower(word) && !IsWord(t, 0, word)
    ensures !IsWord(s, p, word)
  {
    hide IsWord, IsNumberChar, Holds;
    WordInside(s, p, t, word);
    WordLetters(s, p, word, |t|);
  }

  /** The words begin with different letters. */
  lemma OneWord(s: string, p: nat)
    ensures IsWord(s, p, "null") || IsWord(s, p, "true") || IsWord(s, p, "false") ==> p < |s| && IsLetter(s[p])
    ensures IsWord(s, p, "true") ==> !IsWord(s, p, "null")
    ensures IsWord(s, p, "false") ==> !IsWord(s, p, "null") && !IsWord(s, p, "true") && IsWord(s, p, "fals")
  {
    assert IsWord(s, p, "null") ==> Same(s[p + 0], "null"[0]);
    assert IsWord(s, p, "true") ==> Same(s[p + 0], "true"[0]);
    if IsWord(s, p, "false") {
      assert Same(s[p + 0], "false"[0]);
      assert forall i :: 0 <= i < 4 ==> "fals"[i] == "false"[i];
    }
  }

  lemma AtomShift(s: string, p: nat, kind: Kind, t: string)
    requires Holds(s, p, t) && Stops(s, p + |t|) && IsAtom(kind, t)
    ensures t != [] && p < |s| && PrimitiveAt(s, p) == Some(Lexeme(ValueAt(Atom(kind, t), p), p + |t|))
    ensures IsQuote(s[p]) || IsNumberChar(s[p])
  {
    hide IsWord, StringEnd, NumberEnd;
    HoldsAt(s, p, t, 0);
    OneWord(s, p);
    if kind == String {
      QuotedShift(s, p, t);
    } else if kind == Number {
      NoWord(s, p, t, "null");
      NoWord(s, p, t, "true");
      NoWord(s, p, t, "fals");
      NumberShift(s, p, t);
    } else if kind == Null {
      WordShift(s, p, t, "null");
    } else if |t| == 4 {
      WordShift(s, p, t, "true");
    } else {
      WordShift(s, p, t, "false");
    }
  }

  /** Quotes, letters, digits and the like begin a key or a value. */
  lemma WordStep(s: string, p: nat, st: State)
    requires p < |s| && (IsQuote(s[p]) || IsNumberChar(s[p]) || IsKeyStart(s[p]))
    ensures Step(s, p, st) == WordAt(s, p, st)
  {
    hide WordAt, CommentEnd, Bracket, Separator;
  }

  lemma AtomRuns(s: string, p: nat, st: State, kind: Kind, t: string)
    requires Holds(s, p, t) && Stops(s, p + |t|) && IsAtom(kind, t) && st.next == 'v'
    ensures Run(s, p, st) == Run(s, p + |t|, With(st, ValueAt(Atom(kind, t), p)))
  {
    hide Run, Step, Holds, Stops, IsAtom, IsQuote, IsNumberChar, PrimitiveAt, With, ValueAt;
    AtomShift(s, p, kind, t);
    WordStep(s, p, st);
    RunStep(s, p, st);
  }

  /// Containers

  /** Reading a container: its place, what it holds so far and what may come next. */
  function Inside(frames: seq<Frame>, kind: Kind, start: nat, kids: seq<Value>, next: char): State {
    State(frames + [Frame(kind, start, kids)], next, None)
  }

  function First(kind: Kind): char {
    if kind == Object then 'k' else 'v'
  }

  lemma InsideWith(frames: seq<Frame>, kind: Kind, start: nat, kids: seq<Value>, next: char, v: Value)
    ensures With(Inside(frames, kind, start, kids, next), v) == Inside(frames, kind, start, kids + [v], ',')
    ensures Inside(frames, kind, start, kids, next).frames != []
    ensures Grow(Inside(frames, kind, start, kids, next).frames, v) == frames + [Frame(kind, start, kids + [v])]
  {
    SnocFrames(frames, Frame(kind, start, kids));
  }

  /** A key and its colon. */
  lemma KeyRuns(s: string, p: nat, frames: seq<Frame>, start: nat, kids: seq<Value>, k: Key)
    requires Holds(s, p, KeyText(Some(k))) && (IsQuotedText(k.text) || IsName(k.text)) && IsGap(k.behind)
             && IsGap(k.ahead)
    ensures Run(s, p, Inside(frames, Object, start, kids, 'k')) ==
            Run(s, p + |KeyText(Some(k))|, Inside(frames, Object, start, kids + [StringLeaf(k.text, p)], 'v'))
  {
    hide Run, Holds, IsQuotedText, IsName, IsGap, GapText, StringLeaf, Grow, Step;
    var st, v := Inside(frames, Object, start, kids, 'k'), StringLeaf(k.text, p);
    var st' := Inside(frames, Object, start, kids + [v], ':');
    var q := p + |k.text|;
    var r := q + |GapText(k.behind)|;
    HoldsParts(s, p, k.text, GapText(k.behind) + (":" + GapText(k.ahead)));
    HoldsParts(s, q, GapText(k.behind), ":" + GapText(k.ahead));
    HoldsParts(s, r, ":", GapText(k.ahead));
    ColonStops(s, r);
    StopsBeforeGap(s, q, k.behind);
    InsideWith(frames, Object, start, kids, 'k', v);
    KeyStep(s, p, st, k.text);
    GapRuns(s, q, st', k.behind);
    ColonStep(s, r, frames, start, kids + [v]);
    GapRuns(s, r + 1, Inside(frames, Object, start, kids + [v], 'v'), k.ahead);
  }

  lemma ColonStops(s: string, r: nat)
    requires Holds(s, r, ":")
    ensures Stops(s, r) && r < |s|
  {
    HoldsAt(s, r, ":", 0);
  }

  lemma KeyStep(s: string, p: nat, st: State, t: string)
    requires Holds(s, p, t) && Stops(s, p + |t|) && (IsQuotedText(t) || IsName(t)) && st.next == 'k' && st.frames != []
    ensures Run(s, p, st) == Run(s, p + |t|, State(Grow(st.frames, StringLeaf(t, p)), ':', None))
  {
    if IsQuotedText(t) {
      QuotedShift(s, p, t);
    } else {
      NameShift(s, p, t);
    }
    hide Run, Step, Holds, IsQuotedText, IsName, KeyAt, Grow, StringLeaf;
    assert KeyAt(s, p) == Some(Lexeme(StringLeaf(t, p), p + |t|));
    WordStep(s, p, st);
    RunStep(s, p, st);
  }

  lemma ColonStep(s: string, r: nat, frames: seq<Frame>, start: nat, kids: seq<Value>)
    requires Holds(s, r, ":")
    ensures Run(s, r, Inside(frames, Object, start, kids, ':'))
            == Run(s, r + 1, Inside(frames, Object, start, kids, 'v'))
  {
    HoldsAt(s, r, ":", 0);
    hide Run, Holds;
    RunStep(s, r, Inside(frames, Object, start, kids, ':'));
  }

  lemma CommaStep(s: string, r: nat, frames: seq<Frame>, kind: Kind, start: nat, kids: seq<Value>)
    requires Holds(s, r, ",") && (kind == Object || kind == Array)
    ensures Run(s, r, Inside(frames, kind, start, kids, ','))
            == Run(s, r + 1, Inside(frames, kind, start, kids, First(kind)))
  {
    HoldsAt(s, r, ",", 0);
    hide Run, Holds;
    SnocFrames(frames, Frame(kind, start, kids));
    RunStep(s, r, Inside(frames, kind, start, kids, ','));
  }

  lemma OpenStep(s: string, p: nat, st: State, kind: Kind)
    requires p < |s| && s[p] == OpenBracket(kind) && (kind == Object || kind == Array)
    requires st.next == 'v' && |st.frames| + 1 < MAX_NESTING
    ensures Run(s, p, st) == Run(s, p + 1, Inside(st.frames, kind, p, [], First(kind)))
  {
    hide Run;
    RunStep(s, p, st);
  }

  lemma CloseStep(s: string, p: nat, frames: seq<Frame>, kind: Kind, start: nat, kids: seq<Value>, next: char,
                  st: State)
    requires p < |s| && s[p] == CloseBracket(kind) && (kind == Object || kind == Array)
    requires (next == First(kind) || next == ',') && st.frames == frames
    ensures Run(s, p, Inside(frames, kind, start, kids, next)) == Run(s, p + 1, With(st, Tree(kind, start, p, kids)))
  {
    hide Run;
    SnocFrames(frames, Frame(kind, start, kids));
    RunStep(s, p, Inside(frames, kind, start, kids, next));
  }

  /** Where the parts of a container stand. */
  lemma NodePlaces(s: string, p: nat, kind: Kind, members: string, tail: Gap)
    requires Holds(s, p, [OpenBracket(kind)] + (members + (GapText(tail) + [CloseBracket(kind)]))) && IsGap(tail)
    ensures var q := p + 1 + |members|;
            var r := q + |GapText(tail)|;
            && p < |s| && s[p] == OpenBracket(kind) && r < |s| && s[r] == CloseBracket(kind)
            && Holds(s, p + 1, members) && Stops(s, q) && Holds(s, q, GapText(tail))
  {
    hide Holds, GapText, IsGap;
    var open, close := [OpenBracket(kind)], [CloseBracket(kind)];
    var q := p + 1 + |members|;
    HoldsParts(s, p, open, members + (GapText(tail) + close));
    HoldsParts(s, p + 1, members, GapText(tail) + close);
    HoldsParts(s, q, GapText(tail), close);
    BracketAt(s, p, OpenBracket(kind));
    BracketAt(s, q + |GapText(tail)|, CloseBracket(kind));
    BracketStops(s, q + |GapText(tail)|, kind);
    StopsBeforeGap(s, q, tail);
  }

  lemma Parts(j: Json, p: nat)
    requires Writable(j)
    ensures j.Atom? ==> IsAtom(j.kind, j.text) && Text(j) == j.text && ValueAt(j, p) == ValueAt(Atom(j.kind, j.text), p)
    ensures j.Node? ==>
              var members, tail := MembersText(j.members, j.trailing), GapText(j.tail);
              && (j.kind == Object || j.kind == Array) && AllWritable(j.kind, j.members) && IsGap(j.tail)
              && Text(j) == [OpenBracket(j.kind)] + (members + (tail + [CloseBracket(j.kind)]))
              && |Text(j)| == 1 + |members| + |tail| + 1 && Depth(j) == 1 + DepthAll(j.members)
              && ValueAt(j, p) == Tree(j.kind, p, p + 1 + |members| + |tail|, Children(j.members, p + 1, j.trailing))
  {
    hide MembersText, Children, AllWritable, DepthAll, GapText, IsGap, IsAtom, StringLeaf;
  }

  /** Reading a written value, wherever one is expected, adds exactly this value. */
  lemma {:induction false} ValueRuns(s: string, p: nat, st: State, j: Json)
    requires Holds(s, p, Text(j)) && Stops(s, p + |Text(j)|) && Writable(j)
    requires st.next == 'v' && |st.frames| + Depth(j) < MAX_NESTING
    ensures Run(s, p, st) == Run(s, p + |Text(j)|, With(st, ValueAt(j, p)))
    decreases j, 2
  {
    hide Run, With, Holds, Stops, GapText, IsGap, IsAtom, Inside, First, OpenBracket, CloseBracket;
    hide Text, ValueAt, Writable, Depth, MembersText, Children, AllWritable, DepthAll;
    Parts(j, p);
    if j.Atom? {
      AtomRuns(s, p, st, j.kind, j.text);
    } else {
      var kind, frames, tail := j.kind, st.frames, GapText(j.tail);
      var members := MembersText(j.members, j.trailing);
      var q := p + 1 + |members|;
      NodePlaces(s, p, kind, members, j.tail);
      OpenStep(s, p, st, kind);
      MembersRun(s, p + 1, frames, kind, p, [], j.members, j.trailing);
      var kids := Children(j.members, p + 1, j.trailing);
      assert [] + kids == kids;
      var next := if j.members == [] || j.trailing then First(kind) else ',';
      GapRuns(s, q, Inside(frames, kind, p, kids, next), j.tail);
      CloseStep(s, q + |tail|, frames, kind, p, kids, next, st);
    }
  }

  lemma BracketAt(s: string, p: nat, c: char)
    requires Holds(s, p, [c])
    ensures p < |s| && s[p] == c
  {
    HoldsAt(s, p, [c], 0);
  }

  lemma BracketStops(s: string, p: nat, kind: Kind)
    requires p < |s| && s[p] == CloseBracket(kind)
    ensures Stops(s, p)
  {
  }

  /** The first member and the rest. */
  lemma MembersParts(ms: seq<Member>, trailing: bool, p: nat)
    requires |ms| > 1 || (trailing && ms != [])
    ensures MembersText(ms, trailing) == MemberText(ms[0]) + ("," + MembersText(ms[1..], trailing))
    ensures Children(ms, p, trailing) == MemberValues(ms[0], p)
            + Children(ms[1..], p + |MemberText(ms[0])| + 1, trailing)
  {
    hide MemberText, MemberValues;
  }

  lemma NoMembers(p: nat, trailing: bool)
    ensures MembersText([], trailing) == "" && Children([], p, trailing) == []
  {
  }

  lemma LastMember(ms: seq<Member>, p: nat)
    requires |ms| == 1
    ensures MembersText(ms, false) == MemberText(ms[0]) && Children(ms, p, false) == MemberValues(ms[0], p)
  {
    hide MemberText, MemberValues;
    assert MembersText(ms[1..], false) == "";
    assert Children(ms[1..], p + |MemberText(ms[0])|, false) == [];
  }

  lemma MembersGood(kind: Kind, ms: seq<Member>)
    requires AllWritable(kind, ms) && ms != []
    ensures MemberWritable(kind, ms[0]) && AllWritable(kind, ms[1..])
    ensures Depth(ms[0].value) <= DepthAll(ms) && DepthAll(ms[1..]) <= DepthAll(ms)
  {
  }

  lemma {:induction false} MembersRun(s: string, p: nat, frames: seq<Frame>, kind: Kind, start: nat, kids: seq<Value>,
                                     ms: seq<Member>, trailing: bool)
    requires Holds(s, p, MembersText(ms, trailing)) && Stops(s, p + |MembersText(ms, trailing)|)
    requires AllWritable(kind, ms) && (kind == Object || kind == Array) && |frames| + 1 + DepthAll(ms) < MAX_NESTING
    ensures Run(s, p, Inside(frames, kind, start, kids, First(kind))) ==
            Run(s, p + |MembersText(ms, trailing)|,
                Inside(frames, kind, start, kids + Children(ms, p, trailing),
                       if ms == [] || trailing then First(kind) else ','))
    decreases ms, 1
  {
    hide Run, Holds, Inside, MembersText, Children, MemberText, MemberValues, MemberWritable, Depth, First, Stops,
         DepthAll, AllWritable;
    if ms == [] {
      NoMembers(p, trailing);
      assert kids + [] == kids;
    } else {
      var m := ms[0];
      MembersGood(kind, ms);
      if |ms| == 1 && !trailing {
        LastMember(ms, p);
        MemberRuns(s, p, frames, kind, start, kids, m);
      } else {
        MembersParts(ms, trailing, p);
        var q, more := p + |MemberText(m)|, MembersText(ms[1..], trailing);
        HoldsParts(s, p, MemberText(m), "," + more);
        HoldsParts(s, q, ",", more);
        CommaStops(s, q);
        MemberRuns(s, p, frames, kind, start, kids, m);
        CommaStep(s, q, frames, kind, start, kids + MemberValues(m, p));
        MembersRun(s, q + 1, frames, kind, start, kids + MemberValues(m, p), ms[1..], trailing);
        Regroup(kids, MemberValues(m, p), Children(ms[1..], q + 1, trailing));
      }
    }
  }

  lemma Regroup(a: seq<Value>, b: seq<Value>, c: seq<Value>)
    ensures a + b + c == a + (b + c)
  {
  }

  lemma CommaStops(s: string, p: nat)
    requires Holds(s, p, ",")
    ensures Stops(s, p)
  {
    HoldsAt(s, p, ",", 0);
  }

  lemma {:induction false} MemberRuns(s: string, p: nat, frames: seq<Frame>, kind: Kind, start: nat, kids: seq<Value>,
                                      m: Member)
    requires Holds(s, p, MemberText(m)) && Stops(s, p + |MemberText(m)|) && MemberWritable(kind, m)
    requires (kind == Object || kind == Array) && |frames| + 1 + Depth(m.value) < MAX_NESTING
    ensures Run(s, p, Inside(frames, kind, start, kids, First(kind))) ==
            Run(s, p + |MemberText(m)|, Inside(frames, kind, start, kids + MemberValues(m, p), ','))
    decreases m, 0
  {
    hide Run, Holds, Stops, With, GapText, IsGap, Text, Writable, Depth, ValueAt, IsQuotedText, IsName, StringLeaf;
    var q := p + |GapText(m.before)|;
    var r := q + |KeyText(m.key)|;
    var e := r + |Text(m.value)|;
    HoldsParts(s, p, GapText(m.before), KeyText(m.key) + (Text(m.value) + GapText(m.after)));
    HoldsParts(s, q, KeyText(m.key), Text(m.value) + GapText(m.after));
    HoldsParts(s, r, Text(m.value), GapText(m.after));
    StopsBeforeGap(s, e, m.after);
    GapRuns(s, p, Inside(frames, kind, start, kids, First(kind)), m.before);
    var kids' := kids;
    if m.key.Some? {
      KeyRuns(s, q, frames, start, kids, m.key.value);
      kids' := kids + [StringLeaf(m.key.value.text, q)];
    }
    var st := Inside(frames, kind, start, kids', 'v');
    var v := ValueAt(m.value, r);
    ValueRuns(s, r, st, m.value);
    InsideWith(frames, kind, start, kids', 'v', v);
    GapRuns(s, e, Inside(frames, kind, start, kids' + [v], ','), m.after);
    assert kids' + [v] == kids + MemberValues(m, p);
  }

  /** Nothing, or a comment that ends with the text. */
  predicate IsEnding(t: string) {
    t == "" || ((t[0] == '#' || (|t| > 1 && t[..2] == "//")) && '\n' !in t)
  }

  lemma {:induction false} NoLineEnd(s: string, p: nat)
    requires p <= |s| && forall i :: p <= i < |s| ==> s[i] != '\n'
    ensures LineEnd(s, p) == |s|
    decreases |s| - p
  {
    if p < |s| { NoLineEnd(s, p + 1); }
  }

  lemma EndingRuns(s: string, p: nat, st: State, t: string)
    requires IsEnding(t) && Holds(s, p, t) && p + |t| == |s|
    ensures Run(s, p, st) == Some(st) && Stops(s, p)
  {
    if t == "" {
      RunEnds(s, st);
    } else {
      HoldsAt(s, p, t, 0);
      if t[0] != '#' {
        assert t[..2][0] == '/' && t[..2][1] == '/';
        HoldsAt(s, p, t, 1);
      }
      forall i | p <= i < |s|
        ensures s[i] != '\n'
      {
        HoldsAt(s, p, t, i - p);
      }
      var q := if t[0] == '#' then p + 1 else p + 2;
      NoLineEnd(s, q);
      hide Run, LineEnd;
      assert Step(s, p, st) == Moved(|s|, st);
      RunStep(s, p, st);
      RunEnds(s, st);
    }
  }

  /** A document: a value with gaps around it, and perhaps a comment at the end. */
  function Document(before: Gap, j: Json, after: Gap, ending: string): string {
    GapText(before) + (Text(j) + (GapText(after) + ending))
  }

  predicate IsDocument(before: Gap, j: Json, after: Gap, ending: string) {
    IsGap(before) && Writable(j) && IsGap(after) && IsEnding(ending) && Depth(j) < MAX_NESTING
  }

  lemma DocumentPlaces(before: Gap, j: Json, after: Gap, ending: string)
    ensures var s, p := Document(before, j, after, ending), |GapText(before)|;
            var q := p + |Text(j)|;
            var r := q + |GapText(after)|;
            && Holds(s, 0, GapText(before)) && Holds(s, p, Text(j)) && Holds(s, q, GapText(after))
            && Holds(s, r, ending)
            && |s| == r + |ending|
  {
    hide GapText, Text;
    var s, p := Document(before, j, after, ending), |GapText(before)|;
    var q := p + |Text(j)|;
    assert Holds(s, 0, s);
    hide Holds;
    HoldsParts(s, 0, GapText(before), Text(j) + (GapText(after) + ending));
    HoldsParts(s, p, Text(j), GapText(after) + ending);
    HoldsParts(s, q, GapText(after), ending);
  }

  /** Every written document reads as its own value. */
  lemma WrittenIsRead(before: Gap, j: Json, after: Gap, ending: string)
    requires IsDocument(before, j, after, ending)
    ensures Read(Document(before, j, after, ending)) == Some(ValueAt(j, |GapText(before)|))
  {
    hide Run, GapText, IsGap, Text, Writable, ValueAt, IsEnding, Holds, Stops, Document, Depth;
    var s := Document(before, j, after, ending);
    var p := |GapText(before)|;
    var q := p + |Text(j)|;
    var r := q + |GapText(after)|;
    DocumentPlaces(before, j, after, ending);
    var st := With(INITIAL, ValueAt(j, p));
    EndingRuns(s, r, st, ending);
    StopsBeforeGap(s, q, after);
    GapRuns(s, 0, INITIAL, before);
    ValueRuns(s, p, INITIAL, j);
    GapRuns(s, q, st, after);
  }
}
