/** The token array while a document is being read: containers that are still open, with the children they have
    so far, and the text that the values stand for. */
module Cj5Build {
  import opened Cj5Spec

  /// Open containers

  datatype Frame = Frame(kind: Kind, start: nat, children: seq<Value>)

  /** The tokens of open containers, outermost first; an open container has no end yet. */
  function OpenTokens(frames: seq<Frame>): (ts: seq<Token>)
    requires FramesSized(frames)
  {
    if frames == [] then []
    else
      var init, f := frames[..|frames| - 1], frames[|frames| - 1];
      var ts := OpenTokens(init);
      ts + [Token(f.kind, f.start, 0, |f.children|, Index(init))] + ListTokens(f.children, |ts| + 1, |ts|)
  }

  /** The index of the innermost open container. */
  function Index(frames: seq<Frame>): nat
    requires FramesSized(frames)
  {
    if frames == [] then 0 else |OpenTokens(frames[..|frames| - 1])|
  }

  predicate FramesSized(frames: seq<Frame>) {
    frames == [] || (FramesSized(frames[..|frames| - 1]) && AllSized(frames[|frames| - 1].children))
  }

  function Top(frames: seq<Frame>): Frame
    requires frames != []
  {
    frames[|frames| - 1]
  }

  function Rest(frames: seq<Frame>): seq<Frame>
    requires frames != []
  {
    frames[..|frames| - 1]
  }

  /** The innermost container gets another child. */
  function Grow(frames: seq<Frame>, v: Value): seq<Frame>
    requires frames != []
  {
    Rest(frames) + [Top(frames).(children := Top(frames).children + [v])]
  }

  lemma SnocFrames(frames: seq<Frame>, f: Frame)
    ensures Rest(frames + [f]) == frames && Top(frames + [f]) == f
    ensures FramesSized(frames + [f]) <==> FramesSized(frames) && AllSized(f.children)
  {
    assert (frames + [f])[..|frames|] == frames;
  }

  lemma IndexInside(frames: seq<Frame>)
    requires FramesSized(frames) && frames != []
    ensures Index(frames) < |OpenTokens(frames)|
    ensures OpenTokens(frames)[Index(frames)] ==
            Token(Top(frames).kind, Top(frames).start, 0, |Top(frames).children|, Index(Rest(frames)))
    ensures |Rest(frames)| > 0 ==> Index(Rest(frames)) < Index(frames)
    decreases |frames|
  {
    if |frames| > 1 { IndexInside(Rest(frames)); }
  }

  /** Opening a container appends its token. */
  lemma OpenAppends(frames: seq<Frame>, kind: Kind, start: nat)
    requires FramesSized(frames)
    ensures var frames' := frames + [Frame(kind, start, [])];
            && FramesSized(frames') && Index(frames') == |OpenTokens(frames)|
            && OpenTokens(frames') == OpenTokens(frames) + [Token(kind, start, 0, 0, Index(frames))]
  {
    SnocFrames(frames, Frame(kind, start, []));
    assert ListTokens([], |OpenTokens(frames)| + 1, |OpenTokens(frames)|) == [];
  }

  lemma SizedSnoc(vs: seq<Value>, v: Value)
    ensures AllSized(vs + [v]) <==> AllSized(vs) && Sized(v)
    ensures CountAll(vs + [v]) == CountAll(vs) + Count(v)
  {
    assert (vs + [v])[..|vs|] == vs;
  }

  lemma ListTokensSnoc(vs: seq<Value>, v: Value, at: nat, parent: nat)
    requires AllSized(vs) && Sized(v) && AllSized(vs + [v])
    ensures ListTokens(vs + [v], at, parent) == ListTokens(vs, at, parent) + Tokens(v, at + CountAll(vs), parent)
  {
    assert (vs + [v])[..|vs|] == vs;
  }

  lemma GrowSized(frames: seq<Frame>, v: Value)
    requires FramesSized(frames) && frames != [] && Sized(v)
    ensures FramesSized(Grow(frames, v)) && Index(Grow(frames, v)) == Index(frames) < |OpenTokens(frames)|
    ensures Index(frames) == |OpenTokens(Rest(frames))| && AllSized(Top(frames).children)
  {
    SizedSnoc(Top(frames).children, v);
    SnocFrames(Rest(frames), Top(frames).(children := Top(frames).children + [v]));
    IndexInside(frames);
    hide OpenTokens;
  }

  /** A new child appends its tokens and counts in its parent's token. */
  lemma GrowAppends(frames: seq<Frame>, v: Value)
    requires FramesSized(frames) && frames != [] && Sized(v)
    ensures FramesSized(Grow(frames, v)) && Index(Grow(frames, v)) == Index(frames) < |OpenTokens(frames)|
    ensures var ts, i := OpenTokens(frames), Index(frames);
            OpenTokens(Grow(frames, v)) == ts[i := ts[i].(size := ts[i].size + 1)] + Tokens(v, |ts|, i)
  {
    hide OpenTokens, Index, FramesSized;
    GrowSized(frames, v);
    var init, f := Rest(frames), Top(frames);
    assert frames == init + [f];
    RestSized(frames);
    GrowSnoc(init, f, v);
  }

  lemma RestSized(frames: seq<Frame>)
    requires FramesSized(frames) && frames != []
    ensures FramesSized(Rest(frames)) && AllSized(Top(frames).children)
  {
  }

  lemma GrowSnoc(init: seq<Frame>, f: Frame, v: Value)
    requires FramesSized(init) && AllSized(f.children) && Sized(v)
    ensures var f' := f.(children := f.children + [v]);
            && FramesSized(init + [f]) && FramesSized(init + [f']) && |OpenTokens(init)| < |OpenTokens(init + [f])|
            && var ts, i := OpenTokens(init + [f]), |OpenTokens(init)|;
               OpenTokens(init + [f']) == ts[i := ts[i].(size := ts[i].size + 1)] + Tokens(v, |ts|, i)
  {
    hide OpenTokens, Index, FramesSized, Tokens, ListTokens, AllSized, Sized, CountAll, Count;
    var f' := f.(children := f.children + [v]);
    SizedSnoc(f.children, v);
    OpenSnoc(init, f);
    OpenSnoc(init, f');
    var a := OpenTokens(init);
    var i := |a|;
    ListTokensSnoc(f.children, v, i + 1, i);
    var t := Token(f.kind, f.start, 0, |f.children|, Index(init));
    var kids, more := ListTokens(f.children, i + 1, i), Tokens(v, i + 1 + CountAll(f.children), i);
    Middle(a, t, kids);
    GrowPieces(a, t, kids, more, ListTokens(f'.children, i + 1, i));
  }

  lemma Middle(a: seq<Token>, t: Token, b: seq<Token>)
    ensures (a + [t] + b)[|a|] == t
  {
  }

  lemma OpenSnoc(init: seq<Frame>, f: Frame)
    requires FramesSized(init) && AllSized(f.children)
    ensures FramesSized(init + [f]) && Index(init + [f]) == |OpenTokens(init)|
    ensures var a := OpenTokens(init);
            && OpenTokens(init + [f]) ==
               a + [Token(f.kind, f.start, 0, |f.children|, Index(init))] + ListTokens(f.children, |a| + 1, |a|)
            && |OpenTokens(init + [f])| == |a| + 1 + CountAll(f.children)
  {
    SnocFrames(init, f);
    assert (init + [f])[..|init|] == init;
  }

  lemma GrowPieces(a: seq<Token>, t: Token, kids: seq<Token>, more: seq<Token>, all: seq<Token>)
    requires all == kids + more
    ensures var ts, t' := a + [t] + kids, t.(size := t.size + 1);
            a + [t'] + all == ts[|a| := t'] + more
  {
  }

  /** Closing a container completes its token and counts in its parent's. */
  lemma CloseCompletes(frames: seq<Frame>, end: int)
    requires FramesSized(frames) && frames != []
    ensures var f := Top(frames);
            var v := Tree(f.kind, f.start, end, f.children);
            && Sized(v) && Index(frames) < |OpenTokens(frames)|
            && var ts := OpenTokens(frames)[Index(frames) := OpenTokens(frames)[Index(frames)].(end := end)];
               && (|frames| == 1 ==> ts == Tokens(v, 0, 0))
               && (|frames| > 1 ==>
                     var i := Index(Rest(frames));
                     && FramesSized(Rest(frames)) && FramesSized(Grow(Rest(frames), v)) && i < Index(frames)
                     && Index(Grow(Rest(frames), v)) == i
                     && OpenTokens(Grow(Rest(frames), v)) == ts[i := ts[i].(size := ts[i].size + 1)])
  {
    var init, f := Rest(frames), Top(frames);
    var v := Tree(f.kind, f.start, end, f.children);
    assert frames == init + [f];
    OpenSnoc(init, f);
    var a := OpenTokens(init);
    var t, kids := Token(f.kind, f.start, 0, |f.children|, Index(init)), ListTokens(f.children, |a| + 1, |a|);
    Middle(a, t, kids);
    ClosePieces(a, t, kids, end);
    assert Tokens(v, |a|, Index(init)) == [t.(end := end)] + kids;
    if |frames| > 1 {
      GrowAppends(init, v);
      hide OpenTokens, Index, FramesSized, Tokens, ListTokens;
      IndexInside(init);
      CloseParent(a, [t.(end := end)] + kids, Index(init));
    } else {
      assert init == [] && a == [];
      assert [] + ([t.(end := end)] + kids) == [t.(end := end)] + kids;
    }
  }

  lemma ClosePieces(a: seq<Token>, t: Token, kids: seq<Token>, end: int)
    ensures (a + [t] + kids)[|a| := t.(end := end)] == a + ([t.(end := end)] + kids)
  {
  }

  lemma CloseParent(a: seq<Token>, b: seq<Token>, i: nat)
    requires i < |a|
    ensures (a + b)[i := (a + b)[i].(size := (a + b)[i].size + 1)] == a[i := a[i].(size := a[i].size + 1)] + b
  {
  }

  /// Text

  predicate IsQuote(c: char) {
    c == '\"' || c == '\''
  }

  predicate IsDigit(c: char) {
    '0' <= c <= '9'
  }

  predicate IsLetter(c: char) {
    'a' <= c <= 'z' || 'A' <= c <= 'Z'
  }

  predicate IsNumberChar(c: char) {
    IsDigit(c) || c == '.' || IsLetter(c) || c == '+' || c == '-'
  }

  predicate IsKeyStart(c: char) {
    IsLetter(c) || c == '_' || c == '$'
  }

  /** The same letter, whatever its case. */
  predicate Same(c: char, lower: char)
    requires 'a' <= lower <= 'z'
  {
    c == lower || c as int + 32 == lower as int
  }

  predicate IsWord(s: string, at: nat, word: string)
    requires forall i :: 0 <= i < |word| ==> 'a' <= word[i] <= 'z'
  {
    at + |word| <= |s| && forall i :: 0 <= i < |word| ==> Same(s[at + i], word[i])
  }

  /** The inside of a quoted string: no bare quote, no bare newline, escapes in pairs. */
  predicate StringBody(s: string, a: nat, b: nat, quote: char)
    requires a <= b <= |s|
    decreases b - a
  {
    a == b ||
    if s[a] == '\\' then a + 2 <= b && StringBody(s, a + 2, b, quote)
    else s[a] != quote && s[a] != '\n' && StringBody(s, a + 1, b, quote)
  }

  predicate IsKeyName(s: string, start: nat, end: int) {
    && start <= end < |s| && IsKeyStart(s[start])
    && forall i :: start <= i <= end ==> IsKeyStart(s[i]) || IsDigit(s[i])
  }

  predicate IsQuoted(s: string, start: nat, end: int) {
    && 1 <= start <= end + 1 < |s| && IsQuote(s[start - 1]) && s[end + 1] == s[start - 1]
    && StringBody(s, start, end + 1, s[start - 1])
  }

  predicate LeafText(s: string, kind: Kind, start: nat, end: int) {
    match kind
    case String => IsQuoted(s, start, end) || IsKeyName(s, start, end)
    case Number => start <= end < |s| && forall i :: start <= i <= end ==> IsNumberChar(s[i])
    case Null => IsWord(s, start, "null") && end == start + 3
    case Bool => (IsWord(s, start, "true") && end == start + 3) || (IsWord(s, start, "false") && end == start + 4)
    case _ => false
  }

  function OpenBracket(kind: Kind): char {
    if kind == Object then '{' else '['
  }

  function CloseBracket(kind: Kind): char {
    if kind == Object then '}' else ']'
  }

  /** In an object keys and values alternate. */
  predicate Alternates(kind: Kind, children: seq<Value>) {
    kind == Object ==> forall i :: 0 <= i < |children| && i % 2 == 0 ==> children[i].Leaf? && children[i].kind == String
  }

  /** The value stands for the text in its range. */
  predicate Reads(s: string, v: Value)
    decreases v, 1
  {
    match v
    case Leaf(kind, start, end) => LeafText(s, kind, start, end)
    case Tree(kind, start, end, children) =>
      && (kind == Object || kind == Array) && start < end < |s| && s[start] == OpenBracket(kind)
      && s[end] == CloseBracket(kind)
      && AllRead(s, children) && Alternates(kind, children) && (kind == Object ==> |children| % 2 == 0)
  }

  predicate AllRead(s: string, vs: seq<Value>)
    decreases vs, 0
  {
    vs == [] || (AllRead(s, vs[..|vs| - 1]) && Reads(s, vs[|vs| - 1]))
  }

  /// Open containers in the text

  /** Each open container's children lie behind its bracket and before the next open container, or the limit. */
  predicate FramesPlaced(frames: seq<Frame>, limit: int) {
    frames == [] ||
    (FramesPlaced(Rest(frames), Top(frames).start) && Top(frames).start < limit
     && AllPlaced(Top(frames).children, Top(frames).start, limit))
  }

  predicate FrameReads(s: string, f: Frame) {
    && (f.kind == Object || f.kind == Array) && f.start < |s| && s[f.start] == OpenBracket(f.kind)
    && AllRead(s, f.children) && Alternates(f.kind, f.children)
  }

  predicate FramesRead(s: string, frames: seq<Frame>) {
    forall i :: 0 <= i < |frames| ==> FrameReads(s, frames[i])
  }

  lemma {:induction false} PlacedLater(vs: seq<Value>, lo: int, hi: int, hi': int)
    requires AllPlaced(vs, lo, hi) && hi <= hi'
    ensures AllPlaced(vs, lo, hi')
    decreases vs, 0
  {
    if vs != [] { PlacedLater(vs[..|vs| - 1], lo, hi, hi'); }
  }

  lemma FramesLater(frames: seq<Frame>, limit: int, limit': int)
    requires FramesPlaced(frames, limit) && limit <= limit'
    ensures FramesPlaced(frames, limit')
  {
    if frames != [] { PlacedLater(Top(frames).children, Top(frames).start, limit, limit'); }
  }

  lemma {:induction false} FramesPlacedSized(frames: seq<Frame>, limit: int)
    requires FramesPlaced(frames, limit)
    ensures FramesSized(frames)
    decreases |frames|
  {
    if frames != [] {
      FramesPlacedSized(Rest(frames), Top(frames).start);
      AllPlacedIsSized(Top(frames).children, Top(frames).start, limit);
    }
  }

  lemma PlacedSnoc(vs: seq<Value>, v: Value, lo: int, hi: int)
    requires AllPlaced(vs, lo, v.start) && Placed(v) && lo < v.start && Last(v) < hi
    ensures AllPlaced(vs + [v], lo, hi)
  {
    assert (vs + [v])[..|vs|] == vs;
    LastGrows(vs, lo, v.start);
    PlacedLater(vs, lo, v.start, hi);
  }

  lemma ReadSnoc(s: string, vs: seq<Value>, v: Value)
    requires AllRead(s, vs) && Reads(s, v)
    ensures AllRead(s, vs + [v])
  {
    assert (vs + [v])[..|vs|] == vs;
  }

  /** A new child behind all others. */
  lemma GrowPlaced(s: string, frames: seq<Frame>, v: Value, limit: int)
    requires frames != [] && FramesPlaced(frames, v.start) && FramesRead(s, frames) && Placed(v) && Reads(s, v)
             && Last(v) < limit
    requires Top(frames).kind == Object && |Top(frames).children| % 2 == 0 ==> v.Leaf? && v.kind == String
    ensures FramesPlaced(Grow(frames, v), limit) && FramesRead(s, Grow(frames, v))
  {
    var init, f := Rest(frames), Top(frames);
    var f' := f.(children := f.children + [v]);
    SnocFrames(init, f');
    PlacedSnoc(f.children, v, f.start, limit);
    assert FrameReads(s, f);
    ReadSnoc(s, f.children, v);
    hide AllPlaced, Placed, Reads, AllRead;
    assert FrameReads(s, f');
    forall i | 0 <= i < |init + [f']|
      ensures FrameReads(s, (init + [f'])[i])
    {
      if i < |init| { assert (init + [f'])[i] == frames[i]; }
    }
  }

  lemma OpenPlaced(s: string, frames: seq<Frame>, kind: Kind, start: nat)
    requires FramesPlaced(frames, start) && FramesRead(s, frames) && start < |s| && (kind == Object || kind == Array)
    requires s[start] == OpenBracket(kind)
    ensures var frames' := frames + [Frame(kind, start, [])];
            FramesPlaced(frames', start + 1) && FramesRead(s, frames')
  {
    var f := Frame(kind, start, []);
    SnocFrames(frames, f);
    assert FrameReads(s, f);
    forall i | 0 <= i < |frames + [f]|
      ensures FrameReads(s, (frames + [f])[i])
    {
      if i < |frames| { assert (frames + [f])[i] == frames[i]; }
    }
  }

  /** The value that a closing bracket completes. */
  lemma CloseReads(s: string, frames: seq<Frame>, end: nat)
    requires frames != [] && FramesPlaced(frames, end) && FramesRead(s, frames) && end < |s|
    requires s[end] == CloseBracket(Top(frames).kind)
             && (Top(frames).kind == Object ==> |Top(frames).children| % 2 == 0)
    ensures var f := Top(frames);
            var v := Tree(f.kind, f.start, end, f.children);
            && Placed(v) && Reads(s, v) && Last(v) == end && v.start == f.start
            && FramesPlaced(Rest(frames), f.start) && FramesRead(s, Rest(frames))
  {
    assert FrameReads(s, Top(frames));
    assert forall i :: 0 <= i < |Rest(frames)| ==> Rest(frames)[i] == frames[i];
  }
}
