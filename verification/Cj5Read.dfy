/** What the tokenizer reads: where words, strings and comments end, and the machine that takes them one after the
    other and builds the value that the text stands for. */
module Cj5Read {
  import opened Cj5Spec
  import opened Cj5Build
  import opened Options

  const MAX_NESTING: nat := 256
  const NUL: char := 0 as char

  /// Extents

  /** The closing quote of a string whose inside begins at `p`. */
  function StringEnd(s: string, p: nat, quote: char): (r: Option<nat>)
    requires IsQuote(quote)
    ensures r.Some? ==> p <= r.value < |s| && s[r.value] == quote && StringBody(s, p, r.value, quote)
    decreases |s| - p
  {
    if p >= |s| || s[p] == '\n' then None
    else if s[p] == quote then Some(p)
    else if s[p] == '\\' then (if p + 1 >= |s| then None else StringEnd(s, p + 2, quote))
    else StringEnd(s, p + 1, quote)
  }

  /** The first character from `p` on that is not part of a number. */
  function NumberEnd(s: string, p: nat): (q: nat)
    requires p <= |s|
    ensures p <= q <= |s| && (forall i :: p <= i < q ==> IsNumberChar(s[i])) && (q < |s| ==> !IsNumberChar(s[q]))
    decreases |s| - p
  {
    if p == |s| || !IsNumberChar(s[p]) then p else NumberEnd(s, p + 1)
  }

  predicate IsNameChar(c: char) {
    IsKeyStart(c) || IsDigit(c)
  }

  function NameEnd(s: string, p: nat): (q: nat)
    requires p <= |s|
    ensures p <= q <= |s| && (forall i :: p <= i < q ==> IsNameChar(s[i])) && (q < |s| ==> !IsNameChar(s[q]))
    decreases |s| - p
  {
    if p == |s| || !IsNameChar(s[p]) then p else NameEnd(s, p + 1)
  }

  /** The next line feed, or the end of the text. */
  function LineEnd(s: string, p: nat): (q: nat)
    requires p <= |s|
    ensures p <= q <= |s|
    decreases |s| - p
  {
    if p == |s| || s[p] == '\n' then p else LineEnd(s, p + 1)
  }

  /** Behind the end of a comment whose inside begins at `p`. */
  function BlockEnd(s: string, p: nat): (r: Option<nat>)
    ensures r.Some? ==> p + 2 <= r.value <= |s|
    decreases |s| - p
  {
    if p + 1 >= |s| then None
    else if s[p] == '*' && s[p + 1] == '/' then Some(p + 2)
    else BlockEnd(s, p + 1)
  }

  /** Where reading goes on behind the comment at `p`. */
  function CommentEnd(s: string, p: nat): (r: Option<nat>)
    requires p < |s| && (s[p] == '#' || s[p] == '/')
    ensures r.Some? ==> p < r.value <= |s|
  {
    if s[p] == '#' then Some(LineEnd(s, p + 1))
    else if p + 1 >= |s| then None
    else if s[p + 1] == '/' then Some(LineEnd(s, p + 2))
    else if s[p + 1] == '*' then BlockEnd(s, p + 2)
    else None
  }

  /** A leaf and where reading goes on behind it. */
  datatype Lexeme = Lexeme(leaf: Value, resume: nat)

  ghost predicate IsLexeme(s: string, p: nat, l: Lexeme) {
    && l.leaf.Leaf? && p <= l.leaf.start <= l.leaf.end + 1 && Last(l.leaf) < l.resume <= |s| && p < l.resume
    && Reads(s, l.leaf) && Placed(l.leaf)
  }

  function QuotedAt(s: string, p: nat): (r: Option<Lexeme>)
    requires p < |s| && IsQuote(s[p])
    ensures r.Some? ==> IsLexeme(s, p, r.value) && r.value.leaf.kind == String
  {
    var e := StringEnd(s, p + 1, s[p]);
    if e.None? then None else Some(Lexeme(Leaf(String, p + 1, e.value - 1), e.value + 1))
  }

  /** `null`, `true` and `false` in any case, and everything that looks like a number. */
  function BareAt(s: string, p: nat): (r: Option<Lexeme>)
    requires p < |s|
    ensures r.Some? ==> IsLexeme(s, p, r.value)
  {
    if IsWord(s, p, "null") then Some(Lexeme(Leaf(Null, p, p + 3), p + 4))
    else if IsWord(s, p, "true") then Some(Lexeme(Leaf(Bool, p, p + 3), p + 4))
    else if IsWord(s, p, "false") then Some(Lexeme(Leaf(Bool, p, p + 4), p + 5))
    else if IsWord(s, p, "fals") then None
    else
      var e := NumberEnd(s, p);
      if e == p then None else Some(Lexeme(Leaf(Number, p, e - 1), e))
  }

  function PrimitiveAt(s: string, p: nat): (r: Option<Lexeme>)
    requires p < |s|
    ensures r.Some? ==> IsLexeme(s, p, r.value)
  {
    if IsQuote(s[p]) then QuotedAt(s, p) else BareAt(s, p)
  }

  function KeyAt(s: string, p: nat): (r: Option<Lexeme>)
    requires p < |s|
    ensures r.Some? ==> IsLexeme(s, p, r.value) && r.value.leaf.kind == String
  {
    if IsQuote(s[p]) then QuotedAt(s, p)
    else if !IsKeyStart(s[p]) then None
    else Some(Lexeme(Leaf(String, p, NameEnd(s, p) - 1), NameEnd(s, p)))
  }

  /// The machine

  /** The open containers, what may come next in the innermost one, and the value of the text once it is complete. */
  datatype State = State(frames: seq<Frame>, next: char, root: Option<Value>)

  const INITIAL: State := State([], 'v', None)

  /** The state behind a value for which the state was waiting. */
  function With(st: State, v: Value): State {
    if st.frames == [] then State([], NUL, Some(v)) else State(Grow(st.frames, v), ',', None)
  }

  datatype Move = Refused | Moved(resume: nat, st: State)

  function KindOf(c: char): Kind {
    if c == '{' || c == '}' then Object else Array
  }

  /** An opening bracket, or a closing one. */
  function Bracket(p: nat, c: char, st: State): (m: Move)
    ensures m.Moved? ==> m.resume == p + 1
  {
    if c == '{' || c == '[' then
      if |st.frames| + 1 >= MAX_NESTING || st.next != 'v' then Refused
      else Moved(p + 1, State(st.frames + [Frame(KindOf(c), p, [])], if c == '{' then 'k' else 'v', None))
    else
      if st.frames == [] || Top(st.frames).kind != KindOf(c)
        || (c == '}' && st.next != 'k' && st.next != ',') then Refused
      else
        var f := Top(st.frames);
        Moved(p + 1, With(st.(frames := Rest(st.frames)), Tree(f.kind, f.start, p, f.children)))
  }

  function Separator(p: nat, c: char, st: State): (m: Move)
    ensures m.Moved? ==> m.resume == p + 1
  {
    if st.next != c || st.frames == [] then Refused
    else Moved(p + 1, st.(next := if c == ',' && Top(st.frames).kind == Object then 'k' else 'v'))
  }

  /** A key or a value. */
  function WordAt(s: string, p: nat, st: State): (m: Move)
    requires p < |s|
    ensures m.Moved? ==> p < m.resume <= |s|
  {
    if st.next == 'v' then
      var l := PrimitiveAt(s, p);
      if l.None? then Refused else Moved(l.value.resume, With(st, l.value.leaf))
    else if st.next == 'k' && st.frames != [] then
      var l := KeyAt(s, p);
      if l.None? then Refused else Moved(l.value.resume, State(Grow(st.frames, l.value.leaf), ':', None))
    else Refused
  }

  /** One round at the character `p`. */
  function Step(s: string, p: nat, st: State): (m: Move)
    requires p < |s|
    ensures m.Moved? ==> p < m.resume <= |s|
  {
    var c := s[p];
    if c == '\n' || c == '\r' || c == '\t' || c == ' ' then Moved(p + 1, st)
    else if c == '#' || c == '/' then
      var q := CommentEnd(s, p);
      if q.None? then Refused else Moved(q.value, st)
    else if c == '{' || c == '[' || c == '}' || c == ']' then Bracket(p, c, st)
    else if c == ':' || c == ',' then Separator(p, c, st)
    else WordAt(s, p, st)
  }

  function Run(s: string, p: nat, st: State): Option<State>
    decreases |s| - p
  {
    if p >= |s| then Some(st)
    else
      var m := Step(s, p, st);
      if m.Refused? then None else Run(s, m.resume, m.st)
  }

  lemma RunStep(s: string, p: nat, st: State)
    requires p < |s|
    ensures var m := Step(s, p, st);
            Run(s, p, st) == if m.Refused? then None else Run(s, m.resume, m.st)
  {
  }

  lemma RunEnds(s: string, st: State)
    ensures Run(s, |s|, st) == Some(st)
  {
  }

  /** The value of a text, if it is the text of exactly one. */
  function Read(s: string): Option<Value> {
    var st := Run(s, 0, INITIAL);
    if st.None? || st.value.frames != [] then None else st.value.root
  }
}
