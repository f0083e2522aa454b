/** The tokenizer itself: a position that walks over the text, a token array that is filled on the way, and two
    small stacks that know for each nesting depth what may come next. */
module Cj5 {
  import opened Cj5Spec
  import opened Cj5Build
  import opened Cj5Read
  import opened Options

  datatype Error = NoError | Invalid | Incomplete | Overflow

  /** What may come next in the innermost container. */
  predicate Awaits(next: char, f: Frame) {
    var even := |f.children| % 2 == 0;
    if f.kind == Object then (if even then next == 'k' || next == ',' else next == ':' || next == 'v')
    else next == 'v' || next == ','
  }

  /** A value is being read for it. */
  predicate Waits(f: Frame) {
    f.kind == Object ==> |f.children| % 2 == 1
  }

  /** An ordinary character: it starts a key or a value. */
  predicate IsOther(c: char) {
    && c != '\n' && c != '\r' && c != '\t' && c != ' ' && c != '#' && c != '/' && c != '{' && c != '[' && c != '}'
    && c != ']'
    && c != ':' && c != ','
  }

  class Tokenizer {
    const json5: string
    const tokens: array<Token>
    var pos: int
    var error: Error
    var count: nat
    var curr: nat

    const nesting: array<char>
    const next: array<char>
    var depth: nat
    var token: int

    ghost var frames: seq<Frame>
    ghost var root: Option<Value>

    ghost predicate Fine()
      reads this`error
    {
      error.NoError? || error.Overflow?
    }

    /// Tokens

    /** Indices into the token array stay inside it. */
    ghost predicate Safe()
      reads this`curr, this`token, this`count, tokens
    {
      && (tokens.Length > 0 ==> curr < tokens.Length) && -1 <= token < tokens.Length && token < count && curr <= count
      && (forall i :: 0 <= i < count && i < tokens.Length ==> tokens[i].parent <= i)
    }

    /** The next token is written if there is room; it is counted in any case. */
    method AllocToken(t: Token) returns (at: int)
      requires t.parent == curr && Safe()
      modifies this`count, this`error, tokens
      ensures Safe() && count == old(count) + 1 && at == if old(count) < tokens.Length then old(count) else -1
      ensures old(count) < tokens.Length ==> error == old(error) && tokens[..] == old(tokens[..])[old(count) := t]
      ensures old(count) >= tokens.Length ==> error == Overflow && tokens[..] == old(tokens[..])
    {
      if count < tokens.Length {
        at := count;
        tokens[count] := t;
      } else {
        at := -1;
        error := Overflow;
      }
      count := count + 1;
    }

    /** The token of a leaf was written if there was room for it. */
    twostate predicate Took(v: Value)
      reads this`count, this`error, this`curr, this`token, tokens
    {
      && v.Leaf? && v.start <= v.end + 1 && count == old(count) + 1 && Safe()
      && (if old(count) < tokens.Length
          then error == old(error) && tokens[..]
            == old(tokens[..])[old(count) := Token(v.kind, v.start, v.end, v.end - v.start + 1, curr)]
          else error == Overflow)
    }

    /** A quoted string; the position moves to its closing quote. */
    method ParseString()
      requires Safe() && Fine() && 0 <= pos < |json5| && IsQuote(json5[pos])
      modifies this`pos, this`count, this`error, tokens
      ensures match StringEnd(json5, old(pos) + 1, json5[old(pos)])
              case None => !Fine()
              case Some(e) => Fine() && pos == e && Took(Leaf(String, old(pos) + 1, e - 1))
    {
      var first := pos;
      var quote := json5[first];
      pos := pos + 1;
      while pos < |json5|
        invariant first + 1 <= pos <= |json5| && StringEnd(json5, first + 1, quote) == StringEnd(json5, pos, quote)
        invariant count == old(count) && error == old(error) && tokens[..] == old(tokens[..]) && Safe()
        decreases |json5| - pos
      {
        var c := json5[pos];
        if quote == c {
          var _ := AllocToken(Token(String, first + 1, pos - 1, pos - 1 - (first + 1) + 1, curr));
          return;
        }
        if c == '\n' {
          error := Invalid;
          return;
        }
        if c == '\\' {
          if pos + 1 >= |json5| {
            error := Incomplete;
            return;
          }
          pos := pos + 1;
        }
        pos := pos + 1;
      }
      error := Incomplete;
    }

    /** `null` and `true` in any case. */
    method IsWordAt(at: nat, word: string) returns (r: bool)
      requires |word| == 4 && forall i :: 0 <= i < |word| ==> 'a' <= word[i] <= 'z'
      ensures r <==> IsWord(json5, at, word)
    {
      r := at + 3 < |json5| && Same(json5[at], word[0]) && Same(json5[at + 1], word[1]) && Same(json5[at + 2], word[2])
           && Same(json5[at + 3], word[3]);
    }

    /** The kind of a value that is not quoted; the position moves to its last character, or before the first one if
        there is none. */
    method Classify() returns (kind: Kind)
      requires Fine() && 0 <= pos < |json5|
      modifies this`pos, this`error
      ensures match BareAt(json5, old(pos))
              case Some(l) => error == old(error) && pos + 1 == l.resume && l.leaf == Leaf(kind, old(pos), pos)
              case None => Fine() ==> error == old(error) && pos == old(pos) - 1
    {
      hide NumberEnd;
      var first := pos;
      WordsDiffer(json5, first);
      var isNull := IsWordAt(first, "null");
      var isTrue := IsWordAt(first, "true");
      var isFals := IsWordAt(first, "fals");
      if isNull {
        kind := Null;
        pos := pos + 3;
      } else if isTrue {
        kind := Bool;
        pos := pos + 3;
      } else if isFals {
        kind := Bool;
        if first + 4 >= |json5| || !Same(json5[first + 4], 'e') {
          error := Invalid;
          return;
        }
        FalseWord(json5, first);
        pos := pos + 4;
      } else {
        kind := Number;
        ScanNumber();
      }
    }

    /** A value that is not a container. */
    method ParsePrimitive()
      requires Safe() && Fine() && 0 <= pos < |json5|
      modifies this`pos, this`count, this`error, tokens
      ensures match PrimitiveAt(json5, old(pos))
              case Some(l) => Fine() && pos + 1 == l.resume && Took(l.leaf)
              case None => Fine() ==> pos == old(pos) - 1 && Safe()
    {
      hide StringEnd, BareAt, Reads, Placed;
      var first := pos;
      if json5[first] == '\"' || json5[first] == '\'' {
        ParseString();
        return;
      }
      var sort := Classify();
      if !error.NoError? && !error.Overflow? { return; }
      var _ := AllocToken(Token(sort, first, pos, pos - first + 1, curr));
    }

    method ScanNumber()
      requires 0 <= pos < |json5|
      modifies this`pos
      ensures pos + 1 == NumberEnd(json5, old(pos))
    {
      while pos < |json5|
        invariant old(pos) <= pos <= |json5| && NumberEnd(json5, pos) == NumberEnd(json5, old(pos))
      {
        if !IsNumberChar(json5[pos]) { break; }
        pos := pos + 1;
      }
      pos := pos - 1;
    }

    /** A key, quoted or not. */
    method ParseKey()
      requires Safe() && Fine() && 0 <= pos < |json5|
      modifies this`pos, this`count, this`error, tokens
      ensures match KeyAt(json5, old(pos))
              case Some(l) => Fine() && pos + 1 == l.resume && Took(l.leaf)
              case None => !Fine()
    {
      hide StringEnd, IsLexeme;
      var first := pos;
      if json5[first] == '\"' || json5[first] == '\'' {
        ParseString();
        return;
      }
      while pos < |json5|
        invariant first <= pos <= |json5| && (first < pos ==> IsKeyStart(json5[first]))
        invariant NameEnd(json5, pos) == NameEnd(json5, first)
        invariant count == old(count) && error == old(error) && tokens[..] == old(tokens[..]) && Safe()
        decreases |json5| - pos
      {
        if !IsKeyStart(json5[pos]) && !(IsDigit(json5[pos]) && pos != first) { break; }
        pos := pos + 1;
      }
      if pos <= first {
        error := Invalid;
        return;
      }
      pos := pos - 1;
      var _ := AllocToken(Token(String, first, pos, pos - first + 1, curr));
    }

    method SkipLine()
      requires 0 <= pos <= |json5|
      modifies this`pos
      ensures old(pos) - 1 <= pos && Within(pos + 1) == LineEnd(json5, old(pos))
      ensures old(pos) < |json5| && json5[old(pos)] != '\n' ==> old(pos) <= pos
    {
      while pos < |json5|
        invariant old(pos) <= pos <= |json5| && LineEnd(json5, pos) == LineEnd(json5, old(pos))
      {
        if json5[pos] == '\n' {
          pos := pos - 1;
          return;
        }
        pos := pos + 1;
      }
    }

    /** A position behind the text counts as its end. */
    ghost function Within(p: int): nat {
      if p > |json5| then |json5| else if p < 0 then 0 else p
    }

    /** A comment; the position moves to its last character. */
    method SkipComment()
      requires Fine() && 0 <= pos < |json5| && (json5[pos] == '#' || json5[pos] == '/')
      modifies this`pos, this`error
      ensures match CommentEnd(json5, old(pos))
              case Some(q) => error == old(error) && pos >= old(pos) && Within(pos + 1) == q
              case None => !Fine()
    {
      if json5[pos] == '#' {
        SkipLine();
        return;
      }
      if pos + 1 >= |json5| {
        error := Invalid;
        return;
      }
      pos := pos + 1;
      if json5[pos] == '/' {
        SkipLine();
        return;
      }
      if json5[pos] == '*' {
        pos := pos + 1;
        while pos + 1 < |json5|
          invariant old(pos) + 2 <= pos && error == old(error) && BlockEnd(json5, pos) == BlockEnd(json5, old(pos) + 2)
          decreases |json5| - pos
        {
          if json5[pos] == '*' && json5[pos + 1] == '/' {
            pos := pos + 1;
            return;
          }
          pos := pos + 1;
        }
      }
      error := Incomplete;
    }

    /// The state between characters

    /** The values found so far stand for text before `limit`. */
    ghost predicate ReadUpTo(limit: int)
      reads this`frames, this`root
    {
      && FramesPlaced(frames, limit) && FramesRead(json5, frames)
      && (root.Some? ==> Placed(root.value) && Reads(json5, root.value))
    }

    /** The stacks belong to the open containers, the values to the text, and as long as there was room the token
        array lists the values. */
    ghost predicate Inv(limit: int)
      reads this`error, this`count, this`curr, this`token, this`depth, this`frames, this`root, tokens, nesting, next
    {
      && Fine() && Safe() && ReadUpTo(limit) && nesting != next && depth == |frames| && count == Tally(frames, root)
      && Controls(nesting[..], next[..], frames, root)
      && (error.NoError? ==> Lists(tokens[..], count, curr, token, frames, root))
      && (error.Overflow? ==> count > tokens.Length)
    }

    /** The state of the machine. */
    ghost function View(): State
      reads this`frames, this`root, this`depth, next
    {
      State(frames, if depth < next.Length then next[depth] else NUL, root)
    }

    /** The move of the machine was made, or an error was found. */
    ghost predicate Made(m: Move)
      reads this, tokens, nesting, next
    {
      match m
      case Refused => !Fine()
      case Moved(q, st) => Fine() && Inv(pos + 1) && Within(pos + 1) == q && View() == st
    }

    /** An opening bracket. */
    method OpenContainer(c: char)
      requires 0 <= pos < |json5| && c == json5[pos] && (c == '{' || c == '[') && Inv(pos)
      modifies this`error, this`count, this`curr, this`depth, this`token, this`frames, tokens, nesting, next
      ensures Made(Bracket(old(pos), c, old(View())))
    {
      hide FramesPlaced, FramesRead, Controls, Lists, Placed, Reads, Safe, Tally;
      ControlBounds(nesting[..], next[..], frames, root);
      hide Awaits;
      if depth + 1 >= MAX_NESTING {
        error := Invalid;
        return;
      }
      if next[depth] != 'v' {
        error := Invalid;
        return;
      }
      ghost var kind := if c == '{' then Object else Array;
      OpenPlaced(json5, frames, kind, pos);
      ControlOpens(nesting[..], next[..], frames, root, kind, pos);
      if error.NoError? { ListOpens(tokens[..], count, curr, token, frames, root, kind, pos); }
      TallyOpens(frames, kind, pos);
      PushLevel(c);
      AddContainer(c);
      frames := frames + [Frame(kind, pos, [])];
    }

    method PushLevel(c: char)
      requires depth + 1 < MAX_NESTING == nesting.Length == next.Length && nesting != next
      modifies this`depth, nesting, next
      ensures depth == old(depth) + 1 && nesting[..] == old(nesting[..])[depth := c]
      ensures next[..] == old(next[..])[depth := if c == '{' then 'k' else 'v']
    {
      depth := depth + 1;
      nesting[depth] := c;
      next[depth] := if c == '{' then 'k' else 'v';
    }

    /** Creates the token of a container and makes it the current one. */
    method AddContainer(c: char)
      requires Safe() && pos >= 0
      modifies this`error, this`count, this`curr, this`token, tokens
      ensures Safe() && count == old(count) + 1
      ensures if old(count) < tokens.Length
              then error == old(error) && token == curr == old(count)
                   && tokens[..] == old(tokens[..])[old(count) := Token(if c == '{' then Object else Array, pos, 0, 0,
                                                            old(curr))]
              else error == Overflow
    {
      var at := AllocToken(Token(if c == '{' then Object else Array, pos, 0, 0, curr));
      token := at;
      if at >= 0 { curr := at; }
    }

    /** Completes the current container's token and counts it in its parent. */
    method FinishToken()
      requires Safe()
      modifies this`curr, this`token, tokens
      ensures Safe()
      ensures old(token) >= 0 ==>
                var t := old(tokens[token]);
                var ts := old(tokens[..])[old(token) := t.(end := pos)];
                if old(curr) != t.parent then
                  && t.parent < tokens.Length && curr == token == t.parent
                  && tokens[..] == ts[t.parent := ts[t.parent].(size := ts[t.parent].size + 1)]
                else curr == old(curr) && token == old(token) && tokens[..] == ts
    {
      if token >= 0 {
        tokens[token] := tokens[token].(end := pos);
        if curr != tokens[token].parent {
          curr := tokens[token].parent;
          token := curr;
          tokens[token] := tokens[token].(size := tokens[token].size + 1);
        }
      }
    }

    method SetNext(c: char)
      requires depth < next.Length
      modifies next
      ensures next[..] == old(next[..])[depth := c]
    {
      next[depth] := c;
    }

    /** A closing bracket. */
    method CloseContainer(c: char)
      requires 0 <= pos < |json5| && c == json5[pos] && (c == '}' || c == ']') && Inv(pos)
      modifies this`error, this`curr, this`depth, this`token, this`frames, this`root, tokens, next
      ensures Made(Bracket(old(pos), c, old(View())))
    {
      hide FramesPlaced, FramesRead, Controls, Lists, Placed, Reads, Safe, Tally;
      ControlBounds(nesting[..], next[..], frames, root);
      if depth == 0 {
        error := Invalid;
        return;
      }
      Brackets(json5, frames, c);
      if c as int - nesting[depth] as int != 2 || (c == '}' && next[depth] != 'k' && next[depth] != ',') {
        error := Invalid;
        return;
      }
      Complete();
    }

    /** The innermost container is complete at the current position. */
    method Complete()
      requires 0 <= pos < |json5| && depth > 0 && Inv(pos) && json5[pos] == CloseBracket(Top(frames).kind)
      requires Top(frames).kind == Object ==> |Top(frames).children| % 2 == 0
      modifies this`curr, this`depth, this`token, this`frames, this`root, tokens, next
      ensures Inv(pos + 1)
      ensures View() == With(State(old(Rest(frames)), NUL, None),
                             Tree(old(Top(frames)).kind, old(Top(frames)).start, pos, old(Top(frames)).children))
    {
      hide FramesPlaced, FramesRead, Controls, Lists, Placed, Reads, Safe, Awaits, Tally;
      ControlBounds(nesting[..], next[..], frames, root);
      ghost var f := Top(frames);
      ghost var v := Tree(f.kind, f.start, pos, f.children);
      CloseReads(json5, frames, pos);
      ControlCloses(nesting[..], next[..], frames, root, v);
      ClosePlaced(json5, frames, v, pos);
      TallyCloses(frames, root, v);
      if error.NoError? { ListCloses(tokens[..], count, curr, token, frames, root, pos); }
      FinishToken();
      depth := depth - 1;
      SetNext(if depth == 0 then NUL else ',');
      if depth == 0 {
        frames, root := [], Some(v);
      } else {
        frames := Grow(Rest(frames), v);
      }
    }

    /// Separators

    method Colon()
      requires 0 <= pos < |json5| && Inv(pos)
      modifies this`error, next
      ensures Made(Separator(old(pos), ':', old(View())))
    {
      hide FramesPlaced, FramesRead, Controls, Lists, Placed, Reads, Safe;
      ControlBounds(nesting[..], next[..], frames, root);
      if next[depth] != ':' {
        error := Invalid;
        return;
      }
      FramesLater(frames, pos, pos + 1);
      ControlNext(nesting[..], next[..], frames, root, 'v');
      SetNext('v');
    }

    method Comma()
      requires 0 <= pos < |json5| && Inv(pos)
      modifies this`error, next
      ensures Made(Separator(old(pos), ',', old(View())))
    {
      hide FramesPlaced, FramesRead, Controls, Lists, Placed, Reads, Safe;
      ControlBounds(nesting[..], next[..], frames, root);
      if next[depth] != ',' {
        error := Invalid;
        return;
      }
      FramesLater(frames, pos, pos + 1);
      ControlNext(nesting[..], next[..], frames, root, if nesting[depth] == '{' then 'k' else 'v');
      SetNext(if nesting[depth] == '{' then 'k' else 'v');
    }

    method Blank()
      requires 0 <= pos < |json5| && Inv(pos)
      ensures Made(Moved(pos + 1, View()))
    {
      FramesLater(frames, pos, pos + 1);
      hide FramesPlaced, FramesRead, Controls, Lists, Placed, Reads, Safe, Tally;
    }

    method Comment()
      requires 0 <= pos < |json5| && Inv(pos) && (json5[pos] == '#' || json5[pos] == '/')
      modifies this`pos, this`error
      ensures Fine() ==> pos >= old(pos)
      ensures match CommentEnd(json5, old(pos))
              case Some(q) => Made(Moved(q, old(View())))
              case None => Made(Refused)
    {
      hide FramesPlaced, FramesRead, Controls, Lists, Placed, Reads, Safe, Tally, CommentEnd;
      SkipComment();
      if error.NoError? || error.Overflow? { FramesLater(frames, old(pos), pos + 1); }
    }

    /// Keys and values

    method CountChild()
      requires Safe()
      modifies tokens
      ensures Safe()
      ensures tokens[..] == if token >= 0
              then old(tokens[..])[token := old(tokens[token]).(size := old(tokens[token]).size + 1)]
                            else old(tokens[..])
    {
      if token >= 0 { tokens[token] := tokens[token].(size := tokens[token].size + 1); }
    }

    /** No value was found at the character `at`, and none is expected there any more: it is read again and
        refused. */
    ghost predicate Jammed(at: int)
      reads this`error, this`count, this`curr, this`token, this`depth, tokens, next
    {
      && Fine() && Safe() && depth < next.Length && next[depth] != 'v' && next[depth] != 'k'
      && 0 <= at < |json5| && IsOther(json5[at])
    }

    /** A leaf becomes the next child of the innermost container, or the root. */
    method AddLeaf(ghost v: Value, limit: int, n: char, ghost before: seq<Token>)
      requires v.Leaf? && Placed(v) && Reads(json5, v) && Last(v) < limit && count > 0
      requires Fine() && Safe() && ReadUpTo(v.start) && nesting != next && depth == |frames|
      requires Controls(nesting[..], next[..], frames, root) && root.None? && |before| == tokens.Length
      requires count == Tally(frames, root) + 1 && (error.Overflow? ==> count > tokens.Length)
      requires depth > 0 ==> AwaitsAfter(n, Top(frames), v)
      requires depth == 0 ==> next[0] == 'v' && n == NUL
      requires error.NoError? ==>
                 && count <= tokens.Length && Lists(before, count - 1, curr, token, frames, root)
                 && tokens[..] == before[count - 1 := Token(v.kind, v.start, v.end, v.end - v.start + 1, curr)]
      modifies this`frames, this`root, tokens, next
      ensures Inv(limit)
      ensures View() == if depth == 0 then State([], n, Some(v)) else State(Grow(old(frames), v), n, None)
    {
      hide FramesPlaced, FramesRead, Controls, Lists, Placed, Reads, Safe, Awaits, Tally;
      ControlBounds(nesting[..], next[..], frames, root);
      LeafPlaced(json5, frames, v, limit);
      ControlLeaf(nesting[..], next[..], frames, root, v, n);
      if error.NoError? { ListLeaf(before, count - 1, curr, token, frames, v); }
      TallyGrows(frames, v);
      if nesting[depth] != NUL { CountChild(); }
      SetNext(n);
      if depth == 0 {
        root := Some(v);
      } else {
        frames := Grow(frames, v);
      }
    }

    /** A value where one is expected. */
    method Primitive()
      requires 0 <= pos < |json5| && Inv(pos) && IsOther(json5[pos]) && next[depth] == 'v'
      modifies this`pos, this`error, this`count, this`frames, this`root, tokens, next
      ensures match PrimitiveAt(json5, old(pos))
              case Some(l) => Made(Moved(l.resume, With(old(View()), l.leaf))) && pos >= old(pos)
              case None => Fine() ==> Jammed(pos + 1) && pos + 1 == old(pos)
    {
      hide FramesPlaced, FramesRead, Controls, Lists, Placed, Reads, Safe, Tally, PrimitiveAt;
      ControlBounds(nesting[..], next[..], frames, root);
      var at := pos;
      ghost var l := PrimitiveAt(json5, pos);
      ghost var before := tokens[..];
      ParsePrimitive();
      if !error.NoError? && !error.Overflow? { return; }
      var n := if nesting[depth] != NUL then ',' else NUL;
      if pos < at {
        if nesting[depth] != NUL { CountChild(); }
        SetNext(n);
        return;
      }
      FramesLater(frames, at, l.value.leaf.start);
      AddLeaf(l.value.leaf, pos + 1, n, before);
    }

    /** A key where one is expected. */
    method Key()
      requires 0 <= pos < |json5| && Inv(pos) && next[depth] == 'k'
      modifies this`pos, this`error, this`count, this`frames, this`root, tokens, next
      ensures frames == old(frames) || frames != []
      ensures match KeyAt(json5, old(pos))
              case Some(l) => old(frames) != [] && Made(Moved(l.resume, State(Grow(old(frames), l.leaf), ':', None)))
                && pos >= old(pos)
              case None => Made(Refused)
    {
      hide FramesPlaced, FramesRead, Controls, Lists, Placed, Reads, Safe, Tally, KeyAt;
      ControlBounds(nesting[..], next[..], frames, root);
      var at := pos;
      ghost var l := KeyAt(json5, pos);
      ghost var before := tokens[..];
      ParseKey();
      if !error.NoError? && !error.Overflow? { return; }
      FramesLater(frames, at, l.value.leaf.start);
      AddLeaf(l.value.leaf, pos + 1, ':', before);
    }

    /// The loop

    /** One round at the current character. */
    method Step()
      requires 0 <= pos < |json5| && (Inv(pos) || Jammed(pos))
      modifies this, tokens, nesting, next
      ensures old(Jammed(pos)) ==> !Fine()
      ensures old(Inv(pos)) ==>
                var m := Cj5Read.Step(json5, old(pos), old(View()));
                if m.Moved? then Made(m) && pos >= old(pos) else Fine() ==> Jammed(pos + 1) && pos + 1 == old(pos)
    {
      JamIsOther();
      hide Inv, Jammed, CommentEnd, Bracket, Separator, WordAt, View;
      var c := json5[pos];
      if c == '\n' || c == '\r' || c == '\t' || c == ' ' {
        Blank();
      } else if c == '#' || c == '/' {
        Comment();
      } else if c == '{' || c == '[' {
        OpenContainer(c);
      } else if c == '}' || c == ']' {
        CloseContainer(c);
      } else if c == ':' {
        Colon();
      } else if c == ',' {
        Comma();
      } else {
        KeyOrValue();
      }
    }

    lemma JamIsOther()
      ensures Jammed(pos) ==> 0 <= pos < |json5| && IsOther(json5[pos])
    {
    }

    method KeyOrValue()
      requires 0 <= pos < |json5| && (Inv(pos) || Jammed(pos)) && IsOther(json5[pos])
      modifies this, tokens, nesting, next
      ensures old(Jammed(pos)) ==> !Fine()
      ensures old(Inv(pos)) ==>
                var m := WordAt(json5, old(pos), old(View()));
                if m.Moved? then Made(m) && pos >= old(pos) else Fine() ==> Jammed(pos + 1) && pos + 1 == old(pos)
    {
      if Inv(pos) { ControlBounds(nesting[..], next[..], frames, root); }
      assert depth < next.Length && (next[depth] == 'v' || next[depth] == 'k' ==> Inv(pos) && !Jammed(pos));
      hide Inv, Jammed, PrimitiveAt, KeyAt;
      if next[depth] == 'v' {
        Primitive();
      } else if next[depth] == 'k' {
        Key();
      } else {
        error := Invalid;
      }
    }

    constructor (json5: string, tokens: array<Token>)
      ensures this.json5 == json5 && this.tokens == tokens && pos == 0 && Inv(0) && fresh(nesting) && fresh(next)
      ensures root.None? && depth == 0 && error == NoError
    {
      this.json5, this.tokens := json5, tokens;
      pos, error, count, curr := 0, NoError, 0, 0;
      var a, b := new char[MAX_NESTING], new char[MAX_NESTING];
      a[0], b[0] := NUL, 'v';
      nesting, next, depth, token := a, b, 0, -1;
      frames, root := [], None;
    }

    /** Reads the whole text: the result is an error exactly if the text is not that of one value, and otherwise the
        tokens are the listing of its value. Without room for them their number is still returned. */
    method Parse() returns (result: Error, num: nat)
      requires pos == 0 && Inv(0) && View() == INITIAL
      modifies this, tokens, nesting, next
      ensures match Read(json5)
              case None => result == Invalid || result == Incomplete
              case Some(v) =>
                && Placed(v) && Sized(v) && Reads(json5, v) && num == Count(v)
                && result == (if num <= tokens.Length then NoError else Overflow)
                && (num <= tokens.Length ==> tokens[..num] == Tokens(v, 0, 0))
    {
      hide Inv, Jammed, Run, Cj5Read.Step;
      ghost var jam := false;
      while pos < |json5|
        invariant 0 <= pos && (if jam then Jammed(pos) && pos < |json5| && Read(json5) == None else Inv(pos))
        invariant !jam ==> Run(json5, Within(pos), View()) == Run(json5, 0, INITIAL)
        decreases |json5| - pos, if jam then 0 else 1
      {
        ghost var at, st := pos, View();
        if !jam { RunStep(json5, pos, st); }
        Step();
        if !error.NoError? && !error.Overflow? { return error, count; }
        jam := jam || Cj5Read.Step(json5, at, st).Refused?;
        pos := pos + 1;
      }
      RunEnds(json5, View());
      result, num := Finish(pos);
    }

    /** The end of the text. */
    method Finish(ghost limit: int) returns (result: Error, num: nat)
      requires Inv(limit)
      ensures if frames != [] || root.None? then result == Incomplete
              else
                var v := root.value;
                && Placed(v) && Sized(v) && Reads(json5, v) && num == Count(v)
                && result == (if num <= tokens.Length then NoError else Overflow)
                && (num <= tokens.Length ==> tokens[..num] == Tokens(v, 0, 0))
    {
      hide FramesPlaced, FramesRead, Controls, Reads, Safe, Tokens, Sized;
      RootIsSized(root);
      if depth != 0 { return Incomplete, count; }
      if count == 0 { return Incomplete, 0; }
      result, num := error, count;
    }
  }

  lemma RootIsSized(root: Option<Value>)
    ensures root.Some? && Placed(root.value) ==> Sized(root.value)
  {
    if root.Some? && Placed(root.value) { PlacedIsSized(root.value); }
  }

  /// The number of tokens

  /** How many tokens the open containers or the complete value take. */
  function Tally(frames: seq<Frame>, root: Option<Value>): nat {
    if root.Some? then Count(root.value) else FrameCount(frames)
  }

  function FrameCount(frames: seq<Frame>): nat {
    if frames == [] then 0 else FrameCount(Rest(frames)) + 1 + CountAll(Top(frames).children)
  }

  lemma TallyOpens(frames: seq<Frame>, kind: Kind, start: nat)
    ensures Tally(frames + [Frame(kind, start, [])], None) == Tally(frames, None) + 1
  {
    SnocFrames(frames, Frame(kind, start, []));
  }

  lemma TallyGrows(frames: seq<Frame>, v: Value)
    ensures frames != [] ==> Tally(Grow(frames, v), None) == Tally(frames, None) + Count(v)
    ensures Tally([], Some(v)) == Tally([], None) + Count(v)
  {
    if frames != [] {
      SizedSnoc(Top(frames).children, v);
      SnocFrames(Rest(frames), Top(frames).(children := Top(frames).children + [v]));
    }
  }

  lemma TallyCloses(frames: seq<Frame>, root: Option<Value>, v: Value)
    requires frames != [] && root.None? && v.Tree? && v.children == Top(frames).children
    ensures |frames| > 1 ==> Tally(Grow(Rest(frames), v), None) == Tally(frames, root)
    ensures |frames| == 1 ==> Tally([], Some(v)) == Tally(frames, root)
  {
    TallyGrows(Rest(frames), v);
  }

  /** What may come behind `v` as the next child. */
  predicate AwaitsAfter(n: char, f: Frame, v: Value) {
    && Awaits(n, f.(children := f.children + [v]))
    && (f.kind == Object && |f.children| % 2 == 0 ==> v.Leaf? && v.kind == String)
  }

  lemma LeafPlaced(s: string, frames: seq<Frame>, v: Value, limit: int)
    requires FramesPlaced(frames, v.start) && FramesRead(s, frames) && Placed(v) && Reads(s, v) && Last(v) < limit
    requires frames != []
             ==> Top(frames).kind == Object && |Top(frames).children| % 2 == 0 ==> v.Leaf? && v.kind == String
    ensures frames != [] ==> FramesPlaced(Grow(frames, v), limit) && FramesRead(s, Grow(frames, v))
    ensures frames == [] ==> FramesPlaced(frames, limit)
  {
    if frames != [] { GrowPlaced(s, frames, v, limit); }
  }

  lemma Brackets(s: string, frames: seq<Frame>, c: char)
    requires frames != [] && FramesRead(s, frames) && (c == '}' || c == ']')
    ensures c as int - OpenBracket(Top(frames).kind) as int == 2 <==> Top(frames).kind == KindOf(c)
    ensures Top(frames).kind == KindOf(c) ==> c == CloseBracket(Top(frames).kind)
  {
    assert FrameReads(s, frames[|frames| - 1]);
  }

  /** What is left open when the innermost container is complete. */
  lemma ClosePlaced(s: string, frames: seq<Frame>, v: Value, end: nat)
    requires frames != [] && FramesPlaced(Rest(frames), v.start) && FramesRead(s, Rest(frames)) && Placed(v)
             && Reads(s, v)
    requires Last(v) == end && (|frames| > 1 ==> Waits(Top(Rest(frames))))
    ensures |frames| > 1 ==> FramesPlaced(Grow(Rest(frames), v), end + 1) && FramesRead(s, Grow(Rest(frames), v))
    ensures FramesPlaced([], end + 1) && FramesRead(s, [])
  {
    if |frames| > 1 { GrowPlaced(s, Rest(frames), v, end + 1); }
  }

  /// The stacks

  ghost predicate Controls(nesting: seq<char>, next: seq<char>, frames: seq<Frame>, root: Option<Value>) {
    var d := |frames|;
    && |nesting| == |next| == MAX_NESTING && d < MAX_NESTING && nesting[0] == NUL
    && (forall i :: 0 <= i < d ==> nesting[i + 1] == OpenBracket(frames[i].kind))
    && (forall i :: 0 <= i < d ==> next[i] == 'v') && (forall i :: 0 <= i < d - 1 ==> Waits(frames[i]))
    && (if d > 0 then Awaits(next[d], frames[d - 1]) && root.None?
        else next[0] == if root.None? then 'v' else NUL)
  }

  lemma ControlBounds(nesting: seq<char>, next: seq<char>, frames: seq<Frame>, root: Option<Value>)
    requires Controls(nesting, next, frames, root)
    ensures var d := |frames|;
            && |nesting| == |next| == MAX_NESTING && d < MAX_NESTING && (d == 0 <==> nesting[d] == NUL)
            && (d > 0 ==> nesting[d] == OpenBracket(Top(frames).kind) && Awaits(next[d], Top(frames)) && root.None?)
            && (next[d] == 'v' ==> root.None?) && (d == 0 ==> next[0] == 'v' || next[0] == NUL)
  {
  }

  lemma ControlOpens(nesting: seq<char>, next: seq<char>, frames: seq<Frame>, root: Option<Value>, kind: Kind,
                     start: nat)
    requires Controls(nesting, next, frames, root) && |frames| + 1 < MAX_NESTING && next[|frames|] == 'v'
    requires kind == Object || kind == Array
    ensures var d := |frames| + 1;
            Controls(nesting[d := OpenBracket(kind)], next[d := if kind == Object then 'k' else 'v'],
                     frames + [Frame(kind, start, [])], None)
  {
  }

  lemma ControlCloses(nesting: seq<char>, next: seq<char>, frames: seq<Frame>, root: Option<Value>, v: Value)
    requires Controls(nesting, next, frames, root) && frames != []
    ensures |frames| > 1 ==>
              && Waits(Top(Rest(frames)))
              && Controls(nesting, next[|frames| - 1 := ','], Grow(Rest(frames), v), None)
    ensures |frames| == 1 ==> Controls(nesting, next[0 := NUL], [], Some(v))
  {
    if |frames| > 1 {
      var g := Grow(Rest(frames), v);
      assert forall i :: 0 <= i < |frames| - 2 ==> g[i] == frames[i];
      assert Waits(frames[|frames| - 2]);
    }
  }

  lemma ControlNext(nesting: seq<char>, next: seq<char>, frames: seq<Frame>, root: Option<Value>, n: char)
    requires Controls(nesting, next, frames, root) && frames != [] && Awaits(n, Top(frames))
    ensures Controls(nesting, next[|frames| := n], frames, root)
  {
  }

  lemma ControlLeaf(nesting: seq<char>, next: seq<char>, frames: seq<Frame>, root: Option<Value>, v: Value, n: char)
    requires Controls(nesting, next, frames, root) && root.None?
    ensures frames != [] && AwaitsAfter(n, Top(frames), v)
            ==> Controls(nesting, next[|frames| := n], Grow(frames, v), None)
    ensures frames == [] && n == NUL ==> Controls(nesting, next[0 := n], [], Some(v))
  {
    if frames != [] {
      var g := Grow(frames, v);
      assert forall i :: 0 <= i < |frames| - 1 ==> g[i] == frames[i];
    }
  }

  /// The listing

  ghost predicate Lists(tokens: seq<Token>, count: nat, curr: nat, token: int, frames: seq<Frame>,
                        root: Option<Value>) {
    && FramesSized(frames) && count <= |tokens|
    && match root
       case Some(v) => frames == [] && Sized(v) && tokens[..count] == Tokens(v, 0, 0)
       case None =>
         && tokens[..count] == OpenTokens(frames) && curr == Index(frames)
         && (frames != [] ==> token == Index(frames))
  }

  lemma ListOpens(tokens: seq<Token>, count: nat, curr: nat, token: int, frames: seq<Frame>, root: Option<Value>,
                  kind: Kind, start: nat)
    requires Lists(tokens, count, curr, token, frames, root) && root.None?
    ensures count < |tokens| ==>
              Lists(tokens[count := Token(kind, start, 0, 0, curr)], count + 1, count, count,
                    frames + [Frame(kind, start, [])], None)
  {
    OpenAppends(frames, kind, start);
    hide OpenTokens, Index, FramesSized;
    if count < |tokens| {
      assert tokens[count := Token(kind, start, 0, 0, curr)][..count + 1]
             == tokens[..count] + [Token(kind, start, 0, 0, curr)];
    }
  }

  lemma ListCloses(tokens: seq<Token>, count: nat, curr: nat, token: int, frames: seq<Frame>, root: Option<Value>,
                   end: int)
    requires Lists(tokens, count, curr, token, frames, root) && root.None? && frames != []
    ensures 0 <= token < count <= |tokens|
    ensures var f, t := Top(frames), tokens[token];
            var v := Tree(f.kind, f.start, end, f.children);
            var ts := tokens[token := t.(end := end)];
            if |frames| > 1 then
              && curr != t.parent && t.parent < |tokens|
              && Lists(ts[t.parent := ts[t.parent].(size := ts[t.parent].size + 1)], count, t.parent, t.parent,
                       Grow(Rest(frames), v), None)
            else curr == t.parent && Lists(ts, count, curr, token, [], Some(v))
  {
    IndexInside(frames);
    CloseCompletes(frames, end);
    if |frames| == 1 { RootIndex(frames); }
    hide OpenTokens, Index, FramesSized, Tokens, Sized;
    var open, i := OpenTokens(frames), Index(frames);
    assert open == tokens[..count] && open[i] == tokens[i];
    Prefixes(tokens, count, i, Index(Rest(frames)), end);
  }

  lemma RootIndex(frames: seq<Frame>)
    requires FramesSized(frames) && |frames| == 1
    ensures Index(frames) == 0 && Index(Rest(frames)) == 0 && FramesSized([])
  {
  }

  lemma Prefixes(tokens: seq<Token>, count: nat, i: nat, p: nat, end: int)
    requires i < count <= |tokens| && p < count
    ensures var a, b := tokens[..count][i := tokens[i].(end := end)], tokens[i := tokens[i].(end := end)];
            && b[..count] == a && b[p] == a[p]
            && b[p := b[p].(size := b[p].size + 1)][..count] == a[p := a[p].(size := a[p].size + 1)]
  {
  }

  lemma ListLeaf(tokens: seq<Token>, count: nat, curr: nat, token: int, frames: seq<Frame>, v: Value)
    requires Lists(tokens, count, curr, token, frames, None) && count < |tokens| && v.Leaf? && Placed(v)
    ensures var ts := tokens[count := Token(v.kind, v.start, v.end, v.end - v.start + 1, curr)];
            if frames == [] then Lists(ts, count + 1, curr, token, [], Some(v))
            else
              && 0 <= token < |ts|
              && Lists(ts[token := ts[token].(size := ts[token].size + 1)], count + 1, curr, token,
                       Grow(frames, v), None)
  {
    var t := Token(v.kind, v.start, v.end, v.end - v.start + 1, curr);
    assert Sized(v) && Tokens(v, count, curr) == [t];
    if frames == [] {
      assert OpenTokens(frames) == [] && count == 0;
      assert tokens[count := t][..1] == [t];
    } else {
      GrowAppends(frames, v);
      hide OpenTokens, Index, FramesSized, Tokens, Sized;
      LeafPieces(tokens, count, token, t);
    }
  }

  lemma LeafPieces(tokens: seq<Token>, count: nat, i: nat, t: Token)
    requires i < count < |tokens|
    ensures var ts := tokens[count := t];
            ts[i := ts[i].(size := ts[i].size + 1)][..count + 1] ==
            tokens[..count][i := tokens[..count][i].(size := tokens[..count][i].size + 1)] + [t]
  {
  }

  lemma FalseWord(s: string, at: nat)
    requires IsWord(s, at, "fals") && at + 4 < |s| && Same(s[at + 4], 'e')
    ensures IsWord(s, at, "false")
  {
    assert forall i :: 0 <= i < 4 ==> "false"[i] == "fals"[i];
  }

  /** The words exclude each other. */
  lemma WordsDiffer(s: string, at: nat)
    ensures IsWord(s, at, "null") || IsWord(s, at, "true") ==> !IsWord(s, at, "fals")
    ensures IsWord(s, at, "false") ==> at + 4 < |s| && Same(s[at + 4], 'e') && IsWord(s, at, "fals")
  {
    if at + 3 < |s| {
      var c := s[at];
      assert IsWord(s, at, "null") ==> Same(s[at + 0], "null"[0]);
      assert IsWord(s, at, "true") ==> Same(s[at + 0], "true"[0]);
      assert IsWord(s, at, "fals") ==> Same(s[at + 0], "fals"[0]);
    }
    if IsWord(s, at, "false") {
      assert Same(s[at + 4], "false"[4]);
      assert forall i :: 0 <= i < 4 ==> "fals"[i] == "false"[i];
    }
  }
}
