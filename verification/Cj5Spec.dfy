/** The token array of the JSON5 tokenizer as the preorder listing of a tree. */
module Cj5Spec {

  datatype Kind = Object | Array | Number | String | Bool | Null

  /** `end` is the position of the last character; an empty string ends before it starts. */
  datatype Token = Token(kind: Kind, start: nat, end: int, size: nat, parent: nat)

  datatype Value =
    | Leaf(kind: Kind, start: nat, end: int)
    | Tree(kind: Kind, start: nat, end: int, children: seq<Value>)

  /// The listing

  function Count(v: Value): (n: nat)
    ensures n >= 1
    decreases v, 1
  {
    match v
    case Leaf(_, _, _) => 1
    case Tree(_, _, _, children) => 1 + CountAll(children)
  }

  function CountAll(vs: seq<Value>): nat
    decreases vs, 0
  {
    if vs == [] then 0 else CountAll(vs[..|vs| - 1]) + Count(vs[|vs| - 1])
  }

  /** The tokens of `v` when its own token has the index `at`. */
  function Tokens(v: Value, at: nat, parent: nat): (ts: seq<Token>)
    requires Sized(v)
    ensures |ts| == Count(v)
    decreases v, 1
  {
    match v
    case Leaf(kind, start, end) => [Token(kind, start, end, end - start + 1, parent)]
    case Tree(kind, start, end, children) =>
      [Token(kind, start, end, |children|, parent)] + ListTokens(children, at + 1, at)
  }

  /** The tokens of siblings, the first of which has the index `at`. */
  function ListTokens(vs: seq<Value>, at: nat, parent: nat): (ts: seq<Token>)
    requires AllSized(vs)
    ensures |ts| == CountAll(vs)
    decreases vs, 0
  {
    if vs == [] then []
    else
      var init, last := vs[..|vs| - 1], vs[|vs| - 1];
      ListTokens(init, at, parent) + Tokens(last, at + CountAll(init), parent)
  }

  predicate Sized(v: Value)
    decreases v, 1
  {
    match v
    case Leaf(_, start, end) => start <= end + 1
    case Tree(_, _, _, children) => AllSized(children)
  }

  predicate AllSized(vs: seq<Value>)
    decreases vs, 0
  {
    vs == [] || (AllSized(vs[..|vs| - 1]) && Sized(vs[|vs| - 1]))
  }

  /// Ranges

  /** Children lie strictly inside their parent and one behind the other. */
  predicate Placed(v: Value)
    decreases v, 1
  {
    match v
    case Leaf(_, start, end) => start <= end + 1
    case Tree(_, start, end, children) => start < end && AllPlaced(children, start, end)
  }

  predicate AllPlaced(vs: seq<Value>, lo: int, hi: int)
    decreases vs, 0
  {
    vs == [] ||
    (var init, last := vs[..|vs| - 1], vs[|vs| - 1];
     AllPlaced(init, lo, hi) && Placed(last) && LastOf(init, lo) < last.start && Last(last) < hi)
  }

  /** The last position of a value; an empty string still has its closing quote. */
  function Last(v: Value): int {
    if v.end < v.start then v.start else v.end
  }

  /** The last position of the last sibling, or the bound before the first. */
  function LastOf(vs: seq<Value>, lo: int): int {
    if vs == [] then lo else Last(vs[|vs| - 1])
  }

  lemma {:induction false} PlacedIsSized(v: Value)
    requires Placed(v)
    ensures Sized(v)
    decreases v, 1
  {
    if v.Tree? { AllPlacedIsSized(v.children, v.start, v.end); }
  }

  lemma {:induction false} AllPlacedIsSized(vs: seq<Value>, lo: int, hi: int)
    requires AllPlaced(vs, lo, hi)
    ensures AllSized(vs)
    decreases vs, 0
  {
    if vs != [] {
      AllPlacedIsSized(vs[..|vs| - 1], lo, hi);
      PlacedIsSized(vs[|vs| - 1]);
    }
  }

  /// Facts about the listing

  /** The value whose token is the `i`-th of the listing. */
  function At(v: Value, i: nat): Value
    requires i < Count(v)
    decreases v, 1
  {
    if i == 0 then v else ListAt(v.children, i - 1)
  }

  function ListAt(vs: seq<Value>, i: nat): Value
    requires i < CountAll(vs)
    decreases vs, 0
  {
    var init, last := vs[..|vs| - 1], vs[|vs| - 1];
    if i < CountAll(init) then ListAt(init, i) else At(last, i - CountAll(init))
  }

  /** Each token carries the range of its value; parents come first. */
  lemma {:induction false} TokenAt(v: Value, at: nat, parent: nat, i: nat)
    requires Sized(v) && i < Count(v)
    ensures var t, w := Tokens(v, at, parent)[i], At(v, i);
            && t.kind == w.kind && t.start == w.start && t.end == w.end
            && (if i == 0 then t.parent == parent else at <= t.parent < at + i)
            && (w.Tree? ==> t.size == |w.children|) && (w.Leaf? ==> t.size == w.end - w.start + 1)
            && i + Count(w) <= Count(v)
    decreases v, 1
  {
    if i > 0 { ListTokenAt(v.children, at + 1, at, i - 1); }
  }

  lemma {:induction false} ListTokenAt(vs: seq<Value>, at: nat, parent: nat, i: nat)
    requires AllSized(vs) && i < CountAll(vs) && parent < at
    ensures var t, w := ListTokens(vs, at, parent)[i], ListAt(vs, i);
            && t.kind == w.kind && t.start == w.start && t.end == w.end
            && parent <= t.parent < at + i
            && (w.Tree? ==> t.size == |w.children|) && (w.Leaf? ==> t.size == w.end - w.start + 1)
            && i + Count(w) <= CountAll(vs)
    decreases vs, 0
  {
    var init, last := vs[..|vs| - 1], vs[|vs| - 1];
    if i < CountAll(init) {
      ListTokenAt(init, at, parent, i);
    } else {
      TokenAt(last, at + CountAll(init), parent, i - CountAll(init));
    }
  }

  /** A token lies inside the range of every value above it. */
  lemma {:induction false} InRange(v: Value, at: nat, parent: nat, j: nat)
    requires Placed(v) && Sized(v) && j < Count(v)
    ensures var t := Tokens(v, at, parent)[j];
            && v.start <= t.start && (j > 0 ==> v.start < t.start < v.end) && Last(At(v, j)) <= Last(v)
    decreases v, 1
  {
    if j > 0 { ListInRange(v.children, v.start, v.end, at + 1, at, j - 1); }
  }

  lemma {:induction false} ListInRange(vs: seq<Value>, lo: int, hi: int, at: nat, parent: nat, j: nat)
    requires AllPlaced(vs, lo, hi) && AllSized(vs) && j < CountAll(vs)
    ensures var t := ListTokens(vs, at, parent)[j];
            lo < t.start < hi && t.start <= LastOf(vs, lo) && Last(ListAt(vs, j)) <= LastOf(vs, lo) < hi
    decreases vs, 0
  {
    var init, last := vs[..|vs| - 1], vs[|vs| - 1];
    LastGrows(vs, lo, hi);
    ListSplit(vs, at, parent, j);
    hide ListTokens, Tokens, ListAt, At;
    if j < CountAll(init) {
      ListInRange(init, lo, hi, at, parent, j);
    } else {
      InRange(last, at + CountAll(init), parent, j - CountAll(init));
    }
  }

  /** The last sibling and those before it. */
  lemma ListSplit(vs: seq<Value>, at: nat, parent: nat, j: nat)
    requires AllSized(vs) && j < CountAll(vs)
    ensures vs != []
    ensures var init, last := vs[..|vs| - 1], vs[|vs| - 1];
            var n := CountAll(init);
            && AllSized(init) && Sized(last) && CountAll(vs) == n + Count(last)
            && ListTokens(vs, at, parent) == ListTokens(init, at, parent) + Tokens(last, at + n, parent)
            && ListTokens(vs, at, parent)[j] ==
               (if j < n then ListTokens(init, at, parent)[j] else Tokens(last, at + n, parent)[j - n])
            && ListAt(vs, j) == (if j < n then ListAt(init, j) else At(last, j - n))
  {
    hide Tokens, At, Count, Sized;
  }

  lemma {:induction false} LastGrows(vs: seq<Value>, lo: int, hi: int)
    requires AllPlaced(vs, lo, hi)
    ensures lo <= LastOf(vs, lo)
    ensures vs != [] ==> lo <= LastOf(vs[..|vs| - 1], lo) < vs[|vs| - 1].start <= LastOf(vs, lo) < hi
    decreases vs, 0
  {
    if vs != [] { LastGrows(vs[..|vs| - 1], lo, hi); }
  }

  /** The tokens below a value start inside it, and the next token behind them starts behind it. */
  predicate Bracketed(ts: seq<Token>, i: nat, w: Value) {
    var n := Count(w);
    && i + n <= |ts|
    && (forall j :: i < j < i + n ==> w.start < ts[j].start < w.end)
    && (i + n < |ts| ==> ts[i + n].start > Last(w))
  }

  /** The tokens of a subtree are consecutive and lie inside its range, and the next token lies behind it. */
  lemma {:induction false} SubtreeIsBracketed(v: Value, at: nat, parent: nat, i: nat)
    requires Placed(v) && Sized(v) && i < Count(v)
    ensures Bracketed(Tokens(v, at, parent), i, At(v, i))
    decreases v, 1
  {
    if i == 0 {
      RootIsBracketed(v, at, parent);
    } else {
      TreeSplit(v, at, parent, i);
      hide Tokens, ListTokens, At, ListAt, Bracketed, Count, CountAll, AllSized, AllPlaced;
      ListIsBracketed(v.children, v.start, v.end, at + 1, at, i - 1);
      ShiftBracketed(Tokens(v, at, parent), ListTokens(v.children, at + 1, at), i - 1, At(v, i));
    }
  }

  lemma RootIsBracketed(v: Value, at: nat, parent: nat)
    requires Placed(v) && Sized(v)
    ensures Bracketed(Tokens(v, at, parent), 0, v)
  {
    hide Tokens, Placed, Sized;
    var ts := Tokens(v, at, parent);
    forall j | 0 < j < |ts|
      ensures v.start < ts[j].start < v.end
    {
      InRange(v, at, parent, j);
    }
  }

  lemma TreeSplit(v: Value, at: nat, parent: nat, i: nat)
    requires Sized(v) && 0 < i < Count(v)
    ensures v.Tree? && AllSized(v.children) && i - 1 < CountAll(v.children) && At(v, i) == ListAt(v.children, i - 1)
    ensures Tokens(v, at, parent)[1..] == ListTokens(v.children, at + 1, at)
  {
    hide ListTokens, ListAt;
  }

  /** One token in front moves the indices. */
  lemma ShiftBracketed(ts: seq<Token>, kids: seq<Token>, i: nat, w: Value)
    requires |ts| == |kids| + 1 && ts[1..] == kids && Bracketed(kids, i, w)
    ensures Bracketed(ts, i + 1, w)
  {
    forall j | i + 1 < j < i + 1 + Count(w)
      ensures w.start < ts[j].start < w.end
    {
      assert ts[j] == kids[j - 1];
    }
    if i + 1 + Count(w) < |ts| { assert ts[i + 1 + Count(w)] == kids[i + Count(w)]; }
  }

  lemma {:induction false} ListIsBracketed(vs: seq<Value>, lo: int, hi: int, at: nat, parent: nat, i: nat)
    requires AllPlaced(vs, lo, hi) && AllSized(vs) && i < CountAll(vs)
    ensures Bracketed(ListTokens(vs, at, parent), i, ListAt(vs, i))
    decreases vs, 0
  {
    var init, last := vs[..|vs| - 1], vs[|vs| - 1];
    hide ListTokens, Tokens, ListAt, At, Bracketed, CountAll, Count, AllSized, Sized, AllPlaced, Placed, LastOf, Last;
    ListParts(vs, at, parent, i);
    PlacedSplit(vs, lo, hi);
    var n := CountAll(init);
    if i < n {
      ListIsBracketed(init, lo, hi, at, parent, i);
      FrontCase(vs, lo, hi, at, parent, i);
    } else {
      SubtreeIsBracketed(last, at + n, parent, i - n);
      BackBracketed(ListTokens(init, at, parent), Tokens(last, at + n, parent), i - n, At(last, i - n));
    }
  }

  lemma FrontCase(vs: seq<Value>, lo: int, hi: int, at: nat, parent: nat, i: nat)
    requires AllPlaced(vs, lo, hi) && AllSized(vs) && vs != []
    requires var init := vs[..|vs| - 1];
             i < CountAll(init) && AllSized(init) && Bracketed(ListTokens(init, at, parent), i, ListAt(init, i))
    ensures i < CountAll(vs) && Bracketed(ListTokens(vs, at, parent), i, ListAt(vs, i))
  {
    var init, last := vs[..|vs| - 1], vs[|vs| - 1];
    assert CountAll(vs) == CountAll(init) + Count(last);
    ListParts(vs, at, parent, i);
    PlacedSplit(vs, lo, hi);
    hide ListTokens, Tokens, ListAt, At, Bracketed, CountAll, Count, AllSized, Sized, AllPlaced, Placed, LastOf, Last;
    ListInRange(init, lo, hi, at, parent, i);
    FirstToken(last, at + CountAll(init), parent);
    FrontBracketed(ListTokens(init, at, parent), Tokens(last, at + CountAll(init), parent), i, ListAt(init, i),
                   LastOf(init, lo));
  }

  lemma ListParts(vs: seq<Value>, at: nat, parent: nat, i: nat)
    requires AllSized(vs) && i < CountAll(vs)
    ensures vs != []
    ensures var init, last := vs[..|vs| - 1], vs[|vs| - 1];
            var n := CountAll(init);
            && AllSized(init) && Sized(last) && CountAll(vs) == n + Count(last)
            && ListTokens(vs, at, parent) == ListTokens(init, at, parent) + Tokens(last, at + n, parent)
            && ListAt(vs, i) == if i < n then ListAt(init, i) else At(last, i - n)
  {
    hide Tokens, At, Count, Sized;
  }

  lemma PlacedSplit(vs: seq<Value>, lo: int, hi: int)
    requires AllPlaced(vs, lo, hi) && vs != []
    ensures var init, last := vs[..|vs| - 1], vs[|vs| - 1];
            AllPlaced(init, lo, hi) && Placed(last) && LastOf(init, lo) < last.start && Last(last) < hi
  {
  }

  lemma FirstToken(v: Value, at: nat, parent: nat)
    requires Sized(v)
    ensures Tokens(v, at, parent)[0].start == v.start
  {
  }

  lemma FrontBracketed(a: seq<Token>, b: seq<Token>, i: nat, w: Value, m: int)
    requires Bracketed(a, i, w) && b != [] && Last(w) <= m < b[0].start
    ensures Bracketed(a + b, i, w)
  {
    var n := Count(w);
    forall j | i < j < i + n
      ensures w.start < (a + b)[j].start < w.end
    {
      assert (a + b)[j] == a[j];
    }
    if i + n < |a| { assert (a + b)[i + n] == a[i + n]; } else { assert (a + b)[|a|] == b[0]; }
  }

  lemma BackBracketed(a: seq<Token>, b: seq<Token>, i: nat, w: Value)
    requires Bracketed(b, i, w)
    ensures Bracketed(a + b, |a| + i, w)
  {
    var n := Count(w);
    forall j | |a| + i < j < |a| + i + n
      ensures w.start < (a + b)[j].start < w.end
    {
      assert (a + b)[j] == b[j - |a|];
    }
    if i + n < |b| { assert (a + b)[|a| + i + n] == b[i + n]; }
  }

  /** Starts increase along the listing. */
  lemma {:induction false} StartsIncrease(v: Value, i: nat)
    requires Placed(v) && Sized(v) && i + 1 < Count(v)
    ensures Tokens(v, 0, 0)[i].start < Tokens(v, 0, 0)[i + 1].start
  {
    TokenAt(v, 0, 0, i);
    SubtreeIsBracketed(v, 0, 0, i);
  }

  /// Skipping a value

  /** The index behind the whole subtree of token `i`. */
  method Skip(tokens: seq<Token>, i: nat) returns (j: nat)
    requires i < |tokens|
    ensures i < j <= |tokens| && (j < |tokens| ==> tokens[j].start >= tokens[i].end)
    ensures forall k :: i < k < j ==> tokens[k].start < tokens[i].end
  {
    j := i + 1;
    while j < |tokens| && tokens[j].start < tokens[i].end
      invariant i < j <= |tokens|
      invariant forall k :: i < k < j ==> tokens[k].start < tokens[i].end
    {
      j := j + 1;
    }
  }

  /** On the listing of a tree, skipping lands behind the subtree and nowhere else. */
  lemma SkipLands(v: Value, i: nat, j: nat)
    requires Placed(v) && Sized(v) && i < Count(v)
    requires var ts := Tokens(v, 0, 0);
             && i < j <= |ts| && (j < |ts| ==> ts[j].start >= ts[i].end)
             && (forall k :: i < k < j ==> ts[k].start < ts[i].end)
    ensures j == i + Count(At(v, i))
  {
    TokenAt(v, 0, 0, i);
    SubtreeIsBracketed(v, 0, 0, i);
  }
}
