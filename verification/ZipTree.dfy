/** The zip tree as a value: elements, the two orders, and the shape theory.

    An element is identified by its address. The tree is a search tree on
    (key, address) and a heap on (hash of the address, address). */
module ZipTree {
  import opened ZipHash

  datatype Cmp = LESS | EQ | MORE

  datatype Elem<+K> = Elem(addr: Addr, key: K)

  datatype Tree<+K> = Leaf | Node(left: Tree<K>, elem: Elem<K>, right: Tree<K>)

  /** The comparison callback must be a total preorder on keys. */
  ghost predicate IsOrder<K(!new)>(cmp: (K, K) -> Cmp) {
    && (forall a: K, b: K {:trigger Compared(a, b)} ::
          (cmp(a, b) == LESS <==> cmp(b, a) == MORE) && cmp(a, a) == EQ)
    && (forall a: K, b: K, c: K {:trigger Compared(a, b), Compared(b, c)} ::
          cmp(a, b) != MORE && cmp(b, c) != MORE ==> cmp(a, c) != MORE)
  }

  /** Names the keys that an order fact is used for. */
  ghost predicate Compared<K>(a: K, b: K) {
    true
  }

  /// The comparators

  predicate RankLess<K>(a: Elem<K>, b: Elem<K>) {
    var h1, h2 := PtrHash(a.addr), PtrHash(b.addr);
    if h1 == h2 then a.addr < b.addr else h1 < h2
  }

  /** Orders by key and breaks ties by address. */
  function UniqueCmp<K>(cmp: (K, K) -> Cmp, a: Elem<K>, b: Elem<K>): Cmp {
    if a.addr == b.addr then EQ
    else match cmp(a.key, b.key)
      case EQ => if a.addr < b.addr then LESS else MORE
      case order => order
  }

  /** The strict order on (key, address) pairs that the search order uses. */
  predicate Less<K>(cmp: (K, K) -> Cmp, a: Elem<K>, b: Elem<K>) {
    cmp(a.key, b.key) == LESS || (cmp(a.key, b.key) == EQ && a.addr < b.addr)
  }

  lemma LessTrans<K(!new)>(cmp: (K, K) -> Cmp, a: Elem<K>, b: Elem<K>, c: Elem<K>)
    requires IsOrder(cmp) && Less(cmp, a, b) && Less(cmp, b, c)
    ensures Less(cmp, a, c)
  {
    assert Compared(a.key, b.key) && Compared(b.key, c.key) && Compared(c.key, a.key);
    assert Compared(a.key, c.key) && Compared(c.key, b.key) && Compared(b.key, a.key);
  }

  lemma LessAsym<K(!new)>(cmp: (K, K) -> Cmp, a: Elem<K>, b: Elem<K>)
    requires IsOrder(cmp)
    ensures !(Less(cmp, a, b) && Less(cmp, b, a))
    ensures a.addr != b.addr ==> Less(cmp, a, b) || Less(cmp, b, a)
    ensures a.addr != b.addr ==> (UniqueCmp(cmp, a, b) == LESS <==> Less(cmp, a, b))
    ensures a.addr != b.addr ==> (UniqueCmp(cmp, a, b) == MORE <==> Less(cmp, b, a))
  {
    assert Compared(a.key, b.key) && Compared(b.key, a.key);
  }

  /// Contents and validity

  ghost function Elems<K>(t: Tree<K>): set<Elem<K>> {
    match t
    case Leaf => {}
    case Node(l, e, r) => Elems(l) + {e} + Elems(r)
  }

  ghost predicate AllLess<K>(cmp: (K, K) -> Cmp, s: set<Elem<K>>, e: Elem<K>) {
    forall x <- s :: Less(cmp, x, e)
  }

  ghost predicate AllMore<K>(cmp: (K, K) -> Cmp, s: set<Elem<K>>, e: Elem<K>) {
    forall x <- s :: Less(cmp, e, x)
  }

  ghost predicate Dominates<K>(e: Elem<K>, s: set<Elem<K>>) {
    forall x <- s :: RankLess(x, e)
  }

  /** Search order on (key, address) and heap order on rank. */
  ghost predicate Valid<K>(cmp: (K, K) -> Cmp, t: Tree<K>) {
    match t
    case Leaf => true
    case Node(l, e, r) =>
      && Valid(cmp, l) && Valid(cmp, r)
      && AllLess(cmp, Elems(l), e) && AllMore(cmp, Elems(r), e)
      && Dominates(e, Elems(l)) && Dominates(e, Elems(r))
  }

  /** A set of elements that a zip tree can hold: one element per address. */
  ghost predicate DistinctAddrs<K>(s: set<Elem<K>>) {
    forall a <- s, b <- s :: a.addr == b.addr ==> a == b
  }

  /** In a valid tree the left elements are exactly the smaller ones, the right elements the larger. */
  lemma SidesByOrder<K(!new)>(cmp: (K, K) -> Cmp, t: Tree<K>)
    requires IsOrder(cmp) && Valid(cmp, t) && t.Node?
    ensures forall x <- Elems(t) :: x in Elems(t.left) <==> Less(cmp, x, t.elem)
    ensures forall x <- Elems(t) :: x in Elems(t.right) <==> Less(cmp, t.elem, x)
    ensures Elems(t.left) <= Elems(t) && Elems(t.right) <= Elems(t)
  {
    forall x | x in Elems(t)
      ensures x in Elems(t.left) <==> Less(cmp, x, t.elem)
      ensures x in Elems(t.right) <==> Less(cmp, t.elem, x)
    {
      LessAsym(cmp, x, t.elem);
    }
  }

  lemma NodeIsNonempty<K>(t: Tree<K>)
    ensures Elems(t) == {} <==> t == Leaf
  {
    if t.Node? { assert t.elem in Elems(t); }
  }

  /** Search order and heap order leave no choice: the shape is a function of the element set. */
  lemma {:induction false} ShapeIsCanonical<K(!new)>(cmp: (K, K) -> Cmp, t: Tree<K>, u: Tree<K>)
    requires IsOrder(cmp) && Valid(cmp, t) && Valid(cmp, u) && Elems(t) == Elems(u)
    ensures t == u
  {
    if t.Node? && u.Node? {
      assert t.elem == u.elem by {
        assert t.elem in Elems(u) && u.elem in Elems(t);
      }
      SidesByOrder(cmp, t);
      SidesByOrder(cmp, u);
      assert Elems(t.left) == Elems(u.left);
      assert Elems(t.right) == Elems(u.right);
      ShapeIsCanonical(cmp, t.left, u.left);
      ShapeIsCanonical(cmp, t.right, u.right);
    } else {
      NodeIsNonempty(t);
      NodeIsNonempty(u);
    }
  }

  /// Unzip and zip

  /** Splits a tree along the search path that `goesLeft` selects. */
  function Unzip<K>(goesLeft: Elem<K> -> bool, t: Tree<K>): (Tree<K>, Tree<K>) {
    match t
    case Leaf => (Leaf, Leaf)
    case Node(l, e, r) =>
      if goesLeft(e) then
        var (a, b) := Unzip(goesLeft, r); (Node(l, e, a), b)
      else
        var (a, b) := Unzip(goesLeft, l); (a, Node(b, e, r))
  }

  /** `goesLeft` selects a downward closed part of `s`. */
  ghost predicate IsCut<K>(cmp: (K, K) -> Cmp, goesLeft: Elem<K> -> bool, s: set<Elem<K>>) {
    forall a <- s, b <- s :: Less(cmp, a, b) && goesLeft(b) ==> goesLeft(a)
  }

  ghost function Chosen<K>(p: Elem<K> -> bool, s: set<Elem<K>>): set<Elem<K>> {
    set e <- s | p(e)
  }

  /** `a` and `b` are valid and hold the chosen and the other elements of `t`. */
  ghost predicate IsSplit<K>(cmp: (K, K) -> Cmp, goesLeft: Elem<K> -> bool, t: Tree<K>, a: Tree<K>, b: Tree<K>) {
    && Valid(cmp, a) && Valid(cmp, b)
    && Elems(a) == Chosen(goesLeft, Elems(t))
    && Elems(b) == Elems(t) - Chosen(goesLeft, Elems(t))
  }

  lemma SplitRight<K>(cmp: (K, K) -> Cmp, p: Elem<K> -> bool, l: Tree<K>, e: Elem<K>, r: Tree<K>, a: Tree<K>,
                      b: Tree<K>)
    requires Valid(cmp, Node(l, e, r)) && IsCut(cmp, p, Elems(Node(l, e, r))) && p(e) && IsSplit(cmp, p, r, a, b)
    ensures IsSplit(cmp, p, Node(l, e, r), Node(l, e, a), b)
  {
    hide RankLess;
    assert e in Elems(Node(l, e, r));
    assert Elems(a) <= Elems(r);
    assert forall x <- Elems(l) :: p(x);
    assert Chosen(p, Elems(Node(l, e, r))) == Elems(Node(l, e, a));
    assert forall x <- Elems(b) :: !p(x);
  }

  lemma SplitLeft<K>(cmp: (K, K) -> Cmp, p: Elem<K> -> bool, l: Tree<K>, e: Elem<K>, r: Tree<K>, a: Tree<K>, b: Tree<K>)
    requires Valid(cmp, Node(l, e, r)) && IsCut(cmp, p, Elems(Node(l, e, r))) && !p(e) && IsSplit(cmp, p, l, a, b)
    ensures IsSplit(cmp, p, Node(l, e, r), a, Node(b, e, r))
  {
    hide RankLess;
    assert e in Elems(Node(l, e, r));
    assert Elems(b) <= Elems(l);
    assert forall x <- Elems(r) :: !p(x);
    assert Chosen(p, Elems(Node(l, e, r))) == Elems(a);
    assert forall x <- Elems(a) :: p(x);
  }

  /** Unzipping splits a valid tree into two valid trees, by elements. */
  lemma {:induction false} UnzipSplits<K>(cmp: (K, K) -> Cmp, goesLeft: Elem<K> -> bool, t: Tree<K>)
    requires Valid(cmp, t) && IsCut(cmp, goesLeft, Elems(t))
    ensures IsSplit(cmp, goesLeft, t, Unzip(goesLeft, t).0, Unzip(goesLeft, t).1)
  {
    match t
    case Leaf =>
    case Node(l, e, r) =>
      var side := if goesLeft(e) then r else l;
      var (a, b) := Unzip(goesLeft, side);
      UnzipSplits(cmp, goesLeft, side);
      if goesLeft(e) {
        SplitRight(cmp, goesLeft, l, e, r, a, b);
      } else {
        SplitLeft(cmp, goesLeft, l, e, r, a, b);
      }
  }

  function Zip<K>(l: Tree<K>, r: Tree<K>): Tree<K> {
    match (l, r)
    case (Leaf, _) => r
    case (_, Leaf) => l
    case (Node(ll, le, lr), Node(rl, re, rr)) =>
      if RankLess(le, re) then Node(Zip(l, rl), re, rr) else Node(ll, le, Zip(lr, r))
  }

  /** All of `s` before all of `u`, and no common address. */
  ghost predicate Precedes<K>(cmp: (K, K) -> Cmp, s: set<Elem<K>>, u: set<Elem<K>>) {
    forall a <- s, b <- u :: Less(cmp, a, b) && a.addr != b.addr
  }

  lemma ZipUnderRight<K>(cmp: (K, K) -> Cmp, l: Tree<K>, r: Tree<K>, z: Tree<K>)
    requires r.Node? && Valid(cmp, r) && Precedes(cmp, Elems(l), Elems(r)) && Dominates(r.elem, Elems(l))
    requires Valid(cmp, z) && Elems(z) == Elems(l) + Elems(r.left)
    ensures Valid(cmp, Node(z, r.elem, r.right)) && Elems(Node(z, r.elem, r.right)) == Elems(l) + Elems(r)
  {
    assert r.elem in Elems(r);
  }

  lemma ZipUnderLeft<K>(cmp: (K, K) -> Cmp, l: Tree<K>, r: Tree<K>, z: Tree<K>)
    requires l.Node? && Valid(cmp, l) && Precedes(cmp, Elems(l), Elems(r)) && Dominates(l.elem, Elems(r))
    requires Valid(cmp, z) && Elems(z) == Elems(l.right) + Elems(r)
    ensures Valid(cmp, Node(l.left, l.elem, z)) && Elems(Node(l.left, l.elem, z)) == Elems(l) + Elems(r)
  {
    assert l.elem in Elems(l);
  }

  /** Zipping joins two valid trees, one before the other, into a valid tree. */
  lemma {:induction false} ZipJoins<K>(cmp: (K, K) -> Cmp, l: Tree<K>, r: Tree<K>)
    requires Valid(cmp, l) && Valid(cmp, r) && Precedes(cmp, Elems(l), Elems(r))
    ensures Valid(cmp, Zip(l, r)) && Elems(Zip(l, r)) == Elems(l) + Elems(r)
    decreases l, r
  {
    if l.Node? && r.Node? {
      assert l.elem in Elems(l) && r.elem in Elems(r);
      if RankLess(l.elem, r.elem) {
        RankBelow(l, r.elem);
        ZipJoins(cmp, l, r.left);
        ZipUnderRight(cmp, l, r, Zip(l, r.left));
      } else {
        RankBelow(r, l.elem);
        ZipJoins(cmp, l.right, r);
        ZipUnderLeft(cmp, l, r, Zip(l.right, r));
      }
    }
  }

  lemma RankBelow<K>(t: Tree<K>, e: Elem<K>)
    requires t.Node? && RankLess(t.elem, e) && Dominates(t.elem, Elems(t.left)) && Dominates(t.elem, Elems(t.right))
    ensures Dominates(e, Elems(t))
  {
  }

  /** Zipping the two halves of an unzip rebuilds the tree node for node. */
  lemma {:induction false} ZipUndoesUnzip<K(!new)>(cmp: (K, K) -> Cmp, goesLeft: Elem<K> -> bool, t: Tree<K>)
    requires IsOrder(cmp) && Valid(cmp, t) && DistinctAddrs(Elems(t)) && IsCut(cmp, goesLeft, Elems(t))
    ensures Zip(Unzip(goesLeft, t).0, Unzip(goesLeft, t).1) == t
  {
    hide Valid;
    var (a, b) := Unzip(goesLeft, t);
    UnzipSplits(cmp, goesLeft, t);
    forall x <- Elems(a), y <- Elems(b) ensures Less(cmp, x, y) && x.addr != y.addr {
      LessAsym(cmp, x, y);
    }
    ZipJoins(cmp, a, b);
    ShapeIsCanonical(cmp, Zip(a, b), t);
  }

  /** And unzipping a zip at the boundary gives back the two parts. */
  lemma {:induction false} UnzipUndoesZip<K(!new)>(cmp: (K, K) -> Cmp, goesLeft: Elem<K> -> bool, l: Tree<K>,
                                            r: Tree<K>)
    requires IsOrder(cmp) && Valid(cmp, l) && Valid(cmp, r) && Precedes(cmp, Elems(l), Elems(r))
    requires forall e <- Elems(l) :: goesLeft(e)
    requires forall e <- Elems(r) :: !goesLeft(e)
    ensures Unzip(goesLeft, Zip(l, r)) == (l, r)
  {
    ZipJoins(cmp, l, r);
    var t := Zip(l, r);
    forall x <- Elems(t), y <- Elems(t) | Less(cmp, x, y) && goesLeft(y) ensures goesLeft(x) {
      LessAsym(cmp, x, y);
    }
    UnzipSplits(cmp, goesLeft, t);
    ShapeIsCanonical(cmp, Unzip(goesLeft, t).0, l);
    ShapeIsCanonical(cmp, Unzip(goesLeft, t).1, r);
  }

  /** The elements that an unzip at `key` puts on the left. */
  function UpTo<K>(cmp: (K, K) -> Cmp, key: K): Elem<K> -> bool {
    (e: Elem<K>) => cmp(key, e.key) != LESS
  }

  /** Unzipping at a key: the keys up to it on the left, the larger keys on the right, and zip is its inverse. */
  lemma UnzipAtKey<K(!new)>(cmp: (K, K) -> Cmp, key: K, t: Tree<K>)
    requires IsOrder(cmp) && Valid(cmp, t) && DistinctAddrs(Elems(t))
    ensures var (a, b) := Unzip(UpTo(cmp, key), t);
            && Valid(cmp, a) && Elems(a) == (set e <- Elems(t) | cmp(key, e.key) != LESS)
            && Valid(cmp, b) && Elems(b) == (set e <- Elems(t) | cmp(key, e.key) == LESS)
            && Zip(a, b) == t
  {
    hide Valid;
    var p := UpTo(cmp, key);
    forall a <- Elems(t), b <- Elems(t) | Less(cmp, a, b) && p(b) ensures p(a) {
      assert Compared(a.key, b.key) && Compared(b.key, key) && Compared(key, b.key) && Compared(key, a.key);
      assert Compared(a.key, key);
    }
    UnzipSplits(cmp, p, t);
    ZipUndoesUnzip(cmp, p, t);
  }

  /// Insert and remove

  /** The elements that belong on the left of `x`. */
  function Before<K>(cmp: (K, K) -> Cmp, x: Elem<K>): Elem<K> -> bool {
    e => UniqueCmp(cmp, x, e) == MORE
  }

  function Insert<K>(cmp: (K, K) -> Cmp, t: Tree<K>, x: Elem<K>): Tree<K> {
    match t
    case Leaf => Node(Leaf, x, Leaf)
    case Node(l, e, r) =>
      if UniqueCmp(cmp, x, e) == EQ then t
      else if RankLess(e, x) then
        var (a, b) := Unzip(Before(cmp, x), t); Node(a, x, b)
      else if UniqueCmp(cmp, x, e) == MORE then Node(l, e, Insert(cmp, r, x))
      else Node(Insert(cmp, l, x), e, r)
  }

  ghost predicate FreshAddr<K>(s: set<Elem<K>>, x: Elem<K>) {
    forall e <- s :: e.addr != x.addr
  }

  /** Inserting an absent element adds exactly this element. */
  lemma {:induction false} InsertAdds<K(!new)>(cmp: (K, K) -> Cmp, t: Tree<K>, x: Elem<K>)
    requires IsOrder(cmp) && Valid(cmp, t) && FreshAddr(Elems(t), x)
    ensures Valid(cmp, Insert(cmp, t, x)) && Elems(Insert(cmp, t, x)) == Elems(t) + {x}
  {
    if t.Node? {
      SidesByOrder(cmp, t);
      LessAsym(cmp, x, t.elem);
      if RankLess(t.elem, x) {
        InsertAtTop(cmp, t, x);
      } else if UniqueCmp(cmp, x, t.elem) == MORE {
        InsertAdds(cmp, t.right, x);
      } else {
        InsertAdds(cmp, t.left, x);
      }
    }
  }

  lemma InsertAtTop<K(!new)>(cmp: (K, K) -> Cmp, t: Tree<K>, x: Elem<K>)
    requires IsOrder(cmp) && Valid(cmp, t) && FreshAddr(Elems(t), x) && t.Node? && RankLess(t.elem, x)
    ensures var (a, b) := Unzip(Before(cmp, x), t);
            && Valid(cmp, Node(a, x, b)) && Elems(Node(a, x, b)) == Elems(t) + {x}
  {
    var p := Before(cmp, x);
    forall e <- Elems(t) ensures p(e) <==> Less(cmp, e, x) {
      LessAsym(cmp, x, e);
    }
    forall a <- Elems(t), b <- Elems(t) | Less(cmp, a, b) && p(b) ensures p(a) {
      LessTrans(cmp, a, b, x);
    }
    UnzipSplits(cmp, p, t);
    RankBelow(t, x);
    forall e <- Elems(t) | !p(e) ensures Less(cmp, x, e) {
      LessAsym(cmp, x, e);
    }
  }

  function Remove<K>(cmp: (K, K) -> Cmp, t: Tree<K>, x: Elem<K>): Tree<K> {
    match t
    case Leaf => Leaf
    case Node(l, e, r) =>
      match UniqueCmp(cmp, x, e)
      case EQ => Zip(l, r)
      case LESS => Node(Remove(cmp, l, x), e, r)
      case MORE => Node(l, e, Remove(cmp, r, x))
  }

  lemma RemoveAtTop<K(!new)>(cmp: (K, K) -> Cmp, t: Tree<K>)
    requires IsOrder(cmp) && Valid(cmp, t) && t.Node? && DistinctAddrs(Elems(t))
    ensures Valid(cmp, Zip(t.left, t.right)) && Elems(Zip(t.left, t.right)) == Elems(t) - {t.elem}
  {
    SidesByOrder(cmp, t);
    forall a <- Elems(t.left), b <- Elems(t.right) ensures Less(cmp, a, b) && a.addr != b.addr {
      LessTrans(cmp, a, t.elem, b);
      LessAsym(cmp, a, b);
    }
    ZipJoins(cmp, t.left, t.right);
    LessAsym(cmp, t.elem, t.elem);
    assert t.elem !in Elems(t.left) && t.elem !in Elems(t.right);
  }

  /** Removing takes out exactly the element, also if it is absent. */
  lemma {:induction false} RemoveDeletes<K(!new)>(cmp: (K, K) -> Cmp, t: Tree<K>, x: Elem<K>)
    requires IsOrder(cmp) && Valid(cmp, t) && DistinctAddrs(Elems(t) + {x})
    ensures Valid(cmp, Remove(cmp, t, x)) && Elems(Remove(cmp, t, x)) == Elems(t) - {x}
  {
    hide RankLess;
    match t
    case Leaf =>
    case Node(l, e, r) =>
      LessAsym(cmp, x, e);
      assert e in Elems(t);
      match UniqueCmp(cmp, x, e)
      case EQ =>
        RemoveAtTop(cmp, t);
      case LESS =>
        RemoveDeletes(cmp, l, x);
        assert x !in Elems(r) && Elems(Node(Remove(cmp, l, x), e, r)) == Elems(t) - {x};
      case MORE =>
        RemoveDeletes(cmp, r, x);
        assert x !in Elems(l) && Elems(Node(l, e, Remove(cmp, r, x))) == Elems(t) - {x};
  }

  /** Removing a just-inserted element restores the exact previous tree. */
  lemma RemoveUndoesInsert<K(!new)>(cmp: (K, K) -> Cmp, t: Tree<K>, x: Elem<K>)
    requires IsOrder(cmp) && Valid(cmp, t) && DistinctAddrs(Elems(t)) && FreshAddr(Elems(t), x)
    ensures Remove(cmp, Insert(cmp, t, x), x) == t
  {
    InsertAdds(cmp, t, x);
    RemoveDeletes(cmp, Insert(cmp, t, x), x);
    assert x !in Elems(t);
    assert Elems(t) + {x} - {x} == Elems(t);
    ShapeIsCanonical(cmp, Remove(cmp, Insert(cmp, t, x), x), t);
  }

  /// Lookup by key

  function Find<K>(cmp: (K, K) -> Cmp, t: Tree<K>, key: K): Tree<K> {
    match t
    case Leaf => Leaf
    case Node(l, e, r) =>
      match cmp(key, e.key)
      case EQ => t
      case LESS => Find(cmp, l, key)
      case MORE => Find(cmp, r, key)
  }

  /** Finds an element exactly if one has an equal key, and then the one of highest rank. */
  lemma {:induction false} FindIsTopmost<K(!new)>(cmp: (K, K) -> Cmp, t: Tree<K>, key: K)
    requires IsOrder(cmp) && Valid(cmp, t)
    ensures Find(cmp, t, key) == Leaf <==> forall e <- Elems(t) :: cmp(key, e.key) != EQ
    ensures Find(cmp, t, key).Node? ==>
              var f := Find(cmp, t, key).elem;
              && f in Elems(t) && cmp(key, f.key) == EQ
              && forall e <- Elems(t) :: cmp(key, e.key) == EQ && e != f ==> RankLess(e, f)
  {
    if t.Node? {
      SkippedSide(cmp, key, t);
      match cmp(key, t.elem.key)
      case EQ =>
      case LESS => FindIsTopmost(cmp, t.left, key);
      case MORE => FindIsTopmost(cmp, t.right, key);
    }
  }

  /// Whole runs

  datatype Op<+K> = Ins(x: Elem<K>) | Rem(x: Elem<K>)

  function Run<K>(cmp: (K, K) -> Cmp, ops: seq<Op<K>>): Tree<K> {
    if ops == [] then Leaf
    else
      var t := Run(cmp, ops[..|ops| - 1]);
      match ops[|ops| - 1]
      case Ins(x) => Insert(cmp, t, x)
      case Rem(x) => Remove(cmp, t, x)
  }

  /** What a run holds, without any tree. */
  ghost function Held<K>(ops: seq<Op<K>>): set<Elem<K>> {
    if ops == [] then {}
    else
      var s := Held(ops[..|ops| - 1]);
      match ops[|ops| - 1]
      case Ins(x) => s + {x}
      case Rem(x) => s - {x}
  }

  /** Every insert is of an element that is not in the tree, and an address names one element. */
  ghost predicate Legal<K>(ops: seq<Op<K>>) {
    ops != [] ==>
      var prev := ops[..|ops| - 1];
      var x := ops[|ops| - 1].x;
      && Legal(prev)
      && (ops[|ops| - 1].Ins? ==> FreshAddr(Held(prev), x))
      && DistinctAddrs(Held(prev) + {x})
  }

  /** After every legal run the tree is valid and holds what was inserted and not removed. */
  lemma {:induction false} RunIsValid<K(!new)>(cmp: (K, K) -> Cmp, ops: seq<Op<K>>)
    requires IsOrder(cmp) && Legal(ops)
    ensures Valid(cmp, Run(cmp, ops)) && Elems(Run(cmp, ops)) == Held(ops)
  {
    if ops != [] {
      var prev := ops[..|ops| - 1];
      RunIsValid(cmp, prev);
      match ops[|ops| - 1]
      case Ins(x) => InsertAdds(cmp, Run(cmp, prev), x);
      case Rem(x) => RemoveDeletes(cmp, Run(cmp, prev), x);
    }
  }

  /** The order of operations does not matter: runs that hold the same elements end in the same tree. */
  lemma RunsConverge<K(!new)>(cmp: (K, K) -> Cmp, ops: seq<Op<K>>, others: seq<Op<K>>)
    requires IsOrder(cmp) && Legal(ops) && Legal(others) && Held(ops) == Held(others)
    ensures Run(cmp, ops) == Run(cmp, others)
  {
    RunIsValid(cmp, ops);
    RunIsValid(cmp, others);
    ShapeIsCanonical(cmp, Run(cmp, ops), Run(cmp, others));
  }

  /// Iteration

  ghost function InOrder<K>(t: Tree<K>): seq<Elem<K>> {
    match t
    case Leaf => []
    case Node(l, e, r) => InOrder(l) + [e] + InOrder(r)
  }

  /** The in-order listing holds every element once, in search order. */
  lemma {:induction false} InOrderIsSorted<K(!new)>(cmp: (K, K) -> Cmp, t: Tree<K>)
    requires IsOrder(cmp) && Valid(cmp, t)
    ensures forall x :: x in InOrder(t) <==> x in Elems(t)
    ensures forall i, j :: 0 <= i < j < |InOrder(t)| ==> Less(cmp, InOrder(t)[i], InOrder(t)[j])
  {
    if t.Node? {
      InOrderIsSorted(cmp, t.left);
      InOrderIsSorted(cmp, t.right);
      var a, b := InOrder(t.left), InOrder(t.right);
      forall i, j | 0 <= i < j < |InOrder(t)| ensures Less(cmp, InOrder(t)[i], InOrder(t)[j]) {
        assert i < |a| ==> a[i] in Elems(t.left);
        assert j > |a| ==> b[j - |a| - 1] in Elems(t.right);
        if i < |a| < j {
          LessTrans(cmp, a[i], t.elem, b[j - |a| - 1]);
        }
      }
    }
  }

  ghost function WithKey<K>(cmp: (K, K) -> Cmp, key: K, es: seq<Elem<K>>): seq<Elem<K>> {
    if es == [] then []
    else if cmp(key, es[0].key) == EQ then [es[0]] + WithKey(cmp, key, es[1..])
    else WithKey(cmp, key, es[1..])
  }

  lemma {:induction false} WithKeyConcat<K>(cmp: (K, K) -> Cmp, key: K, a: seq<Elem<K>>, b: seq<Elem<K>>)
    ensures WithKey(cmp, key, a + b) == WithKey(cmp, key, a) + WithKey(cmp, key, b)
  {
    if a == [] {
      assert a + b == b;
    } else {
      assert (a + b)[1..] == a[1..] + b;
      WithKeyConcat(cmp, key, a[1..], b);
    }
  }

  lemma {:induction false} WithKeyNone<K>(cmp: (K, K) -> Cmp, key: K, es: seq<Elem<K>>)
    requires forall e <- es :: cmp(key, e.key) != EQ
    ensures WithKey(cmp, key, es) == []
  {
    if es != [] { WithKeyNone(cmp, key, es[1..]); }
  }

  /** Calls back for each element until the first non-NULL answer. The callback sees what was visited before. */
  ghost function Visit<K>(cb: (seq<Elem<K>>, Elem<K>) -> Addr, seen: seq<Elem<K>>, es: seq<Elem<K>>): (Addr,
                          seq<Elem<K>>)
    decreases es
  {
    if es == [] then (NULL, seen)
    else if cb(seen, es[0]) != NULL then (cb(seen, es[0]), seen + [es[0]])
    else Visit(cb, seen + [es[0]], es[1..])
  }

  /** Visiting stops in the first list if a callback does, and goes on in the second otherwise. */
  lemma {:induction false} VisitConcat<K>(cb: (seq<Elem<K>>, Elem<K>) -> Addr, seen: seq<Elem<K>>, a: seq<Elem<K>>,
                                          b: seq<Elem<K>>)
    ensures var (r, seen') := Visit(cb, seen, a);
            Visit(cb, seen, a + b) == if r != NULL then (r, seen') else Visit(cb, seen', b)
    decreases a
  {
    if a == [] {
      assert a + b == b;
    } else {
      assert (a + b)[1..] == a[1..] + b;
      VisitConcat(cb, seen + [a[0]], a[1..], b);
    }
  }

  /** Subtrees that the key iteration skips hold no equal key. */
  lemma SkippedSide<K(!new)>(cmp: (K, K) -> Cmp, key: K, t: Tree<K>)
    requires IsOrder(cmp) && Valid(cmp, t) && t.Node?
    ensures cmp(key, t.elem.key) == MORE ==> forall e <- Elems(t.left) :: cmp(key, e.key) == MORE
    ensures cmp(key, t.elem.key) == LESS ==> forall e <- Elems(t.right) :: cmp(key, e.key) == LESS
  {
    forall e <- Elems(t.left) | cmp(key, t.elem.key) == MORE ensures cmp(key, e.key) == MORE {
      assert Compared(key, t.elem.key) && Compared(t.elem.key, key) && Compared(e.key, t.elem.key)
             && Compared(t.elem.key, e.key);
      assert Compared(key, e.key) && Compared(e.key, key) && Less(cmp, e, t.elem);
    }
    forall e <- Elems(t.right) | cmp(key, t.elem.key) == LESS ensures cmp(key, e.key) == LESS {
      assert Compared(key, t.elem.key) && Compared(t.elem.key, key) && Compared(e.key, t.elem.key)
             && Compared(t.elem.key, e.key);
      assert Compared(key, e.key) && Compared(e.key, key) && Less(cmp, t.elem, e);
    }
  }
}
