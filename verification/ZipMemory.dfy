/** The zip tree in memory: cells at addresses, rewritten edge by edge. */
module ZipMemory {
  import opened ZipHash
  import opened ZipTree

  datatype Dir = L | R {
    function Other(): Dir { if L? then R else L }
  }

  /** The part of an element that the tree code reads and writes. */
  datatype Cell<+K> = Cell(key: K, left: Addr, right: Addr) {
    function Child(dir: Dir): Addr { if dir.L? then left else right }

    function Set(dir: Dir, p: Addr): Cell<K> { if dir.L? then this.(left := p) else this.(right := p) }
  }

  type Mem<+K> = map<Addr, Cell<K>>

  ghost function Addrs<K>(t: Tree<K>): set<Addr> {
    match t
    case Leaf => {}
    case Node(l, e, r) => Addrs(l) + {e.addr} + Addrs(r)
  }

  ghost predicate IsCell<K>(mem: Mem<K>, e: Elem<K>) {
    e.addr != NULL && e.addr in mem && mem[e.addr].key == e.key
  }

  /** The cells reachable from `p` form exactly the tree `t`. */
  ghost predicate Rep<K>(mem: Mem<K>, p: Addr, t: Tree<K>)
    decreases t
  {
    match t
    case Leaf => p == NULL
    case Node(l, e, r) =>
      && p == e.addr && IsCell(mem, e)
      && Rep(mem, mem[p].left, l) && Rep(mem, mem[p].right, r)
  }

  /** No cell is shared between different places of the tree. */
  ghost predicate Apart<K>(t: Tree<K>) {
    match t
    case Leaf => true
    case Node(l, e, r) =>
      Apart(l) && Apart(r) && e.addr !in Addrs(l) && e.addr !in Addrs(r) && Addrs(l) !! Addrs(r)
  }

  function Join<K>(dir: Dir, sub: Tree<K>, e: Elem<K>, side: Tree<K>): Tree<K> {
    if dir.L? then Node(sub, e, side) else Node(side, e, sub)
  }

  /** A way down a tree to a hole, innermost step first; `side` is the subtree not taken. */
  datatype Path<+K> = Top | Down(up: Path<K>, dir: Dir, elem: Elem<K>, side: Tree<K>)

  ghost function Fill<K>(path: Path<K>, t: Tree<K>): Tree<K> {
    match path
    case Top => t
    case Down(up, dir, e, side) => Fill(up, Join(dir, t, e, side))
  }

  ghost function PathAddrs<K>(path: Path<K>): set<Addr> {
    match path
    case Top => {}
    case Down(up, _, e, side) => PathAddrs(up) + {e.addr} + Addrs(side)
  }

  /** From `root`, `path` leads to an edge that holds `hole`. */
  ghost predicate RepPath<K>(mem: Mem<K>, root: Addr, path: Path<K>, hole: Addr)
    decreases path
  {
    match path
    case Top => root == hole
    case Down(up, dir, e, side) =>
      && IsCell(mem, e) && RepPath(mem, root, up, e.addr)
      && mem[e.addr].Child(dir) == hole && Rep(mem, mem[e.addr].Child(dir.Other()), side)
  }

  ghost predicate ApartPath<K>(path: Path<K>) {
    match path
    case Top => true
    case Down(up, _, e, side) =>
      && ApartPath(up) && Apart(side)
      && e.addr !in Addrs(side) && e.addr !in PathAddrs(up) && Addrs(side) !! PathAddrs(up)
  }

  /** `mem'` has the same cells as `mem` on `s`. */
  ghost predicate Same<K>(mem: Mem<K>, mem': Mem<K>, s: set<Addr>) {
    forall a <- s :: a in mem ==> a in mem' && mem'[a] == mem[a]
  }

  /** `mem'` differs from `mem` at most in the child fields of the cells in `s`. */
  ghost predicate OnlyEdges<K>(mem: Mem<K>, mem': Mem<K>, s: set<Addr>) {
    && mem'.Keys == mem.Keys
    && (forall a <- mem :: mem'[a].key == mem[a].key)
    && (forall a <- mem :: a !in s ==> mem'[a] == mem[a])
  }

  /// Framing

  lemma {:induction false} RepInMem<K>(mem: Mem<K>, p: Addr, t: Tree<K>)
    requires Rep(mem, p, t)
    ensures Addrs(t) <= mem.Keys && NULL !in Addrs(t)
    ensures forall e <- Elems(t) :: IsCell(mem, e)
    ensures DistinctAddrs(Elems(t))
    decreases t
  {
    if t.Node? {
      RepInMem(mem, mem[p].left, t.left);
      RepInMem(mem, mem[p].right, t.right);
    }
  }

  lemma {:induction false} RepFrame<K>(mem: Mem<K>, mem': Mem<K>, p: Addr, t: Tree<K>)
    requires Rep(mem, p, t) && Same(mem, mem', Addrs(t))
    ensures Rep(mem', p, t)
    decreases t
  {
    if t.Node? {
      RepFrame(mem, mem', mem[p].left, t.left);
      RepFrame(mem, mem', mem[p].right, t.right);
    }
  }

  lemma {:induction false} PathInMem<K>(mem: Mem<K>, root: Addr, path: Path<K>, hole: Addr)
    requires RepPath(mem, root, path, hole)
    ensures PathAddrs(path) <= mem.Keys && NULL !in PathAddrs(path)
    ensures !path.Top? ==> root in PathAddrs(path)
    decreases path
  {
    match path
    case Top =>
    case Down(up, dir, e, side) =>
      PathInMem(mem, root, up, e.addr);
      RepInMem(mem, mem[e.addr].Child(dir.Other()), side);
  }

  lemma {:induction false} PathFrame<K>(mem: Mem<K>, mem': Mem<K>, root: Addr, path: Path<K>, hole: Addr)
    requires RepPath(mem, root, path, hole) && Same(mem, mem', PathAddrs(path))
    ensures RepPath(mem', root, path, hole)
    decreases path
  {
    match path
    case Top =>
    case Down(up, dir, e, side) =>
      PathFrame(mem, mem', root, up, e.addr);
      RepFrame(mem, mem', mem[e.addr].Child(dir.Other()), side);
  }

  /** Writing the last edge of a path only changes what the hole holds. */
  lemma PathRefill<K>(mem: Mem<K>, mem': Mem<K>, root: Addr, path: Path<K>, hole: Addr, hole': Addr)
    requires path.Down? && ApartPath(path) && RepPath(mem, root, path, hole)
    requires Same(mem, mem', PathAddrs(path) - {path.elem.addr})
    requires path.elem.addr in mem' && mem'[path.elem.addr] == mem[path.elem.addr].Set(path.dir, hole')
    ensures RepPath(mem', root, path, hole')
  {
    PathFrame(mem, mem', root, path.up, path.elem.addr);
    RepFrame(mem, mem', mem[path.elem.addr].Child(path.dir.Other()), path.side);
  }

  /** A path and the tree in its hole make one tree. */
  lemma {:induction false} FillRep<K>(mem: Mem<K>, root: Addr, path: Path<K>, hole: Addr, t: Tree<K>)
    requires RepPath(mem, root, path, hole) && Rep(mem, hole, t)
    ensures Rep(mem, root, Fill(path, t))
    decreases path
  {
    match path
    case Top =>
    case Down(up, dir, e, side) => FillRep(mem, root, up, e.addr, Join(dir, t, e, side));
  }

  lemma {:induction false} AddrsOfElems<K>(t: Tree<K>)
    ensures forall a :: a in Addrs(t) <==> exists e <- Elems(t) :: e.addr == a
  {
    if t.Node? {
      AddrsOfElems(t.left);
      AddrsOfElems(t.right);
      forall a ensures a in Addrs(t) <==> exists e <- Elems(t) :: e.addr == a {
        if a == t.elem.addr { assert t.elem in Elems(t); }
      }
    }
  }

  lemma {:induction false} ValidIsApart<K(!new)>(cmp: (K, K) -> Cmp, t: Tree<K>)
    requires IsOrder(cmp) && Valid(cmp, t) && DistinctAddrs(Elems(t))
    ensures Apart(t)
  {
    if t.Node? {
      SidesByOrder(cmp, t);
      ValidIsApart(cmp, t.left);
      ValidIsApart(cmp, t.right);
      AddrsOfElems(t.left);
      AddrsOfElems(t.right);
      forall a <- Elems(t.left), b <- Elems(t.right) ensures a.addr != b.addr {
        LessAsym(cmp, a, t.elem);
        LessAsym(cmp, b, t.elem);
      }
      LessAsym(cmp, t.elem, t.elem);
    }
  }

  /// The unzipping walk

  /** The part of an unzip that stays on the `dir` spine. */
  ghost function Stays<K>(dir: Dir, goesLeft: Elem<K> -> bool, t: Tree<K>): Tree<K> {
    if dir.R? then Unzip(goesLeft, t).0 else Unzip(goesLeft, t).1
  }

  ghost function Moves<K>(dir: Dir, goesLeft: Elem<K> -> bool, t: Tree<K>): Tree<K> {
    Stays(dir.Other(), goesLeft, t)
  }

  /** The walk down the `dir` spine of `s`: `stay` ends at the current element, `moved` hangs below the
      `fix` field of `owner`, and `rest` is still to be distributed. */
  datatype Walk<K> = Walk(stay: Path<K>, moved: Path<K>, rest: Tree<K>) {
    ghost predicate Disjoint(owner: Addr, s: Tree<K>) {
      && ApartPath(stay) && ApartPath(moved) && Apart(rest)
      && PathAddrs(stay) !! PathAddrs(moved) && PathAddrs(stay) !! Addrs(rest) && PathAddrs(moved) !! Addrs(rest)
      && PathAddrs(stay) + PathAddrs(moved) + Addrs(rest) <= Addrs(s) && owner !in Addrs(s)
    }

    ghost predicate InMem(mem: Mem<K>, dir: Dir, start: Addr, owner: Addr, fix: Dir) {
      && stay.Down? && stay.dir == dir && stay.elem.addr in mem && owner in mem
      && RepPath(mem, start, stay, mem[stay.elem.addr].Child(dir))
      && Rep(mem, mem[stay.elem.addr].Child(dir), rest)
      && RepPath(mem, mem[owner].Child(fix), moved, NULL)
      && (moved.Down? ==> moved.dir == dir.Other() && moved.elem.addr in mem)
    }

    ghost predicate Sums(dir: Dir, goesLeft: Elem<K> -> bool, s: Tree<K>) {
      && Fill(stay, Stays(dir, goesLeft, rest)) == Stays(dir, goesLeft, s)
      && Fill(moved, Moves(dir, goesLeft, rest)) == Moves(dir, goesLeft, s)
    }

    /** The next element stays on its side. */
    ghost function Pass(dir: Dir): Walk<K>
      requires rest.Node?
    {
      if dir.R? then Walk(Down(stay, dir, rest.elem, rest.left), moved, rest.right)
      else Walk(Down(stay, dir, rest.elem, rest.right), moved, rest.left)
    }

    /** The next element goes below the fix edge. */
    ghost function Move(dir: Dir): Walk<K>
      requires rest.Node?
    {
      if dir.R? then Walk(stay, Down(moved, L, rest.elem, rest.right), rest.left)
      else Walk(stay, Down(moved, R, rest.elem, rest.left), rest.right)
    }

    ghost function FixEdge(dir: Dir, owner: Addr, fix: Dir): (Addr, Dir) {
      if moved.Top? then (owner, fix) else (moved.elem.addr, dir.Other())
    }
  }

  lemma WalkStarts<K>(mem: Mem<K>, dir: Dir, goesLeft: Elem<K> -> bool, s: Tree<K>, start: Addr, owner: Addr, fix: Dir)
    requires owner in mem && mem[owner].Child(fix) == NULL && owner !in Addrs(s)
    requires s.Node? && Rep(mem, start, s) && Apart(s) && goesLeft(s.elem) == dir.R?
    ensures var w := Walk(Top, Top, s).Pass(dir);
            w.Disjoint(owner, s) && w.InMem(mem, dir, start, owner, fix) && w.Sums(dir, goesLeft, s)
  {
    RepInMem(mem, start, s);
  }

  lemma PassKeeps<K>(mem: Mem<K>, dir: Dir, goesLeft: Elem<K> -> bool, s: Tree<K>, start: Addr, owner: Addr, fix: Dir,
                     w: Walk<K>)
    requires w.Disjoint(owner, s) && w.InMem(mem, dir, start, owner, fix) && w.Sums(dir, goesLeft, s)
    requires w.rest.Node? && goesLeft(w.rest.elem) == dir.R?
    ensures w.Pass(dir).Disjoint(owner, s) && w.Pass(dir).InMem(mem, dir, start, owner, fix)
    ensures w.Pass(dir).Sums(dir, goesLeft, s)
  {
  }

  lemma MoveKeeps<K>(dir: Dir, goesLeft: Elem<K> -> bool, s: Tree<K>, owner: Addr, w: Walk<K>)
    requires w.Disjoint(owner, s) && w.Sums(dir, goesLeft, s)
    requires w.rest.Node? && goesLeft(w.rest.elem) == dir.L?
    ensures w.Move(dir).Disjoint(owner, s) && w.Move(dir).Sums(dir, goesLeft, s)
  {
  }

  /** The memory after moving `m`, the `dir` child of `cur`, below an edge. */
  function Moved<K>(mem: Mem<K>, dir: Dir, cur: Addr, m: Addr, edge: (Addr, Dir)): Mem<K>
    requires cur in mem && m in mem && edge.0 in mem
  {
    var mem1 := mem[cur := mem[cur].Set(dir, mem[m].Child(dir.Other()))];
    var mem2 := mem1[m := mem1[m].Set(dir.Other(), NULL)];
    mem2[edge.0 := mem2[edge.0].Set(edge.1, m)]
  }

  lemma MovedCells<K>(mem: Mem<K>, dir: Dir, cur: Addr, m: Addr, edge: (Addr, Dir), mem': Mem<K>)
    requires cur in mem && m in mem && edge.0 in mem && cur != m && edge.0 != cur && edge.0 != m
    requires mem' == Moved(mem, dir, cur, m, edge)
    ensures OnlyEdges(mem, mem', {cur, m, edge.0})
    ensures mem'[cur] == mem[cur].Set(dir, mem[m].Child(dir.Other()))
    ensures mem'[m] == mem[m].Set(dir.Other(), NULL)
    ensures mem'[edge.0] == mem[edge.0].Set(edge.1, m)
  {
  }

  lemma MoveInMem<K>(mem: Mem<K>, dir: Dir, s: Tree<K>, start: Addr, owner: Addr, fix: Dir, w: Walk<K>, mem': Mem<K>)
    requires w.Disjoint(owner, s) && w.InMem(mem, dir, start, owner, fix)
    requires w.rest.Node?
    requires mem' == Moved(mem, dir, w.stay.elem.addr, w.rest.elem.addr, w.FixEdge(dir, owner, fix))
    ensures w.Move(dir).InMem(mem', dir, start, owner, fix)
    ensures OnlyEdges(mem, mem', Addrs(s) + {owner})
    ensures mem'[owner] == mem[owner].Set(fix, mem'[owner].Child(fix))
  {
    var cur, m, edge := w.stay.elem.addr, w.rest.elem.addr, w.FixEdge(dir, owner, fix);
    assert cur in PathAddrs(w.stay) && m in Addrs(w.rest) && (w.moved.Down? ==> edge.0 in PathAddrs(w.moved));
    MovedCells(mem, dir, cur, m, edge, mem');
    assert RepPath(mem', start, w.stay, mem[m].Child(dir.Other()))
           && Rep(mem', mem[m].left, w.rest.left) && Rep(mem', mem[m].right, w.rest.right) by {
      MoveFrames(mem, dir, start, w.stay, w.rest, mem');
    }
    assert RepPath(mem', mem'[owner].Child(fix), w.moved, m) by {
      if w.moved.Down? {
        PathRefill(mem, mem', mem[owner].Child(fix), w.moved, NULL, m);
      }
    }
  }

  lemma MoveFrames<K>(mem: Mem<K>, dir: Dir, start: Addr, stay: Path<K>, rest: Tree<K>, mem': Mem<K>)
    requires ApartPath(stay) && Apart(rest) && PathAddrs(stay) !! Addrs(rest) && rest.Node?
    requires stay.Down? && stay.dir == dir && RepPath(mem, start, stay, rest.elem.addr)
             && Rep(mem, rest.elem.addr, rest)
    requires var cur, m := stay.elem.addr, rest.elem.addr;
             && Same(mem, mem', PathAddrs(stay) + Addrs(rest) - {cur, m}) && cur in mem' && m in mem'
             && mem'[cur] == mem[cur].Set(dir, mem[m].Child(dir.Other()))
             && mem'[m] == mem[m].Set(dir.Other(), NULL)
    ensures RepPath(mem', start, stay, mem[rest.elem.addr].Child(dir.Other()))
    ensures Rep(mem', mem[rest.elem.addr].left, rest.left) && Rep(mem', mem[rest.elem.addr].right, rest.right)
  {
    var m := rest.elem.addr;
    PathRefill(mem, mem', start, stay, m, mem[m].Child(dir.Other()));
    RepFrame(mem, mem', mem[m].left, rest.left);
    RepFrame(mem, mem', mem[m].right, rest.right);
  }

  /// Writing the edge at the end of a path

  /** Stores `p` in the root variable (no owner) or in a child field. */
  function WriteEdge<K>(mem: Mem<K>, root: Addr, owner: Addr, dir: Dir, p: Addr): (Addr, Mem<K>)
    requires owner != NULL ==> owner in mem
  {
    if owner == NULL then (p, mem) else (root, mem[owner := mem[owner].Set(dir, p)])
  }

  ghost predicate EndsAt<K>(path: Path<K>, owner: Addr, dir: Dir) {
    match path
    case Top => owner == NULL
    case Down(_, d, e, _) => owner == e.addr != NULL && dir == d
  }

  lemma WriteHole<K>(mem: Mem<K>, root: Addr, path: Path<K>, hole: Addr, owner: Addr, dir: Dir, p: Addr)
    requires RepPath(mem, root, path, hole) && ApartPath(path) && EndsAt(path, owner, dir)
    ensures path.Down? ==> owner in mem && owner in PathAddrs(path)
    ensures var (root', mem') := WriteEdge(mem, root, owner, dir, p);
            RepPath(mem', root', path, p) && OnlyEdges(mem, mem', PathAddrs(path))
  {
    if path.Down? {
      PathRefill(mem, mem[owner := mem[owner].Set(dir, p)], root, path, hole, p);
    }
  }

  lemma OnlyEdgesTrans<K>(mem: Mem<K>, mem1: Mem<K>, mem2: Mem<K>, s: set<Addr>, u: set<Addr>)
    requires OnlyEdges(mem, mem1, s) && OnlyEdges(mem1, mem2, s) && s <= u
    ensures OnlyEdges(mem, mem2, u)
  {
  }

  /// The zipping loop

  /** `path` has been laid out, `ls` and `rs` remain. */
  datatype Merge<K> = Merge(path: Path<K>, ls: Tree<K>, rs: Tree<K>) {
    ghost predicate Disjoint(all: set<Addr>) {
      && ApartPath(path) && Apart(ls) && Apart(rs)
      && PathAddrs(path) !! Addrs(ls) && PathAddrs(path) !! Addrs(rs) && Addrs(ls) !! Addrs(rs)
      && PathAddrs(path) + Addrs(ls) + Addrs(rs) <= all
    }

    ghost predicate InMem(mem: Mem<K>, root: Addr, hole: Addr, l: Addr, r: Addr) {
      RepPath(mem, root, path, hole) && Rep(mem, l, ls) && Rep(mem, r, rs)
    }

    ghost function Next(): Merge<K>
      requires ls.Node? && rs.Node?
    {
      if RankLess(ls.elem, rs.elem) then Merge(Down(path, L, rs.elem, rs.right), ls, rs.left)
      else Merge(Down(path, R, ls.elem, ls.left), ls.right, rs)
    }
  }

  lemma MergeKeeps<K>(j: Merge<K>, all: set<Addr>)
    requires j.Disjoint(all) && j.ls.Node? && j.rs.Node?
    ensures j.Next().Disjoint(all) && Fill(j.Next().path, Zip(j.Next().ls, j.Next().rs))
            == Fill(j.path, Zip(j.ls, j.rs))
  {
  }

  lemma MergeInMem<K>(mem: Mem<K>, root: Addr, hole: Addr, l: Addr, r: Addr, owner: Addr, dir: Dir, j: Merge<K>,
                      all: set<Addr>)
    requires j.Disjoint(all) && j.InMem(mem, root, hole, l, r) && EndsAt(j.path, owner, dir)
    requires j.ls.Node? && j.rs.Node?
    ensures owner != NULL ==> owner in mem
    ensures var right := RankLess(j.ls.elem, j.rs.elem);
            var (root', mem') := WriteEdge(mem, root, owner, dir, if right then r else l);
            && OnlyEdges(mem, mem', all) && l in mem && r in mem
            && if right then j.Next().InMem(mem', root', mem[r].left, l, mem[r].left)
               else j.Next().InMem(mem', root', mem[l].right, mem[l].right, r)
  {
    var right := RankLess(j.ls.elem, j.rs.elem);
    WriteHole(mem, root, j.path, hole, owner, dir, if right then r else l);
    var (root', mem') := WriteEdge(mem, root, owner, dir, if right then r else l);
    RepFrame(mem, mem', l, j.ls);
    RepFrame(mem, mem', r, j.rs);
  }

  /// The searching walk

  /** `path` leads from the root of `t` to the subtree `sub`. */
  datatype Descent<K> = Descent(path: Path<K>, sub: Tree<K>) {
    ghost predicate Disjoint(t: Tree<K>) {
      && ApartPath(path) && Apart(sub) && PathAddrs(path) !! Addrs(sub)
      && PathAddrs(path) + Addrs(sub) == Addrs(t) && Fill(path, sub) == t
    }

    ghost predicate InMem(mem: Mem<K>, root: Addr, cur: Addr) {
      RepPath(mem, root, path, cur) && Rep(mem, cur, sub)
    }

    ghost function Child(dir: Dir): Descent<K>
      requires sub.Node?
    {
      if dir.L? then Descent(Down(path, L, sub.elem, sub.right), sub.left)
      else Descent(Down(path, R, sub.elem, sub.left), sub.right)
    }
  }

  lemma DescentStarts<K>(mem: Mem<K>, root: Addr, t: Tree<K>)
    requires Rep(mem, root, t) && Apart(t)
    ensures Descent(Top, t).Disjoint(t) && Descent(Top, t).InMem(mem, root, root)
    ensures forall u: Tree<K> :: Fill(Top, u) == u
  {
  }

  lemma RemoveFollows<K>(cmp: (K, K) -> Cmp, d: Descent<K>, x: Elem<K>)
    requires d.sub.Node? && UniqueCmp(cmp, x, d.sub.elem) != EQ
    ensures var d' := d.Child(if UniqueCmp(cmp, x, d.sub.elem) == LESS then L else R);
            Fill(d'.path, Remove(cmp, d'.sub, x)) == Fill(d.path, Remove(cmp, d.sub, x))
  {
  }

  lemma {:induction false} ZipAddrs<K>(l: Tree<K>, r: Tree<K>)
    ensures Addrs(Zip(l, r)) == Addrs(l) + Addrs(r)
    decreases l, r
  {
    if l.Node? && r.Node? {
      ZipAddrs(l, r.left);
      ZipAddrs(l.right, r);
    }
  }

  lemma DescendKeeps<K>(mem: Mem<K>, root: Addr, cur: Addr, t: Tree<K>, d: Descent<K>, dir: Dir)
    requires d.Disjoint(t) && d.InMem(mem, root, cur) && d.sub.Node?
    ensures cur in mem && d.Child(dir).Disjoint(t) && d.Child(dir).InMem(mem, root, mem[cur].Child(dir))
    ensures EndsAt(d.Child(dir).path, cur, dir)
  {
  }

  /** Putting another tree into the hole gives the whole tree with that part replaced. */
  lemma ReplaceSub<K>(mem: Mem<K>, mem': Mem<K>, root: Addr, cur: Addr, t: Tree<K>, d: Descent<K>, sub: Tree<K>)
    requires d.Disjoint(t) && RepPath(mem, root, d.path, cur) && Same(mem, mem', PathAddrs(d.path))
    requires Rep(mem', cur, sub)
    ensures Rep(mem', root, Fill(d.path, sub))
  {
    PathFrame(mem, mem', root, d.path, cur);
    FillRep(mem', root, d.path, cur, sub);
  }

  /// An element whose child links are cleared

  /** `t` with everything below the element at `a` cut off. */
  ghost function Stripped<K>(t: Tree<K>, a: Addr): Tree<K> {
    match t
    case Leaf => Leaf
    case Node(l, e, r) => if e.addr == a then Node(Leaf, e, Leaf) else Node(Stripped(l, a), e, Stripped(r, a))
  }

  lemma {:induction false} StrippedIsValid<K>(cmp: (K, K) -> Cmp, t: Tree<K>, a: Addr)
    requires Valid(cmp, t) && Apart(t)
    ensures Valid(cmp, Stripped(t, a)) && Elems(Stripped(t, a)) <= Elems(t)
    ensures Apart(Stripped(t, a)) && Addrs(Stripped(t, a)) <= Addrs(t)
    ensures a in Addrs(t) <==> a in Addrs(Stripped(t, a))
    ensures a !in Addrs(t) ==> Stripped(t, a) == t
  {
    if t.Node? && t.elem.addr != a {
      StrippedIsValid(cmp, t.left, a);
      StrippedIsValid(cmp, t.right, a);
    }
  }

  lemma {:induction false} StrippedRep<K>(mem: Mem<K>, p: Addr, t: Tree<K>, a: Addr)
    requires Rep(mem, p, t) && Apart(t) && a in mem
    ensures Rep(mem[a := mem[a].(left := NULL, right := NULL)], p, Stripped(t, a))
    decreases t
  {
    if t.Node? && t.elem.addr != a {
      StrippedRep(mem, mem[p].left, t.left, a);
      StrippedRep(mem, mem[p].right, t.right, a);
    }
  }

  /** Searching for an element of the tree never leaves its subtree, and meets no smaller rank before it. */
  lemma SearchFollows<K(!new)>(cmp: (K, K) -> Cmp, t: Tree<K>, x: Elem<K>)
    requires IsOrder(cmp) && Valid(cmp, t) && t.Node?
    ensures x in Elems(t) && x.addr != t.elem.addr ==>
              && !RankLess(t.elem, x)
              && x in Elems(if UniqueCmp(cmp, x, t.elem) == MORE then t.right else t.left)
  {
    SidesByOrder(cmp, t);
    LessAsym(cmp, x, t.elem);
  }

  /** The element at `a`, if it is in the tree, has no children. */
  ghost predicate Childless<K>(t: Tree<K>, a: Addr) {
    match t
    case Leaf => true
    case Node(l, e, r) => if e.addr == a then l.Leaf? && r.Leaf? else Childless(l, a) && Childless(r, a)
  }

  /** Inserting an element that is already in the tree cuts off its children: it is harmless exactly if it has none. */
  lemma {:induction false} ReinsertKeepsIffChildless<K(!new)>(cmp: (K, K) -> Cmp, t: Tree<K>, x: Elem<K>)
    requires IsOrder(cmp) && Valid(cmp, t) && Apart(t) && x in Elems(t)
    ensures Insert(cmp, Stripped(t, x.addr), x) == t <==> Childless(t, x.addr)
  {
    StrippedIsValid(cmp, t, x.addr);
    StrippedHolds(t, x);
    InsertPresent(cmp, Stripped(t, x.addr), x);
    StrippedSame(t, x.addr);
  }

  lemma {:induction false} StrippedHolds<K>(t: Tree<K>, x: Elem<K>)
    requires Apart(t) && x in Elems(t)
    ensures x in Elems(Stripped(t, x.addr))
  {
    AddrsOfElems(t.left);
    AddrsOfElems(t.right);
    if t.elem.addr != x.addr {
      StrippedHolds(if x in Elems(t.left) then t.left else t.right, x);
    }
  }

  lemma {:induction false} StrippedSame<K>(t: Tree<K>, a: Addr)
    ensures Stripped(t, a) == t <==> Childless(t, a)
  {
    if t.Node? {
      StrippedSame(t.left, a);
      StrippedSame(t.right, a);
    }
  }

  lemma {:induction false} InsertPresent<K(!new)>(cmp: (K, K) -> Cmp, t: Tree<K>, x: Elem<K>)
    requires IsOrder(cmp) && Valid(cmp, t) && x in Elems(t)
    ensures Insert(cmp, t, x) == t
  {
    SearchFollows(cmp, t, x);
    if t.elem.addr != x.addr {
      InsertPresent(cmp, if UniqueCmp(cmp, x, t.elem) == MORE then t.right else t.left, x);
    }
  }

  lemma SpineFollows<K>(dir: Dir, goesLeft: Elem<K> -> bool, d: Descent<K>)
    requires d.sub.Node? && goesLeft(d.sub.elem) == dir.R?
    ensures Fill(d.Child(dir).path, Stays(dir, goesLeft, d.Child(dir).sub)) == Fill(d.path, Stays(dir, goesLeft, d.sub))
    ensures Moves(dir, goesLeft, d.Child(dir).sub) == Moves(dir, goesLeft, d.sub)
  {
  }

  /** The three parts of a key iteration, with the skipped sides left out. */
  lemma IterSplits<K(!new)>(cmp: (K, K) -> Cmp, key: K, cb: (seq<Elem<K>>, Elem<K>) -> Addr, seen: seq<Elem<K>>,
                     t: Tree<K>)
    requires IsOrder(cmp) && Valid(cmp, t) && t.Node?
    ensures var eq := cmp(key, t.elem.key);
            var (r1, s1) := if eq != MORE then Visit(cb, seen, WithKey(cmp, key, InOrder(t.left))) else (NULL, seen);
            var (r2, s2) := if eq == EQ then (cb(s1, t.elem), s1 + [t.elem]) else (NULL, s1);
            Visit(cb, seen, WithKey(cmp, key, InOrder(t))) ==
              if r1 != NULL then (r1, s1)
              else if r2 != NULL then (r2, s2)
              else if eq != LESS then Visit(cb, s2, WithKey(cmp, key, InOrder(t.right)))
              else (NULL, s2)
  {
    var a, b, mid := WithKey(cmp, key, InOrder(t.left)), WithKey(cmp, key, InOrder(t.right)),
      WithKey(cmp, key, [t.elem]);
    SkippedSide(cmp, key, t);
    InOrderIsSorted(cmp, t.left);
    InOrderIsSorted(cmp, t.right);
    if cmp(key, t.elem.key) == MORE { WithKeyNone(cmp, key, InOrder(t.left)); }
    if cmp(key, t.elem.key) == LESS { WithKeyNone(cmp, key, InOrder(t.right)); }
    WithKeyConcat(cmp, key, InOrder(t.left) + [t.elem], InOrder(t.right));
    WithKeyConcat(cmp, key, InOrder(t.left), [t.elem]);
    VisitConcat(cb, seen, a + mid, b);
    VisitConcat(cb, seen, a, mid);
  }

  class Heap<K(!new)> {
    const cmp: (K, K) -> Cmp
    var mem: Mem<K>

    function At(p: Addr): Elem<K>
      requires p in mem
      reads this
    {
      Elem(p, mem[p].key)
    }

    /** Walks down the `dir` spine from `start` and moves the elements of the other side below an edge.
        The two move helpers of insert and the two of unzip are this loop for the two directions. */
    method MoveAside(dir: Dir, goesLeft: Elem<K> -> bool, owner: Addr, fix: Dir, start: Addr, ghost s: Tree<K>)
      requires owner in mem && mem[owner].Child(fix) == NULL && owner !in Addrs(s)
      requires s.Node? && Rep(mem, start, s) && Apart(s) && goesLeft(s.elem) == dir.R?
      modifies this`mem
      ensures Rep(mem, start, Stays(dir, goesLeft, s))
      ensures OnlyEdges(old(mem), mem, Addrs(s) + {owner})
      ensures Rep(mem, mem[owner].Child(fix), Moves(dir, goesLeft, s))
      ensures mem[owner] == old(mem)[owner].Set(fix, mem[owner].Child(fix))
    {
      hide Fill, PathAddrs, ApartPath, Apart, RepPath, Addrs;
      var cur, fixOwner, fixDir := start, owner, fix;
      ghost var w := Walk(Top, Top, s).Pass(dir);
      WalkStarts(mem, dir, goesLeft, s, start, owner, fix);
      while mem[cur].Child(dir) != NULL
        invariant w.Disjoint(owner, s) && w.InMem(mem, dir, start, owner, fix) && w.Sums(dir, goesLeft, s)
        invariant cur == w.stay.elem.addr && (fixOwner, fixDir) == w.FixEdge(dir, owner, fix)
        invariant OnlyEdges(old(mem), mem, Addrs(s) + {owner})
        invariant mem[owner] == old(mem)[owner].Set(fix, mem[owner].Child(fix))
        decreases w.rest
      {
        var m := mem[cur].Child(dir);
        if goesLeft(At(m)) == dir.R? {
          PassKeeps(mem, dir, goesLeft, s, start, owner, fix, w);
          cur, w := m, w.Pass(dir);
        } else {
          MoveKeeps(dir, goesLeft, s, owner, w);
          MoveInMem(mem, dir, s, start, owner, fix, w, Moved(mem, dir, cur, m, (fixOwner, fixDir)));
          mem := mem[cur := mem[cur].Set(dir, mem[m].Child(dir.Other()))];
          mem := mem[m := mem[m].Set(dir.Other(), NULL)];
          mem := mem[fixOwner := mem[fixOwner].Set(fixDir, m)];
          fixOwner, fixDir := m, dir.Other();
          w := w.Move(dir);
        }
      }
      FillRep(mem, start, w.stay, NULL, Leaf);
      FillRep(mem, mem[owner].Child(fix), w.moved, NULL, Leaf);
    }

    /** Merges two trees along their inner spines. */
    method Zip(left: Addr, right: Addr, ghost lt: Tree<K>, ghost rt: Tree<K>) returns (root: Addr)
      requires Rep(mem, left, lt) && Rep(mem, right, rt)
      requires Apart(lt) && Apart(rt) && Addrs(lt) !! Addrs(rt)
      modifies this`mem
      ensures Rep(mem, root, ZipTree.Zip(lt, rt)) && OnlyEdges(old(mem), mem, Addrs(lt) + Addrs(rt))
    {
      if left == NULL { return right; }
      if right == NULL { return left; }
      var l, r := left, right;
      root := NULL;
      var owner, dir := NULL, L;
      ghost var j, hole := Merge(Top, lt, rt), NULL;
      while l != NULL && r != NULL
        invariant j.Disjoint(Addrs(lt) + Addrs(rt)) && j.InMem(mem, root, hole, l, r) && EndsAt(j.path, owner, dir)
        invariant Fill(j.path, ZipTree.Zip(j.ls, j.rs)) == ZipTree.Zip(lt, rt)
        invariant OnlyEdges(old(mem), mem, Addrs(lt) + Addrs(rt))
        decreases j.ls, j.rs
      {
        MergeKeeps(j, Addrs(lt) + Addrs(rt));
        MergeInMem(mem, root, hole, l, r, owner, dir, j, Addrs(lt) + Addrs(rt));
        j := j.Next();
        if RankLess(At(l), At(r)) {
          hole := mem[r].left;
          var (root', mem') := WriteEdge(mem, root, owner, dir, r);
          root, mem := root', mem';
          owner, dir, r := r, L, mem[r].left;
        } else {
          hole := mem[l].right;
          var (root', mem') := WriteEdge(mem, root, owner, dir, l);
          root, mem := root', mem';
          owner, dir, l := l, R, mem[l].right;
        }
      }
      var last := if l != NULL then l else r;
      WriteHole(mem, root, j.path, hole, owner, dir, last);
      var (root', mem') := WriteEdge(mem, root, owner, dir, last);
      RepFrame(mem, mem', last, if l != NULL then j.ls else j.rs);
      root, mem := root', mem';
      FillRep(mem, root, j.path, last, if l != NULL then j.ls else j.rs);
    }

    /** Goes down to the place of the element at `x`: the top element of smaller rank, an empty edge, or `x` itself. */
    method FindPlace(root: Addr, x: Addr, ghost t: Tree<K>)
      returns (cur: Addr, prev: Addr, prevDir: Dir, curOrder: Cmp, ghost d: Descent<K>)
      requires IsOrder(cmp) && x in mem && Rep(mem, root, t) && Valid(cmp, t) && Apart(t)
      ensures d.Disjoint(t) && d.InMem(mem, root, cur) && EndsAt(d.path, prev, prevDir)
      ensures Fill(d.path, ZipTree.Insert(cmp, d.sub, At(x))) == ZipTree.Insert(cmp, t, At(x))
      ensures cur != NULL ==> cur in mem && curOrder == UniqueCmp(cmp, At(x), At(cur))
      ensures cur != NULL && curOrder != EQ ==> RankLess(At(cur), At(x))
      ensures At(x) in Elems(t) ==> cur != NULL && curOrder == EQ
    {
      prev, prevDir, cur, curOrder, d := NULL, L, root, EQ, Descent(Top, t);
      while cur != NULL
        invariant d.Disjoint(t) && d.InMem(mem, root, cur) && EndsAt(d.path, prev, prevDir)
        invariant Fill(d.path, ZipTree.Insert(cmp, d.sub, At(x))) == ZipTree.Insert(cmp, t, At(x))
        invariant Valid(cmp, d.sub) && (At(x) in Elems(t) ==> At(x) in Elems(d.sub))
        decreases d.sub
      {
        curOrder := UniqueCmp(cmp, At(x), At(cur));
        if curOrder == EQ || RankLess(At(cur), At(x)) {
          SearchFollows(cmp, d.sub, At(x));
          return;
        }
        prev, prevDir := cur, if curOrder == MORE then R else L;
        SearchFollows(cmp, d.sub, At(x));
        DescendKeeps(mem, root, cur, t, d, prevDir);
        cur := mem[cur].Child(prevDir);
        d := d.Child(prevDir);
      }
    }

    /** Puts `x` at its place in key order and rank, after clearing its child links. */
    method Insert(root: Addr, x: Addr, ghost t: Tree<K>) returns (root': Addr)
      requires IsOrder(cmp) && x in mem && x != NULL && Rep(mem, root, t) && Valid(cmp, t)
      modifies this`mem
      ensures OnlyEdges(old(mem), mem, Addrs(t) + {x})
      ensures Rep(mem, root', ZipTree.Insert(cmp, Stripped(t, x), At(x)))
    {
      hide Fill, PathAddrs, ApartPath, Apart, RepPath, Addrs, Elems, Valid, RankLess;
      RepInMem(mem, root, t);
      ValidIsApart(cmp, t);
      StrippedRep(mem, root, t, x);
      StrippedIsValid(cmp, t, x);
      mem := mem[x := mem[x].(left := NULL, right := NULL)];
      ghost var mem1, t1 := mem, Stripped(t, x);
      AddrsOfElems(t1);
      RepInMem(mem, root, t1);
      if root == NULL { return x; }
      var cur, prev, prevDir, curOrder, d := FindPlace(root, x, t1);
      if cur != NULL && curOrder == EQ {
        FillRep(mem, root, d.path, cur, d.sub);
        return root;
      }
      root' := Place(root, x, cur, prev, prevDir, curOrder, t1, d);
      OnlyEdgesTrans(old(mem), mem1, mem, Addrs(t) + {x}, Addrs(t) + {x});
    }

    /** The second half of insert: `x` takes the place of `cur` and `cur` is split below `x`. */
    method Place(root: Addr, x: Addr, cur: Addr, prev: Addr, prevDir: Dir, curOrder: Cmp, ghost t: Tree<K>,
                 ghost d: Descent<K>)
      returns (root': Addr)
      requires x in mem && x != NULL && mem[x].left == NULL && mem[x].right == NULL && x !in Addrs(t)
      requires d.Disjoint(t) && d.InMem(mem, root, cur) && EndsAt(d.path, prev, prevDir)
      requires cur != NULL ==> cur in mem && curOrder == UniqueCmp(cmp, At(x), At(cur)) != EQ
      modifies this`mem
      ensures OnlyEdges(old(mem), mem, Addrs(t) + {x})
      ensures var (a, b) := ZipTree.Unzip(Before(cmp, At(x)), d.sub);
              Rep(mem, root', Fill(d.path, Node(a, At(x), b)))
    {
      hide Fill, PathAddrs, ApartPath, Apart, RepPath, Addrs, UniqueCmp, RankLess;
      WriteHole(mem, root, d.path, cur, prev, prevDir, x);
      var (root1, mem1) := WriteEdge(mem, root, prev, prevDir, x);
      RepFrame(mem, mem1, cur, d.sub);
      root', mem := root1, mem1;
      if cur == NULL {
        FillRep(mem, root', d.path, x, Node(Leaf, At(x), Leaf));
        return;
      }
      SplitBelow(x, cur, curOrder, d.sub);
      ghost var (a, b) := ZipTree.Unzip(Before(cmp, At(x)), d.sub);
      ReplaceSub(mem1, mem, root', x, t, d, Node(a, At(x), b));
      OnlyEdgesTrans(old(mem), mem1, mem, Addrs(t) + {x}, Addrs(t) + {x});
    }

    /** Hangs `cur` below `x` and moves the elements on the wrong side of `x` over. */
    method SplitBelow(x: Addr, cur: Addr, curOrder: Cmp, ghost s: Tree<K>)
      requires x in mem && x != NULL && mem[x].left == NULL && mem[x].right == NULL && x !in Addrs(s)
      requires Rep(mem, cur, s) && Apart(s) && s.Node? && curOrder == UniqueCmp(cmp, At(x), At(cur)) != EQ
      modifies this`mem
      ensures OnlyEdges(old(mem), mem, Addrs(s) + {x})
      ensures var (a, b) := ZipTree.Unzip(Before(cmp, At(x)), s);
              Rep(mem, x, Node(a, At(x), b))
    {
      hide Addrs, UniqueCmp, ZipTree.Unzip, Apart;
      ghost var mem1 := mem;
      var dir, goesLeft := if curOrder == MORE then R else L, Before(cmp, At(x));
      mem := mem[x := mem[x].Set(dir.Other(), cur)];
      RepFrame(mem1, mem, cur, s);
      MoveAside(dir, goesLeft, x, dir, cur, s);
    }

    /** Goes down to the element at `x`, or to the empty edge where it would be. */
    method FindEdge(root: Addr, x: Addr, ghost t: Tree<K>)
      returns (cur: Addr, prev: Addr, prevDir: Dir, ghost d: Descent<K>)
      requires IsOrder(cmp) && x in mem && Rep(mem, root, t) && Valid(cmp, t) && Apart(t)
      ensures d.Disjoint(t) && d.InMem(mem, root, cur) && EndsAt(d.path, prev, prevDir)
      ensures Fill(d.path, ZipTree.Remove(cmp, d.sub, At(x))) == ZipTree.Remove(cmp, t, At(x))
      ensures cur == if At(x) in Elems(t) then x else NULL
    {
      hide Fill, PathAddrs, ApartPath, Apart, RepPath, Addrs;
      cur, prev, prevDir, d := root, NULL, L, Descent(Top, t);
      DescentStarts(mem, root, t);
      while cur != NULL && UniqueCmp(cmp, At(x), At(cur)) != EQ
        invariant d.Disjoint(t) && d.InMem(mem, root, cur) && EndsAt(d.path, prev, prevDir)
        invariant Fill(d.path, ZipTree.Remove(cmp, d.sub, At(x))) == ZipTree.Remove(cmp, t, At(x))
        invariant Valid(cmp, d.sub) && (At(x) in Elems(t) <==> At(x) in Elems(d.sub))
        decreases d.sub
      {
        prev, prevDir := cur, if UniqueCmp(cmp, At(x), At(cur)) == LESS then L else R;
        SearchFollows(cmp, d.sub, At(x));
        RemoveFollows(cmp, d, At(x));
        DescendKeeps(mem, root, cur, t, d, prevDir);
        cur := mem[cur].Child(prevDir);
        d := d.Child(prevDir);
      }
    }

    /** Takes `x` out of the tree and returns it, or NULL if it is not there. */
    method Remove(root: Addr, x: Addr, ghost t: Tree<K>) returns (root': Addr, found: Addr)
      requires IsOrder(cmp) && x in mem && x != NULL && Rep(mem, root, t) && Valid(cmp, t)
      modifies this`mem
      ensures OnlyEdges(old(mem), mem, Addrs(t))
      ensures Rep(mem, root', ZipTree.Remove(cmp, t, At(x)))
      ensures found == if At(x) in Elems(t) then x else NULL
    {
      RepInMem(mem, root, t);
      ValidIsApart(cmp, t);
      var cur, prev, prevDir, d := FindEdge(root, x, t);
      found := cur;
      if cur == NULL {
        FillRep(mem, root, d.path, NULL, Leaf);
        return root, NULL;
      }
      root' := Cut(root, cur, prev, prevDir, t, d);
    }

    /** The second half of remove: the two subtrees of `cur` are zipped and take its place. */
    method Cut(root: Addr, cur: Addr, prev: Addr, prevDir: Dir, ghost t: Tree<K>, ghost d: Descent<K>)
      returns (root': Addr)
      requires d.Disjoint(t) && d.InMem(mem, root, cur) && EndsAt(d.path, prev, prevDir) && d.sub.Node?
      modifies this`mem
      ensures OnlyEdges(old(mem), mem, Addrs(t))
      ensures Rep(mem, root', Fill(d.path, ZipTree.Zip(d.sub.left, d.sub.right)))
    {
      hide Fill, PathAddrs, ApartPath, RepPath;
      ghost var mem0, z := mem, ZipTree.Zip(d.sub.left, d.sub.right);
      var p := Zip(mem[cur].left, mem[cur].right, d.sub.left, d.sub.right);
      PathFrame(mem0, mem, root, d.path, cur);
      ZipAddrs(d.sub.left, d.sub.right);
      WriteHole(mem, root, d.path, cur, prev, prevDir, p);
      ghost var mem1 := mem;
      var (root1, mem2) := WriteEdge(mem, root, prev, prevDir, p);
      RepFrame(mem, mem2, p, z);
      root', mem := root1, mem2;
      FillRep(mem, root', d.path, p, z);
      OnlyEdgesTrans(mem0, mem1, mem, Addrs(t), Addrs(t));
    }

    /** Splits a tree: keys up to `key` on the left, larger keys on the right. */
    method Unzip(root: Addr, key: K, ghost t: Tree<K>) returns (left: Addr, right: Addr)
      requires Rep(mem, root, t) && Apart(t)
      modifies this`mem
      ensures OnlyEdges(old(mem), mem, Addrs(t))
      ensures Rep(mem, left, ZipTree.Unzip(UpTo(cmp, key), t).0)
      ensures Rep(mem, right, ZipTree.Unzip(UpTo(cmp, key), t).1)
    {
      if root == NULL { return NULL, NULL; }
      var goesLeft := UpTo(cmp, key);
      var dir := if goesLeft(At(root)) then R else L;
      var other := UnzipSpine(dir, goesLeft, root, t);
      return if dir.R? then root else other, if dir.R? then other else root;
    }

    /** Walks the spine that stays with the root; the first element of the other side roots the other tree. */
    method UnzipSpine(dir: Dir, goesLeft: Elem<K> -> bool, root: Addr, ghost t: Tree<K>) returns (other: Addr)
      requires Rep(mem, root, t) && Apart(t) && t.Node? && goesLeft(t.elem) == dir.R?
      modifies this`mem
      ensures OnlyEdges(old(mem), mem, Addrs(t))
      ensures Rep(mem, root, Stays(dir, goesLeft, t)) && Rep(mem, other, Moves(dir, goesLeft, t))
    {
      hide Fill, PathAddrs, ApartPath, Apart, RepPath;
      ghost var d := Descent(Top, t);
      DescentStarts(mem, root, t);
      var prev, cur := NULL, root;
      while cur != NULL && goesLeft(At(cur)) == dir.R?
        invariant d.Disjoint(t) && d.InMem(mem, root, cur) && EndsAt(d.path, prev, dir)
        invariant mem == old(mem) && (d.path.Top? ==> d.sub == t)
        invariant Fill(d.path, Stays(dir, goesLeft, d.sub)) == Stays(dir, goesLeft, t)
        invariant Moves(dir, goesLeft, d.sub) == Moves(dir, goesLeft, t)
        decreases d.sub
      {
        SpineFollows(dir, goesLeft, d);
        DescendKeeps(mem, root, cur, t, d, dir);
        prev := cur;
        cur := mem[cur].Child(dir);
        d := d.Child(dir);
      }
      if cur == NULL {
        FillRep(mem, root, d.path, NULL, Leaf);
        return NULL;
      }
      SplitOff(dir, goesLeft, root, prev, cur, t, d);
      return cur;
    }

    /** Where the side changes, the rest of the tree is cut off and split in turn. */
    method SplitOff(dir: Dir, goesLeft: Elem<K> -> bool, root: Addr, prev: Addr, cur: Addr, ghost t: Tree<K>,
                    ghost d: Descent<K>)
      requires d.Disjoint(t) && d.InMem(mem, root, cur) && EndsAt(d.path, prev, dir) && d.path.Down?
      requires d.sub.Node? && goesLeft(d.sub.elem) == dir.L?
      modifies this`mem
      ensures OnlyEdges(old(mem), mem, Addrs(t))
      ensures Rep(mem, root, Fill(d.path, Stays(dir, goesLeft, d.sub)))
      ensures Rep(mem, cur, Moves(dir, goesLeft, d.sub))
    {
      hide Fill, PathAddrs, ApartPath, Apart, RepPath, Addrs, ZipTree.Unzip;
      WriteHole(mem, root, d.path, cur, prev, dir, NULL);
      ghost var mem0 := mem;
      mem := mem[prev := mem[prev].Set(dir, NULL)];
      ghost var mem1 := mem;
      RepFrame(mem0, mem, cur, d.sub);
      MoveAside(dir.Other(), goesLeft, prev, dir, cur, d.sub);
      PathRefill(mem1, mem, root, d.path, NULL, mem[prev].Child(dir));
      FillRep(mem, root, d.path, mem[prev].Child(dir), Stays(dir, goesLeft, d.sub));
      OnlyEdgesTrans(mem0, mem1, mem, Addrs(t), Addrs(t));
    }

    /** Finds the element with an equal key. */
    method Find(root: Addr, key: K, ghost t: Tree<K>) returns (cur: Addr)
      requires Rep(mem, root, t)
      ensures Rep(mem, cur, ZipTree.Find(cmp, t, key))
    {
      cur := root;
      ghost var sub := t;
      while cur != NULL
        invariant Rep(mem, cur, sub) && ZipTree.Find(cmp, sub, key) == ZipTree.Find(cmp, t, key)
        decreases sub
      {
        match cmp(key, mem[cur].key)
        case EQ => return;
        case LESS => cur, sub := mem[cur].left, sub.left;
        case MORE => cur, sub := mem[cur].right, sub.right;
      }
    }

    /** Visits the elements with an equal key in order, until the callback returns non-NULL. */
    method IterKey(p: Addr, key: K, cb: (seq<Elem<K>>, Elem<K>) -> Addr, seen: seq<Elem<K>>, ghost t: Tree<K>)
      returns (res: Addr, seen': seq<Elem<K>>)
      requires IsOrder(cmp) && Rep(mem, p, t) && Valid(cmp, t)
      ensures (res, seen') == Visit(cb, seen, WithKey(cmp, key, InOrder(t)))
      decreases t
    {
      res, seen' := NULL, seen;
      if p == NULL { return; }
      var eq := cmp(key, mem[p].key);
      IterSplits(cmp, key, cb, seen, t);
      if eq != MORE {
        res, seen' := IterKey(mem[p].left, key, cb, seen', t.left);
        if res != NULL { return; }
      }
      if eq == EQ {
        res := cb(seen', At(p));
        seen' := seen' + [At(p)];
        if res != NULL { return; }
      }
      if eq != LESS {
        res, seen' := IterKey(mem[p].right, key, cb, seen', t.right);
      }
    }
  }
}
