/** The node store on the zip tree, refining the index of `NodeStoreSpec`. */
module NodeStore {
  import opened ZipHash
  import opened ZipTree
  import opened NodeStoreSpec

  /** What the tree orders entries by. */
  datatype NodeKey = NodeKey(hash: nat, id: NodeId)

  function CmpNodeId(order: (NodeId, NodeId) -> Cmp): (NodeKey, NodeKey) -> Cmp {
    (a: NodeKey, b: NodeKey) =>
      if a.hash < b.hash then LESS else if a.hash > b.hash then MORE else order(a.id, b.id)
  }

  /** A total order on NodeIds. */
  ghost predicate IsIdOrder(order: (NodeId, NodeId) -> Cmp) {
    IsOrder(order) && forall a, b {:trigger Compared(a, b)} :: order(a, b) == EQ ==> a == b
  }

  /** Comparing hashes and then ids is a total order. */
  lemma CmpIsOrder(order: (NodeId, NodeId) -> Cmp)
    requires IsIdOrder(order)
    ensures IsOrder(CmpNodeId(order))
  {
    var cmp := CmpNodeId(order);
    forall a, b ensures (cmp(a, b) == LESS <==> cmp(b, a) == MORE) && cmp(a, a) == EQ {
      assert Compared(a.id, b.id) && Compared(a.id, a.id);
    }
    forall a, b, c | cmp(a, b) != MORE && cmp(b, c) != MORE ensures cmp(a, c) != MORE {
      assert Compared(a.id, b.id) && Compared(b.id, c.id);
    }
  }

  /** The key of an id, and the elements that the tree holds for an index. */
  function KeyOf(hash: NodeId -> nat, id: NodeId): NodeKey {
    NodeKey(hash(id), id)
  }

  ghost function Keyed(hash: NodeId -> nat, index: map<NodeId, Addr>): set<Elem<NodeKey>> {
    set id <- index :: Elem(index[id], KeyOf(hash, id))
  }

  /** No entry stands for two ids. */
  ghost predicate Injective(index: map<NodeId, Addr>) {
    forall i <- index, j <- index :: index[i] == index[j] ==> i == j
  }

  lemma KeyedUpdates(hash: NodeId -> nat, index: map<NodeId, Addr>, id: NodeId, a: Addr)
    ensures id !in index ==> Keyed(hash, index[id := a]) == Keyed(hash, index) + {Elem(a, KeyOf(hash, id))}
    ensures id in index ==> Keyed(hash, index - {id}) == Keyed(hash, index) - {Elem(index[id], KeyOf(hash, id))}
  {
    if id !in index {
      var l, r := Keyed(hash, index[id := a]), Keyed(hash, index) + {Elem(a, KeyOf(hash, id))};
      forall e <- r ensures e in l { if e != Elem(a, KeyOf(hash, id)) { assert e.key.id in index; }
                                    else { assert id in index[id := a]; } }
    }
  }

  /** Lookup by hash and then id finds an entry exactly if the id itself is in the index. */
  lemma FindIsIndex(order: (NodeId, NodeId) -> Cmp, hash: NodeId -> nat, t: Tree<NodeKey>, index: map<NodeId, Addr>,
                    id: NodeId)
    requires IsIdOrder(order) && Valid(CmpNodeId(order), t) && Elems(t) == Keyed(hash, index)
    ensures var f := Find(CmpNodeId(order), t, KeyOf(hash, id));
            if id in index then f.Node? && f.elem.addr == index[id] else f == Leaf
  {
    var cmp, key := CmpNodeId(order), KeyOf(hash, id);
    CmpIsOrder(order);
    FindIsTopmost(cmp, t, key);
    forall e <- Elems(t) ensures cmp(key, e.key) == EQ <==> e.key.id == id {
      assert Compared(id, e.key.id) && Compared(id, id);
    }
    if id in index { assert Elem(index[id], key) in Elems(t); }
  }

  class Store {
    const hash: NodeId -> nat
    const order: (NodeId, NodeId) -> Cmp

    var entries: map<Addr, Entry>
    var tree: Tree<NodeKey>
    var size: nat
    var refTypes: seq<NodeId>
    var next: Addr
    ghost var index: map<NodeId, Addr>
    ghost var handles: multiset<Addr>
    ghost var loose: set<Addr>

    ghost function View(): State
      reads this
    {
      State(index, entries, handles, loose, next, refTypes)
    }

    ghost predicate TreeInv()
      reads this`tree, this`index
    {
      && IsIdOrder(order) && ZipTree.Valid(CmpNodeId(order), tree)
      && Elems(tree) == Keyed(hash, index) && Injective(index)
    }

    ghost predicate Valid()
      reads this
    {
      View().Inv() && TreeInv() && size == |index|
    }

    constructor (hash: NodeId -> nat, order: (NodeId, NodeId) -> Cmp)
      requires IsIdOrder(order)
      ensures Valid() && View() == State(map[], map[], multiset{}, {}, 1, [])
      ensures this.hash == hash && this.order == order
    {
      this.hash, this.order := hash, order;
      entries, tree, size, refTypes, next := map[], Leaf, 0, [], 1;
      index, handles, loose := map[], multiset{}, {};
    }

    function Lookup(id: NodeId): Tree<NodeKey>
      reads this
    {
      Find(CmpNodeId(order), tree, KeyOf(hash, id))
    }

    /** Finds the entry of an id and counts the handle. */
    method GetEntry(id: NodeId) returns (a: Addr)
      requires Valid()
      modifies this
      ensures Valid() && View() == GetS(old(View()), id).0 && a == GetS(old(View()), id).1.node
      ensures tree == old(tree)
    {
      hide Up, Down, State.Inv, State.EntryInv, IsIdOrder, Keyed, ZipTree.Valid, Elems;
      if id in index { IndexedExists(View(), id); }
      FindIsIndex(order, hash, tree, index, id);
      GetKeepsInv(View(), id);
      var f := Lookup(id);
      if f.Leaf? { return NULL; }
      a := f.elem.addr;
      var e := entries[a];
      entries := entries[a := e.(refCount := Up(e.refCount))];
      handles := handles + multiset{a};
    }

    /** Frees an entry that nobody refers to any more. */
    method Cleanup(a: Addr)
      requires a in entries
      modifies this`entries
      ensures entries == if old(entries)[a].refCount == 0
              && old(entries)[a].deleted then old(entries) - {a} else old(entries)
    {
      if entries[a].refCount > 0 { return; }
      if entries[a].deleted { entries := entries - {a}; }
    }

    /** Gives a handle back. */
    method Release(a: Addr)
      requires a in entries
      modifies this`entries, this`handles
      ensures View() == ReleaseS(old(View()), a)
      ensures old(Valid() && a in handles) ==> Valid()
    {
      hide Up, Down, State.Inv, State.EntryInv, TreeInv;
      if Valid() && a in handles { ReleaseKeepsInv(View(), a); }
      var e := entries[a];
      entries := entries[a := e.(refCount := Down(e.refCount))];
      handles := handles - multiset{a};
      Cleanup(a);
      assert entries == ReleaseS(old(View()), a).entries;
    }

    /** A fresh entry, owned by the caller. */
    method NewEntry(node: Node, orig: Addr) returns (a: Addr)
      requires Valid() && orig < next
      modifies this
      ensures Valid() && a == old(next) && View() == Allocate(old(View()), node, orig) && tree == old(tree)
    {
      hide Up, Down, State.Inv, State.EntryInv, IsIdOrder, Keyed, ZipTree.Valid, Elems;
      AllocateKeepsInv(View(), node, orig);
      a := next;
      entries := entries[a := Entry(0, false, orig, node)];
      next := next + 1;
      loose := loose + {a};
    }

    /** Gives up an entry that only the caller knows. */
    method DeleteEntry(a: Addr)
      requires Valid() && a in loose
      modifies this
      ensures Valid() && View() == Free(old(View()), a) && tree == old(tree)
    {
      hide Up, Down, State.Inv, State.EntryInv, IsIdOrder, Keyed, ZipTree.Valid, Elems;
      FreeKeepsInv(View(), a);
      entries, loose := entries - {a}, loose - {a};
    }

    /** Gets the node, copies it into a new entry that remembers the original, and releases the node. */
    method GetNodeCopy(id: NodeId) returns (status: Status, a: Addr)
      requires Valid()
      modifies this
      ensures Valid() && (View(), Answer(status, a)) == Effect(old(View()), NodeStoreSpec.Copy(id))
    {
      hide Up, Down, State.Inv, State.EntryInv, IsIdOrder, Keyed, ZipTree.Valid, Elems;
      if id in index { IndexedExists(View(), id); }
      if id in index { CopyRestores(View(), id); }
      var node := GetEntry(id);
      if node == NULL { return BadNodeIdUnknown, NULL; }
      a := NewEntry(entries[node].node, node);
      Release(node);
      return Good, a;
    }

    /** Takes an entry out of the tree; it lives on while there are handles. */
    method RemoveNode(id: NodeId) returns (status: Status)
      requires Valid()
      modifies this
      ensures Valid() && View() == Effect(old(View()), NodeStoreSpec.Remove(id)).0
              && status == Effect(old(View()), NodeStoreSpec.Remove(id)).1.status
    {
      hide Up, Down, State.Inv, State.EntryInv, IsIdOrder, Keyed, ZipTree.Valid, Elems;
      if id in index { IndexedExists(View(), id); }
      FindIsIndex(order, hash, tree, index, id);
      var f := Lookup(id);
      if f.Leaf? { return BadNodeIdUnknown; }
      var a := f.elem.addr;
      DetachKeepsInv(View(), id);
      RemoveFromTree(id, a);
      size := size - 1;
      entries := entries[a := entries[a].(deleted := true)];
      Cleanup(a);
      assert entries == Detach(old(View()), id).entries;
      return Good;
    }

    /** The id to insert a node with; `i=0` is replaced by the first candidate that is not yet used. */
    method PickId(id: NodeId, candidates: seq<nat>) returns (r: NodeId, taken: bool)
      requires Valid() && Offers(index.Keys, id, candidates)
      ensures r == ChosenId(index.Keys, id, candidates) && taken == (r in index)
    {
      hide State.Inv, State.EntryInv, ZipTree.Valid, Elems, Keyed, IsIdOrder, Injective;
      r := id;
      if id.Numeric? && id.n == 0 {
        var i := 0;
        taken := true;
        while taken
          invariant 0 <= i <= |candidates|
          invariant taken ==> ChosenId(index.Keys, id, candidates[i..]) == ChosenId(index.Keys, id, candidates)
          invariant taken ==> Offers(index.Keys, id, candidates[i..])
          invariant !taken ==> r == ChosenId(index.Keys, id, candidates) && r !in index
          decreases |candidates| - i, taken
        {
          assert candidates[i..][1..] == candidates[i + 1..];
          NextOffers(index.Keys, id, candidates[i..]);
          r := Numeric(id.ns, candidates[i]);
          FindIsIndex(order, hash, tree, index, r);
          taken := Lookup(r).Node?;
          if taken { i := i + 1; }
        }
      } else {
        FindIsIndex(order, hash, tree, index, id);
        taken := Lookup(id).Node?;
      }
    }

    /** Inserts an entry under its id, or under a generated one. */
    method InsertNode(a: Addr, candidates: seq<nat>) returns (status: Status, added: Addr)
      requires Valid() && NodeStoreSpec.Legal(View(), NodeStoreSpec.Insert(a, candidates))
      modifies this
      ensures Valid() && (View(), Answer(status, added)) == Effect(old(View()), NodeStoreSpec.Insert(a, candidates))
    {
      hide Up, Down, State.Inv, State.EntryInv, TreeInv, ChosenId, Offers;
      InsertKeepsInv(View(), a, candidates);
      var e := entries[a];
      var id, taken := PickId(e.node.id, candidates);
      if taken {
        DeleteEntry(a);
        return BadNodeIdExists, NULL;
      }
      var node := e.node.(id := id);
      if node.isRefType {
        if |refTypes| >= REFERENCETYPESET_MAX {
          DeleteEntry(a);
          return BadInternalError, NULL;
        }
        node := node.(refTypeIndex := |refTypes|);
      }
      LooseIsFree(View(), a);
      InsertIntoTree(id, a);
      if node.isRefType { refTypes := refTypes + [id]; }
      entries := entries[a := e.(node := node)];
      loose := loose - {a};
      size := size + 1;
      return Good, a;
    }

    /** Replaces the stored entry by a copy of it, unless it is no longer the one that was copied. */
    method ReplaceNode(a: Addr) returns (status: Status)
      requires Valid() && a in loose
      modifies this
      ensures Valid() && View() == ReplaceS(old(View()), a).0 && status == ReplaceS(old(View()), a).1.status
    {
      hide Up, Down, State.Inv, State.EntryInv, TreeInv;
      ghost var s0 := View();
      ReplaceKeepsInv(s0, a);
      LooseIsFree(s0, a);
      var id := entries[a].node.id;
      if id in index { IndexedExists(s0, id); ReplaceRestores(s0, a); }
      var orig := GetEntry(id);
      if orig == NULL {
        DeleteEntry(a);
        return BadNodeIdUnknown;
      }
      if orig != entries[a].orig {
        DeleteEntry(a);
        Release(orig);
        return BadInternalError;
      }
      Exchange(id, orig, a);
      return Good;
    }

    /** Puts `a` into the tree in the place of `orig` and gives `orig` up. */
    method Exchange(id: NodeId, orig: Addr, a: Addr)
      requires TreeInv() && id in index && index[id] == orig && orig in entries && (forall i <- index :: index[i] != a)
      modifies this`tree, this`index, this`entries, this`loose, this`handles
      ensures TreeInv() && |index| == old(|index|)
      ensures var g := old(View());
              View() == ReleaseS(g.(index := (g.index - {id})[id := a],
                                    entries := g.entries[orig := g.entries[orig].(deleted := true)],
                                    loose := g.loose - {a}), orig)
    {
      hide TreeInv, ReleaseS, Valid, State.Inv;
      RemoveFromTree(id, orig);
      InsertIntoTree(id, a);
      entries := entries[orig := entries[orig].(deleted := true)];
      loose := loose - {a};
      Release(orig);
    }

    /** The tree loses exactly this id. */
    method RemoveFromTree(id: NodeId, a: Addr)
      requires TreeInv() && id in index && a == index[id]
      modifies this`tree, this`index
      ensures TreeInv() && index == old(index) - {id} && |index| == |old(index)| - 1
    {
      var x := Elem(a, KeyOf(hash, id));
      CmpIsOrder(order);
      KeyedUpdates(hash, index, id, a);
      RemoveDeletes(CmpNodeId(order), tree, x);
      tree := ZipTree.Remove(CmpNodeId(order), tree, x);
      index := index - {id};
    }

    /** The tree gains exactly this id. */
    method InsertIntoTree(id: NodeId, a: Addr)
      requires TreeInv() && id !in index && (forall i <- index :: index[i] != a)
      modifies this`tree, this`index
      ensures TreeInv() && index == old(index)[id := a] && |index| == |old(index)| + 1
    {
      var x := Elem(a, KeyOf(hash, id));
      CmpIsOrder(order);
      KeyedUpdates(hash, index, id, a);
      InsertAdds(CmpNodeId(order), tree, x);
      tree := ZipTree.Insert(CmpNodeId(order), tree, x);
      index := index[id := a];
    }
  }
}
