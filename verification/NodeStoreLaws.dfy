/** What a client relies on, said of a step and not of the functions that make it up: the store is a map from ids
    to nodes, and each operation changes exactly its own part of it. */
module NodeStoreLaws {
  import opened NodeStoreSpec
  import opened ZipHash

  /** The store as a map. */
  function Contents(s: State): map<NodeId, Node>
    requires forall id <- s.index :: s.index[id] in s.entries
  {
    map id | id in s.index :: s.entries[s.index[id]].node
  }

  /// Insert

  /** The node asks for an id to be generated. */
  predicate AsksForId(node: Node) {
    node.id.Numeric? && node.id.n == 0
  }

  /** What an insert can run into: the id that the node brings along is taken, or there is no room for another
      reference type. */
  predicate IdTaken(s: State, node: Node) {
    !AsksForId(node) && node.id in s.index
  }

  predicate NoRoom(s: State, node: Node) {
    node.isRefType && |s.refTypes| >= 128
  }

  /** The entries but one are the same. */
  ghost predicate OthersKept(s: State, s': State, a: Addr) {
    forall b :: b != a ==> (b in s.entries <==> b in s'.entries) && (b in s.entries ==> s'.entries[b] == s.entries[b])
  }

  /** An insert is refused exactly in these two cases, and then the node is given up and nothing else changes. */
  lemma InsertRefused(s: State, a: Addr, candidates: seq<nat>)
    requires s.Inv() && Legal(s, Insert(a, candidates))
    ensures var (s', answer) := Step(s, Insert(a, candidates));
            var node := s.entries[a].node;
            && (answer.status == BadNodeIdExists <==> IdTaken(s, node))
            && (answer.status == BadInternalError <==> !IdTaken(s, node) && NoRoom(s, node))
            && (answer.status == Good <==> !IdTaken(s, node) && !NoRoom(s, node))
            && (answer.status != Good ==>
                  && answer.node == NULL && s'.index == s.index && s'.refTypes == s.refTypes
                  && a !in s'.entries && OthersKept(s, s', a) && Contents(s') == Contents(s))
  {
    ChosenIdIsUnused(s.index.Keys, s.entries[a].node.id, candidates);
    LooseIsFree(s, a);
    hide ChosenId, Offers, State.EntryInv;
  }

  /** The id that the node gets: its own, or the first unused one of the candidates. */
  ghost predicate GetsId(s: State, node: Node, candidates: seq<nat>, id: NodeId) {
    if !AsksForId(node) then id == node.id
    else exists i :: 0 <= i < |candidates| && id == Numeric(node.id.ns, candidates[i]) &&
                     forall j :: 0 <= j < i ==> Numeric(node.id.ns, candidates[j]) in s.index
  }

  /** Otherwise the node is in the store under a new id, with all its other attributes, and a reference type has
      the next index. */
  lemma InsertStores(s: State, a: Addr, candidates: seq<nat>) returns (id: NodeId)
    requires s.Inv() && Legal(s, Insert(a, candidates))
    requires !IdTaken(s, s.entries[a].node) && !NoRoom(s, s.entries[a].node)
    ensures var (s', answer) := Step(s, Insert(a, candidates));
            var node := s.entries[a].node;
            && answer == Answer(Good, a) && id !in s.index && GetsId(s, node, candidates, id)
            && s'.index == s.index[id := a] && s'.loose == s.loose - {a} && s'.handles == s.handles
            && OthersKept(s, s', a) && a in s'.entries
            && s'.entries[a].node.id == id && s'.entries[a].node.body == node.body
            && s'.entries[a].node.isRefType == node.isRefType
            && s'.entries[a].node.refTypeIndex == (if node.isRefType then |s.refTypes| else node.refTypeIndex)
            && s'.refTypes == (if node.isRefType then s.refTypes + [id] else s.refTypes)
            && Contents(s') == Contents(s)[id := s'.entries[a].node]
  {
    hide ChosenId, Offers, State.Inv, State.EntryInv;
    var node := s.entries[a].node;
    id := ChosenId(s.index.Keys, node.id, candidates);
    IdIsGot(s, node, candidates);
    LooseIsFree(s, a);
    IndexClosed(s);
    var s' := Step(s, Insert(a, candidates)).0;
    assert s'.index == s.index[id := a];
    hide Effect;
    ContentsGrow(s, s', id, a);
  }

  lemma IdIsGot(s: State, node: Node, candidates: seq<nat>)
    requires Offers(s.index.Keys, node.id, candidates)
    ensures var id := ChosenId(s.index.Keys, node.id, candidates);
            GetsId(s, node, candidates, id) && (!IdTaken(s, node) ==> id !in s.index)
  {
    ChosenIdIsUnused(s.index.Keys, node.id, candidates);
    hide ChosenId, Offers;
  }

  lemma ContentsGrow(s: State, s': State, id: NodeId, a: Addr)
    requires forall i <- s.index :: s.index[i] in s.entries && s.index[i] != a
    requires s'.index == s.index[id := a] && a in s'.entries && OthersKept(s, s', a)
    ensures forall i <- s'.index :: s'.index[i] in s'.entries
    ensures Contents(s') == Contents(s)[id := s'.entries[a].node]
  {
  }

  /// Replace and remove

  /** A replace is refused exactly if the id is unknown, or if its entry is not the one the copy was made from. */
  lemma ReplaceStores(s: State, a: Addr)
    requires s.Inv() && Legal(s, Replace(a))
    ensures var (s', answer) := Step(s, Replace(a));
            var e := s.entries[a];
            && (answer.status == BadNodeIdUnknown <==> e.node.id !in s.index)
            && (answer.status == BadInternalError <==> e.node.id in s.index && s.index[e.node.id] != e.orig)
            && (answer.status == Good <==> e.node.id in s.index && s.index[e.node.id] == e.orig)
            && (if answer.status == Good
                then answer.node == a && s'.index == s.index[e.node.id := a] && a in s'.entries && s'.entries[a] == e
                     && Contents(s') == Contents(s)[e.node.id := e.node]
                else answer.node == NULL && s'.index == s.index && a !in s'.entries && OthersKept(s, s', a)
                     && Contents(s') == Contents(s))
  {
    hide State.Inv, State.EntryInv, Detach;
    LooseIsFree(s, a);
    IndexClosed(s);
    var id := s.entries[a].node.id;
    if id in s.index {
      DetachForgets(s, id);
      var s1 := Detach(s, id);
      assert s1.index[id := a] == s.index[id := a];
    }
  }

  /** Taking an entry out of the index. */
  lemma DetachForgets(s: State, id: NodeId)
    requires s.Inv() && id in s.index
    ensures s.index[id] in s.entries
    ensures var s' := Detach(s, id);
            && s'.index == s.index - {id} && s'.handles == s.handles && s'.loose == s.loose
            && OthersKept(s, s', s.index[id])
            && (s.index[id] !in s'.entries <==> s.handles[s.index[id]] % 0x1_0000 == 0)
            && (forall i <- s'.index :: s'.index[i] == s.index[i] != s.index[id])
  {
    IndexIsInjective(s);
    DetachCounter(s, id);
    hide State.Inv, State.EntryInv;
  }

  lemma DetachCounter(s: State, id: NodeId)
    requires s.Inv() && id in s.index
    ensures s.index[id] in s.entries && s.entries[s.index[id]].refCount == s.handles[s.index[id]] % 0x1_0000
  {
    assert s.EntryInv(s.index[id]);
  }

  /** A remove takes exactly its id out of the store, and is refused exactly if there is none. */
  lemma RemoveForgets(s: State, id: NodeId)
    requires s.Inv()
    ensures var (s', answer) := Step(s, Remove(id));
            if id !in s.index then answer == Answer(BadNodeIdUnknown, NULL) && s' == s
            else
              && answer == Answer(Good, NULL) && s'.index == s.index - {id} && s'.handles == s.handles
              && Contents(s') == Contents(s) - {id} && OthersKept(s, s', s.index[id])
              && (s.index[id] !in s'.entries <==> s.handles[s.index[id]] % 0x1_0000 == 0)
  {
    hide State.Inv, State.EntryInv, Detach;
    IndexClosed(s);
    if id in s.index { DetachForgets(s, id); }
  }

  lemma IndexClosed(s: State)
    requires s.Inv()
    ensures forall id <- s.index :: s.index[id] in s.entries && s.entries[s.index[id]].node.id == id
  {
  }

  lemma IndexIsInjective(s: State)
    requires s.Inv()
    ensures forall i, j | i in s.index && j in s.index && i != j :: s.index[i] != s.index[j]
  {
    hide State.EntryInv;
  }

  /// Reading

  /** A get finds a node exactly if the store has one, hands out its address and counts one handle more. */
  lemma GetFinds(s: State, id: NodeId)
    requires s.Inv()
    ensures var (s', answer) := Step(s, Get(id));
            && s'.index == s.index && Contents(s') == Contents(s) && s'.loose == s.loose
            && (id !in Contents(s) ==> answer == Answer(BadNodeIdUnknown, NULL) && s' == s)
            && (id in Contents(s) ==>
                  && answer == Answer(Good, s.index[id]) && s'.entries[answer.node].node == Contents(s)[id]
                  && s'.handles == s.handles + multiset{answer.node} && OthersKept(s, s', answer.node))
  {
    hide State.EntryInv, Up, Down;
  }

  /** A copy is a new entry of the caller's with the same node, which remembers where it came from. */
  lemma CopyMakes(s: State, id: NodeId)
    requires s.Inv()
    ensures var (s', answer) := Step(s, Copy(id));
            && s'.index == s.index && Contents(s') == Contents(s) && s'.handles == s.handles
            && (id !in Contents(s) ==> answer == Answer(BadNodeIdUnknown, NULL) && s' == s)
            && (id in Contents(s) ==>
                  && answer.status == Good && answer.node !in s.entries && answer.node != NULL
                  && s'.loose == s.loose + {answer.node} && OthersKept(s, s', answer.node)
                  && answer.node in s'.entries && s'.entries[answer.node].node == Contents(s)[id]
                  && s'.entries[answer.node].orig == s.index[id])
  {
    if id in s.index {
      IndexedExists(s, id);
      NextIsFresh(s);
    }
    hide State.EntryInv;
  }

  /** A release gives one handle back; the entry goes exactly if it was taken out of the store and the counter
      of its handles is zero. */
  lemma ReleaseGives(s: State, a: Addr)
    requires s.Inv() && Legal(s, Release(a))
    ensures var s' := Step(s, Release(a)).0;
            && s'.handles == s.handles - multiset{a} && s'.index == s.index && s'.loose == s.loose
            && Contents(s') == Contents(s) && OthersKept(s, s', a)
            && (a !in s'.entries <==> s.entries[a].deleted && s'.handles[a] % 0x1_0000 == 0)
  {
    hide State.Inv, State.EntryInv, Up, Down;
    ReleaseCounter(s, a);
    IndexClosed(s);
    forall id <- s.index
      ensures Keeps(s, ReleaseS(s, a), id)
    {
      ReleaseKeeps(s, a, id);
    }
  }

  lemma ReleaseCounter(s: State, a: Addr)
    requires s.Inv() && a in s.entries && a in s.handles
    ensures Down(s.entries[a].refCount) == (s.handles - multiset{a})[a] % 0x1_0000
  {
    assert s.EntryInv(a);
    CounterWraps(s.handles[a], s.entries[a].refCount);
  }

  /** Entries that only their owner knows: a new one holds its node, and giving it up leaves nothing behind. */
  lemma OwnersEntries(s: State, node: Node, a: Addr)
    requires s.Inv()
    ensures var (s', answer) := Step(s, New(node));
            && answer.status == Good && answer.node !in s.entries && answer.node != NULL && s'.index == s.index
            && s'.loose == s.loose + {answer.node} && OthersKept(s, s', answer.node)
            && answer.node in s'.entries && s'.entries[answer.node].node == node && s'.entries[answer.node].orig == NULL
    ensures Legal(s, Delete(a)) ==>
              var s' := Step(s, Delete(a)).0;
              s'.index == s.index && s'.loose == s.loose - {a} && a !in s'.entries && OthersKept(s, s', a)
  {
    hide State.Inv, State.EntryInv;
    NextIsFresh(s);
  }

  lemma NextIsFresh(s: State)
    requires s.Inv()
    ensures s.next !in s.entries && s.next > NULL && forall id <- s.index :: s.index[id] != s.next
  {
    forall a <- s.entries
      ensures a < s.next
    {
      assert s.EntryInv(a);
    }
  }

  /// Every operation

  /** The operation may change what the store holds for this id. */
  predicate Names(s: State, op: Op, id: NodeId)
    requires Legal(s, op)
  {
    match op
    case Edit(a, _) => s.Indexed(a) && s.entries[a].node.id == id
    case Replace(a) => a in s.entries && s.entries[a].node.id == id
    case Remove(r) => r == id
    case _ => false
  }

  /** The id keeps its entry and its node, or is in the store as little as before. */
  ghost predicate Keeps(s: State, s': State, id: NodeId) {
    && (id in s.index <==> id in s'.index)
    && (id in s.index ==>
          && s'.index[id] == s.index[id] && s.index[id] in s.entries && s.index[id] in s'.entries
          && s'.entries[s.index[id]].node == s.entries[s.index[id]].node)
  }

  /** Whatever the operation: an id that it does not name keeps its entry and its node, and only an insert brings a
      new id in. */
  lemma UnnamedKept(s: State, op: Op, id: NodeId)
    requires s.Inv() && Legal(s, op) && !Names(s, op, id)
    ensures var s' := Step(s, op).0;
            Keeps(s, s', id) || (op.Insert? && id !in s.index && id in s'.index && s'.index[id] == op.a)
  {
    hide State.Inv, State.EntryInv, Effect, Contents;
    IndexClosed(s);
    if op.Insert? {
      InsertKeeps(s, op.a, op.candidates, id);
    } else if op.Replace? {
      LooseIsFree(s, op.a);
      ReplaceKeeps(s, op.a, id);
    } else if op.Remove? {
      RemoveForgets(s, op.id);
      IndexIsInjective(s);
    } else {
      QuietKeeps(s, op, id);
    }
  }

  lemma InsertKeeps(s: State, a: Addr, candidates: seq<nat>, id: NodeId)
    requires s.Inv() && Legal(s, Insert(a, candidates))
    ensures var s' := Step(s, Insert(a, candidates)).0;
            Keeps(s, s', id) || (id !in s.index && id in s'.index && s'.index[id] == a)
  {
    hide State.Inv, State.EntryInv, Effect, Contents;
    IndexClosed(s);
    LooseIsFree(s, a);
    InsertRefused(s, a, candidates);
    if !IdTaken(s, s.entries[a].node) && !NoRoom(s, s.entries[a].node) {
      var given := InsertStores(s, a, candidates);
    }
  }

  lemma ReplaceKeeps(s: State, a: Addr, id: NodeId)
    requires s.Inv() && Legal(s, Replace(a)) && a in s.entries && id != s.entries[a].node.id
    ensures Keeps(s, Step(s, Replace(a)).0, id)
  {
    hide State.Inv, State.EntryInv, Detach;
    LooseIsFree(s, a);
    IndexClosed(s);
    IndexIsInjective(s);
    if s.entries[a].node.id in s.index { DetachForgets(s, s.entries[a].node.id); }
  }

  /** Operations that do not change the index. */
  lemma QuietKeeps(s: State, op: Op, id: NodeId)
    requires s.Inv() && Legal(s, op) && !Names(s, op, id) && !op.Insert? && !op.Replace? && !op.Remove?
    ensures Keeps(s, Step(s, op).0, id)
  {
    hide State.Inv, State.EntryInv, Up, Down, Allocate, ReleaseS;
    IndexClosed(s);
    if op.New? {
      AllocateKeeps(s, op.node, NULL, id);
    } else if op.Copy? {
      if op.id in s.index { AllocateKeeps(s, s.entries[s.index[op.id]].node, s.index[op.id], id); }
    } else if op.Delete? {
      LooseIsFree(s, op.a);
    } else if op.Release? {
      ReleaseKeeps(s, op.a, id);
    }
  }

  lemma AllocateKeeps(s: State, node: Node, orig: Addr, id: NodeId)
    requires s.Inv()
    ensures Keeps(s, Allocate(s, node, orig), id)
  {
    hide State.Inv, State.EntryInv;
    IndexClosed(s);
    NextIsFresh(s);
  }

  /** An entry that leaves with its last handle was out of the index before. */
  lemma ReleaseKeeps(s: State, a: Addr, id: NodeId)
    requires s.Inv() && a in s.entries
    ensures Keeps(s, ReleaseS(s, a), id)
  {
    hide State.Inv, State.EntryInv, Down;
    IndexClosed(s);
    if id in s.index { IndexedExists(s, id); }
  }

  /** Over every run: an id that no operation names keeps its entry and its node. */
  ghost predicate NeverNamed(s: State, ops: seq<Op>, id: NodeId)
    requires s.Inv() && LegalRun(s, ops)
    decreases |ops|
  {
    ops == [] || (!Names(s, ops[0], id) && NeverNamed(Step(s, ops[0]).0, ops[1..], id))
  }

  lemma {:induction false} KeptOverRuns(s: State, ops: seq<Op>, id: NodeId)
    requires s.Inv() && LegalRun(s, ops) && id in s.index && NeverNamed(s, ops, id)
    ensures var s' := Run(s, ops);
            id in s'.index && s'.index[id] == s.index[id]
              && s'.entries[s'.index[id]].node == s.entries[s.index[id]].node
    decreases |ops|
  {
    hide State.EntryInv, Effect, Names;
    IndexClosed(s);
    if ops != [] {
      UnnamedKept(s, ops[0], id);
      KeptOverRuns(Step(s, ops[0]).0, ops[1..], id);
    }
  }

  /** What was inserted is found again: after an insert that succeeded and any run that does not name its id, a get
      of the id hands out this entry, with the node as it was inserted. */
  lemma InsertedIsFound(s: State, a: Addr, candidates: seq<nat>, ops: seq<Op>, id: NodeId)
    requires s.Inv() && Legal(s, Insert(a, candidates)) && Step(s, Insert(a, candidates)).1.status == Good
    requires var s1 := Step(s, Insert(a, candidates)).0;
             id == s1.entries[a].node.id && LegalRun(s1, ops) && NeverNamed(s1, ops, id)
    ensures var s1 := Step(s, Insert(a, candidates)).0;
            var (s2, answer) := Step(Run(s1, ops), Get(id));
            answer == Answer(Good, a) && s2.entries[a].node == s1.entries[a].node
            && s1.entries[a].node.body == s.entries[a].node.body
  {
    hide State.EntryInv, Effect, Names;
    InsertRefused(s, a, candidates);
    var given := InsertStores(s, a, candidates);
    var s1 := Step(s, Insert(a, candidates)).0;
    KeptOverRuns(s1, ops, id);
    GetFinds(Run(s1, ops), id);
  }
}
