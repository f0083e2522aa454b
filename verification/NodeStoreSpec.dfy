/** What the node store promises, without any tree: an index from NodeIds to entries, entries with a
    16-bit reference count, and the handles that clients hold. */
module NodeStoreSpec {
  import opened ZipHash
  import opened ZipTree

  datatype NodeId = Numeric(ns: nat, n: nat) | Text(ns: nat, s: string)

  /** A node: its id, whether it is a ReferenceType, its index there, and all other attributes. */
  datatype Node = Node(id: NodeId, isRefType: bool, refTypeIndex: nat, body: string)

  datatype Entry = Entry(refCount: nat, deleted: bool, orig: Addr, node: Node)

  datatype Status = Good | BadNodeIdUnknown | BadNodeIdExists | BadInternalError

  const REFERENCETYPESET_MAX: nat := 128

  /** `handles` counts what Get returned and Release did not yet give back; `loose` are the entries
      that a client created and still owns. Addresses from `next` on were never used. */
  datatype State = State(
    index: map<NodeId, Addr>, entries: map<Addr, Entry>, handles: multiset<Addr>, loose: set<Addr>,
    next: Addr, refTypes: seq<NodeId>)
  {
    predicate Indexed(a: Addr) {
      a in entries && entries[a].node.id in index && index[entries[a].node.id] == a
    }

    ghost predicate Inv() {
      && next > NULL
      && (forall id <- index :: index[id] in entries && entries[index[id]].node.id == id)
      && (forall a <- entries :: EntryInv(a))
      && (forall a <- loose :: a in entries)
      && (forall a <- handles :: a < next)
    }

    ghost predicate EntryInv(a: Addr)
      requires a in entries
    {
      var e := entries[a];
      && NULL < a < next && e.orig < next
      && e.refCount == handles[a] % 0x1_0000
      && (a in loose ==> !e.deleted && !Indexed(a) && handles[a] == 0)
      && (Indexed(a) ==> !e.deleted)
      && (e.deleted ==> e.refCount > 0)
      && (a in loose || Indexed(a) || e.deleted)
    }

    /** Every handle points to an entry that still exists. */
    ghost predicate Live() {
      forall a <- handles :: a in entries
    }

    /** No entry has more handles than its counter can count. */
    ghost predicate Bounded() {
      forall a <- handles :: handles[a] < 0x1_0000
    }
  }

  datatype Op =
    | New(node: Node)
    | Delete(a: Addr)
    | Edit(a: Addr, node: Node)
    | Get(id: NodeId)
    | Release(a: Addr)
    | Copy(id: NodeId)
    | Insert(a: Addr, candidates: seq<nat>)
    | Replace(a: Addr)
    | Remove(id: NodeId)

  /** The answer of an operation: a status and the address of the node, if any. */
  datatype Answer = Answer(status: Status, node: Addr)

  /// The operations

  /** The reference count is a 16-bit counter that wraps around. */
  function Up(r: nat): nat { (r + 1) % 0x1_0000 }

  function Down(r: nat): nat { (r + 0xFFFF) % 0x1_0000 }

  function Allocate(s: State, node: Node, orig: Addr): State {
    s.(entries := s.entries[s.next := Entry(0, false, orig, node)], loose := s.loose + {s.next}, next := s.next + 1)
  }

  function Free(s: State, a: Addr): State {
    s.(entries := s.entries - {a}, loose := s.loose - {a})
  }

  /** The id a node is inserted with: `i=0` asks for the first unused candidate. */
  function ChosenId(used: set<NodeId>, id: NodeId, candidates: seq<nat>): NodeId
    decreases |candidates|
  {
    if id.Numeric? && id.n == 0 && candidates != [] then
      if Numeric(id.ns, candidates[0]) in used then ChosenId(used, id, candidates[1..])
      else Numeric(id.ns, candidates[0])
    else id
  }

  function GetS(s: State, id: NodeId): (State, Answer)
    requires forall i <- s.index :: s.index[i] in s.entries
  {
    if id !in s.index then (s, Answer(BadNodeIdUnknown, NULL))
    else
      var a := s.index[id];
      var e := s.entries[a];
      (s.(entries := s.entries[a := e.(refCount := Up(e.refCount))], handles := s.handles + multiset{a}),
       Answer(Good, a))
  }

  function ReleaseS(s: State, a: Addr): State
    requires a in s.entries
  {
    var e := s.entries[a];
    var e' := e.(refCount := Down(e.refCount));
    s.(entries := if e'.refCount == 0 && e'.deleted then s.entries - {a} else s.entries[a := e'],
       handles := s.handles - multiset{a})
  }

  /** Takes an indexed entry out of the index; without references it is freed at once. */
  function Detach(s: State, id: NodeId): State
    requires id in s.index && s.index[id] in s.entries
  {
    var a := s.index[id];
    var e := s.entries[a];
    s.(index := s.index - {id},
       entries := if e.refCount == 0 then s.entries - {a} else s.entries[a := e.(deleted := true)])
  }

  function InsertS(s: State, a: Addr, candidates: seq<nat>): (State, Answer)
    requires a in s.entries
  {
    var e := s.entries[a];
    var id := ChosenId(s.index.Keys, e.node.id, candidates);
    if id in s.index then (Free(s, a), Answer(BadNodeIdExists, NULL))
    else if e.node.isRefType && |s.refTypes| >= REFERENCETYPESET_MAX then (Free(s, a), Answer(BadInternalError, NULL))
    else
      var node := if e.node.isRefType then e.node.(id := id, refTypeIndex := |s.refTypes|) else e.node.(id := id);
      (s.(index := s.index[id := a], entries := s.entries[a := e.(node := node)], loose := s.loose - {a},
          refTypes := if e.node.isRefType then s.refTypes + [id] else s.refTypes),
       Answer(Good, a))
  }

  function ReplaceS(s: State, a: Addr): (State, Answer)
    requires a in s.entries
    requires forall i <- s.index :: s.index[i] in s.entries
  {
    var e := s.entries[a];
    var id := e.node.id;
    if id !in s.index then (Free(s, a), Answer(BadNodeIdUnknown, NULL))
    else if s.index[id] != e.orig then (Free(s, a), Answer(BadInternalError, NULL))
    else
      var s1 := Detach(s, id);
      (s1.(index := s1.index[id := a], loose := s1.loose - {a}), Answer(Good, a))
  }

  function Effect(s: State, op: Op): (State, Answer)
    requires s.Inv() && Legal(s, op)
  {
    match op
    case New(node) => (Allocate(s, node, NULL), Answer(Good, s.next))
    case Delete(a) => (Free(s, a), Answer(Good, NULL))
    case Edit(a, node) => (s.(entries := s.entries[a := s.entries[a].(node := node)]), Answer(Good, a))
    case Get(id) => GetS(s, id)
    case Release(a) => (ReleaseS(s, a), Answer(Good, NULL))
    case Copy(id) =>
      if id !in s.index then (s, Answer(BadNodeIdUnknown, NULL))
      else (Allocate(s, s.entries[s.index[id]].node, s.index[id]), Answer(Good, s.next))
    case Insert(a, candidates) => InsertS(s, a, candidates)
    case Replace(a) => ReplaceS(s, a)
    case Remove(id) =>
      if id !in s.index then (s, Answer(BadNodeIdUnknown, NULL)) else (Detach(s, id), Answer(Good, NULL))
  }

  /** What clients must keep to: give back what they hold, insert and replace with what they own, edit
      the id of a node only before it is in the store, and a generator that finds an unused id. */
  predicate Legal(s: State, op: Op) {
    match op
    case Delete(a) => a in s.loose
    case Edit(a, node) => a in s.loose || (s.Indexed(a) && node.id == s.entries[a].node.id)
    case Release(a) => a in s.handles && a in s.entries
    case Insert(a, candidates) =>
      a in s.loose && a in s.entries && Offers(s.index.Keys, s.entries[a].node.id, candidates)
    case Replace(a) => a in s.loose
    case _ => true
  }

  /** If an id is to be generated, some candidate is unused. */
  predicate Offers(used: set<NodeId>, id: NodeId, candidates: seq<nat>) {
    id.Numeric? && id.n == 0 ==> exists i :: 0 <= i < |candidates| && Numeric(id.ns, candidates[i]) !in used
  }

  lemma NextOffers(used: set<NodeId>, id: NodeId, candidates: seq<nat>)
    requires id.Numeric? && id.n == 0 && Offers(used, id, candidates)
    ensures candidates != []
    ensures Numeric(id.ns, candidates[0]) in used ==> Offers(used, id, candidates[1..])
  {
    var i :| 0 <= i < |candidates| && Numeric(id.ns, candidates[i]) !in used;
    if i > 0 { assert candidates[1..][i - 1] == candidates[i]; }
  }

  /** A generated id is the first unused candidate. */
  lemma {:induction false} ChosenIdIsUnused(used: set<NodeId>, id: NodeId, candidates: seq<nat>)
    requires Offers(used, id, candidates)
    ensures var r := ChosenId(used, id, candidates);
            if id.Numeric? && id.n == 0 then
              && r !in used
              && exists i :: 0 <= i < |candidates| && r == Numeric(id.ns, candidates[i]) &&
                             forall j :: 0 <= j < i ==> Numeric(id.ns, candidates[j]) in used
            else r == id
    decreases |candidates|
  {
    if id.Numeric? && id.n == 0 {
      assert candidates != [];
      if Numeric(id.ns, candidates[0]) in used {
        var rest := candidates[1..];
        NextOffers(used, id, candidates);
        ChosenIdIsUnused(used, id, rest);
        var r := ChosenId(used, id, rest);
        var k :| 0 <= k < |rest| && r == Numeric(id.ns, rest[k])
                 && forall j :: 0 <= j < k ==> Numeric(id.ns, rest[j]) in used;
        assert candidates[k + 1] == rest[k];
        forall j | 0 <= j < k + 1 ensures Numeric(id.ns, candidates[j]) in used {
          if j > 0 { assert candidates[j] == rest[j - 1]; }
        }
      } else {
        assert ChosenId(used, id, candidates) == Numeric(id.ns, candidates[0]);
      }
    }
  }

  /// The invariant

  lemma AllocateKeepsInv(s: State, node: Node, orig: Addr)
    requires s.Inv() && orig < s.next
    ensures Allocate(s, node, orig).Inv()
  {
    var s' := Allocate(s, node, orig);
    assert s.next !in s.entries && s.next !in s.handles;
    forall a <- s'.entries ensures s'.EntryInv(a) {
      if a != s.next { assert s.EntryInv(a); }
    }
  }

  lemma FreeKeepsInv(s: State, a: Addr)
    requires s.Inv() && a in s.loose
    ensures Free(s, a).Inv()
  {
    var s' := Free(s, a);
    assert s.EntryInv(a);
    forall b <- s'.entries ensures s'.EntryInv(b) {
      assert s.EntryInv(b);
    }
  }

  lemma EditKeepsInv(s: State, a: Addr, node: Node)
    requires s.Inv() && Legal(s, Edit(a, node))
    ensures Effect(s, Edit(a, node)).0.Inv()
  {
    var s' := Effect(s, Edit(a, node)).0;
    forall b <- s'.entries ensures s'.EntryInv(b) {
      assert s.EntryInv(b) && s.EntryInv(a);
    }
  }

  /** The 16-bit counter follows the number of handles modulo its range. */
  lemma CounterWraps(h: nat, r: nat)
    requires r == h % 0x1_0000
    ensures Up(r) == (h + 1) % 0x1_0000
    ensures h > 0 ==> Down(r) == (h - 1) % 0x1_0000
  {
  }

  lemma GetKeepsInv(s: State, id: NodeId)
    requires s.Inv()
    ensures GetS(s, id).0.Inv()
  {
    hide Up, Down;
    if id in s.index {
      var s' := GetS(s, id).0;
      var a := s.index[id];
      assert s.EntryInv(a) && s'.handles[a] == s.handles[a] + 1;
      CounterWraps(s.handles[a], s.entries[a].refCount);
      forall b <- s'.entries ensures s'.EntryInv(b) {
        assert s.EntryInv(b);
      }
    }
  }

  lemma ReleaseKeepsInv(s: State, a: Addr)
    requires s.Inv() && a in s.entries && a in s.handles
    ensures ReleaseS(s, a).Inv()
  {
    hide Up, Down;
    var s' := ReleaseS(s, a);
    assert s.EntryInv(a) && s'.handles[a] == s.handles[a] - 1;
    CounterWraps(s.handles[a], s.entries[a].refCount);
    forall b <- s'.entries ensures s'.EntryInv(b) {
      assert s.EntryInv(b);
    }
  }

  lemma DetachKeepsInv(s: State, id: NodeId)
    requires s.Inv() && id in s.index
    ensures Detach(s, id).Inv()
  {
    var s' := Detach(s, id);
    assert s.EntryInv(s.index[id]);
    forall b <- s'.entries ensures s'.EntryInv(b) {
      assert s.EntryInv(b);
    }
  }

  /** Giving a loose entry a free id and indexing it. */
  lemma IndexKeepsInv(s: State, a: Addr, node: Node, refTypes: seq<NodeId>)
    requires s.Inv() && a in s.loose && node.id !in s.index
    ensures s.(index := s.index[node.id := a], entries := s.entries[a := s.entries[a].(node := node)],
               loose := s.loose - {a}, refTypes := refTypes).Inv()
  {
    var s' := s.(index := s.index[node.id := a], entries := s.entries[a := s.entries[a].(node := node)],
                 loose := s.loose - {a}, refTypes := refTypes);
    assert s.EntryInv(a);
    forall b <- s'.entries ensures s'.EntryInv(b) {
      assert s.EntryInv(b);
    }
  }

  /** Every operation keeps the invariant. */
  lemma StepKeepsInv(s: State, op: Op)
    requires s.Inv() && Legal(s, op)
    ensures Effect(s, op).0.Inv()
  {
    hide State.EntryInv, Detach, Allocate, Free, ReleaseS, GetS;
    match op
    case New(node) => AllocateKeepsInv(s, node, NULL);
    case Delete(a) => FreeKeepsInv(s, a);
    case Edit(a, node) => EditKeepsInv(s, a, node);
    case Get(id) => GetKeepsInv(s, id);
    case Release(a) => ReleaseKeepsInv(s, a);
    case Copy(id) =>
      if id in s.index { IndexedExists(s, id); AllocateKeepsInv(s, s.entries[s.index[id]].node, s.index[id]); }
    case Insert(a, candidates) => InsertKeepsInv(s, a, candidates);
    case Replace(a) => ReplaceKeepsInv(s, a);
    case Remove(id) =>
      if id in s.index { DetachKeepsInv(s, id); }
  }

  lemma IndexedExists(s: State, id: NodeId)
    requires s.Inv() && id in s.index
    ensures NULL < s.index[id] < s.next && s.index[id] in s.entries
    ensures !s.entries[s.index[id]].deleted && s.index[id] !in s.loose && s.entries[s.index[id]].node.id == id
  {
    assert s.EntryInv(s.index[id]);
  }

  lemma UpAndDown(r: nat)
    requires r < 0x1_0000
    ensures Down(Up(r)) == r
  {
  }

  /** Getting a node, allocating its copy and releasing the node leaves only the copy behind. */
  lemma CopyRestores(s: State, id: NodeId)
    requires s.Inv() && id in s.index
    ensures var a := s.index[id];
            var s1 := Allocate(GetS(s, id).0, s.entries[a].node, a);
            a in s1.entries && ReleaseS(s1, a) == Effect(s, Copy(id)).0
  {
    hide Up, Down;
    var a := s.index[id];
    assert a in s.entries && s.entries[a].refCount < 0x1_0000 && !s.entries[a].deleted
           && a < s.next by { assert s.EntryInv(a); }
    hide State.Inv;
    UpAndDown(s.entries[a].refCount);
    assert s.handles + multiset{a} - multiset{a} == s.handles;
    assert ReleaseS(Allocate(GetS(s, id).0, s.entries[a].node, a), a).entries == Effect(s, Copy(id)).0.entries;
  }

  /** The same around a replace: the reference taken while replacing does not outlive it. */
  lemma ReplaceRestores(s: State, a: Addr)
    requires s.Inv() && a in s.loose && s.entries[a].node.id in s.index
    ensures var id := s.entries[a].node.id;
            var o := s.index[id];
            var g := GetS(s, id).0;
            var m := g.(index := (g.index - {id})[id := a], entries := g.entries[o := g.entries[o].(deleted := true)],
                        loose := g.loose - {a});
            && o != a && ReleaseS(Free(g, a), o) == Free(s, a)
            && (s.entries[a].orig == o ==> ReleaseS(m, o) == ReplaceS(s, a).0)
  {
    hide Up, Down;
    var id := s.entries[a].node.id;
    var o := s.index[id];
    var e := s.entries[o];
    var g := GetS(s, id).0;
    assert s.EntryInv(a) && s.EntryInv(o);
    assert s.handles + multiset{o} - multiset{o} == s.handles;
    UpAndDown(e.refCount);
    assert ReleaseS(Free(g, a), o).entries == Free(s, a).entries;
    var m := g.(index := (g.index - {id})[id := a], entries := g.entries[o := g.entries[o].(deleted := true)],
                loose := g.loose - {a});
    assert ReleaseS(m, o).entries == Detach(s, id).entries;
  }

  lemma LooseIsFree(s: State, a: Addr)
    requires s.Inv() && a in s.loose
    ensures a in s.entries && forall id <- s.index :: s.index[id] != a
  {
    assert s.EntryInv(a);
  }

  lemma InsertKeepsInv(s: State, a: Addr, candidates: seq<nat>)
    requires s.Inv() && Legal(s, Insert(a, candidates))
    ensures InsertS(s, a, candidates).0.Inv()
  {
    var e := s.entries[a];
    var id := ChosenId(s.index.Keys, e.node.id, candidates);
    FreeKeepsInv(s, a);
    if id !in s.index {
      var node := if e.node.isRefType then e.node.(id := id, refTypeIndex := |s.refTypes|) else e.node.(id := id);
      IndexKeepsInv(s, a, node, if e.node.isRefType then s.refTypes + [id] else s.refTypes);
    }
  }

  lemma ReplaceKeepsInv(s: State, a: Addr)
    requires s.Inv() && a in s.loose
    ensures ReplaceS(s, a).0.Inv()
  {
    hide State.EntryInv;
    FreeKeepsInv(s, a);
    var id := s.entries[a].node.id;
    if id in s.index {
      DetachKeepsInv(s, id);
      DetachOther(s, id, a);
      var s1 := Detach(s, id);
      IndexKeepsInv(s1, a, s.entries[a].node, s1.refTypes);
      assert s1.entries[a := s1.entries[a].(node := s.entries[a].node)] == s1.entries;
    }
  }

  lemma DetachOther(s: State, id: NodeId, a: Addr)
    requires s.Inv() && id in s.index && a in s.loose
    ensures var s' := Detach(s, id); a in s'.entries && s'.entries[a] == s.entries[a] && a in s'.loose
  {
    assert s.EntryInv(a) && s.EntryInv(s.index[id]);
  }

  function Step(s: State, op: Op): (r: (State, Answer))
    requires s.Inv() && Legal(s, op)
    ensures r.0.Inv()
  {
    StepKeepsInv(s, op);
    Effect(s, op)
  }

  /// Lifetime

  /** An entry disappears only when nothing refers to it: it was loose and its owner gave it up, or it
      has left the index and its counter is zero. */
  lemma FreedWhenUnreferenced(s: State, op: Op, a: Addr)
    requires s.Inv() && Legal(s, op) && a in s.entries && a !in Step(s, op).0.entries
    ensures var s' := Step(s, op).0;
            && s'.handles[a] % 0x1_0000 == 0
            && a !in s'.loose && (forall id <- s'.index :: s'.index[id] != a)
            && (a in s.loose ==> (op.Delete? || op.Insert? || op.Replace?) && op.a == a)
  {
    var s' := Step(s, op).0;
    assert a !in s'.loose && (forall id <- s'.index :: s'.index[id] != a) by { assert s'.Inv(); }
    FreedCounter(s, op, a);
  }

  lemma FreedCounter(s: State, op: Op, a: Addr)
    requires s.Inv() && Legal(s, op) && a in s.entries && a !in Effect(s, op).0.entries
    ensures Effect(s, op).0.handles[a] % 0x1_0000 == 0
    ensures a in s.loose ==> (op.Delete? || op.Insert? || op.Replace?) && op.a == a
  {
    assert s.EntryInv(a);
    hide State.Inv, State.EntryInv, Up, Down;
    if op.Release? {
      assert a == op.a;
      CounterWraps(s.handles[a], s.entries[a].refCount);
    } else if op.Remove? {
      assert a == s.index[op.id];
    } else {
      assert op.Delete? || op.Insert? || op.Replace?;
    }
  }

  lemma NewHandles(s: State, op: Op, a: Addr)
    requires s.Inv() && Legal(s, op) && a in Effect(s, op).0.handles
    ensures a in s.handles || (op.Get? && op.id in s.index && a == s.index[op.id])
  {
  }

  /** With at most 65535 handles per entry, no entry is freed while a handle to it is outstanding. */
  lemma StepKeepsLive(s: State, op: Op)
    requires s.Inv() && s.Live() && Legal(s, op) && Step(s, op).0.Bounded()
    ensures Step(s, op).0.Live()
  {
    hide Effect, State.EntryInv, Legal;
    var s' := Step(s, op).0;
    forall a <- s'.handles ensures a in s'.entries {
      NewHandles(s, op, a);
      if a !in s'.entries {
        FreedWhenUnreferenced(s, op, a);
      }
    }
  }

  /** The operation takes the entry out of the store, or gives back a handle on one that was taken out. */
  predicate LetsGo(s: State, op: Op, a: Addr)
    requires Legal(s, op) && a in s.entries
  {
    match op
    case Remove(id) => id in s.index && s.index[id] == a
    case Replace(copy) =>
      copy in s.entries && s.entries[copy].node.id in s.index
        && s.index[s.entries[copy].node.id] == s.entries[copy].orig == a
    case Release(held) => held == a && s.entries[a].deleted
    case _ => false
  }

  /** The handles on the entry behind the operation. */
  function HandlesLeft(s: State, op: Op, a: Addr): nat {
    (if op.Release? && op.a == a then s.handles - multiset{a} else s.handles)[a]
  }

  /** A step that does not let the entry go frees it only if it has no handle. */
  lemma KeptUnderHandles(s: State, op: Op, a: Addr)
    requires s.Inv() && Legal(s, op) && a in s.entries && !LetsGo(s, op, a)
    ensures a in Effect(s, op).0.entries || Effect(s, op).0.handles[a] == 0
  {
    assert s.EntryInv(a);
    if op.Delete? || op.Insert? || op.Replace? { assert s.EntryInv(op.a); }
    hide State.Inv, State.EntryInv, Up, Down, ChosenId;
  }

  lemma LetGo(s: State, op: Op, a: Addr)
    requires s.Inv() && Legal(s, op) && a in s.entries && LetsGo(s, op, a)
    ensures Effect(s, op).0.handles[a] == HandlesLeft(s, op, a)
    ensures a !in Effect(s, op).0.entries <==> HandlesLeft(s, op, a) % 0x1_0000 == 0
  {
    assert s.EntryInv(a);
    if op.Release? { CounterWraps(s.handles[a], s.entries[a].refCount); }
    if op.Replace? { assert s.EntryInv(op.a); }
    hide State.Inv, State.EntryInv, Up, Down;
  }

  /** The bound is exact: whatever the operation, it frees an entry under outstanding handles if and only if it
      lets the entry go and the handles that are left on it are a positive multiple of 65536. */
  lemma FreesUnderHandleIff(s: State, op: Op, a: Addr)
    requires s.Inv() && Legal(s, op) && a in s.entries
    ensures var s' := Step(s, op).0;
            a !in s'.entries && s'.handles[a] > 0 <==>
            LetsGo(s, op, a) && HandlesLeft(s, op, a) > 0 && HandlesLeft(s, op, a) % 0x1_0000 == 0
  {
    hide State.Inv, Effect, LetsGo, HandlesLeft;
    if LetsGo(s, op, a) {
      LetGo(s, op, a);
    } else {
      KeptUnderHandles(s, op, a);
    }
  }

  /// Runs

  ghost predicate LegalRun(s: State, ops: seq<Op>)
    requires s.Inv()
    decreases |ops|
  {
    ops != [] ==> Legal(s, ops[0]) && LegalRun(Step(s, ops[0]).0, ops[1..])
  }

  ghost function Run(s: State, ops: seq<Op>): (s': State)
    requires s.Inv() && LegalRun(s, ops)
    ensures s'.Inv()
    decreases |ops|
  {
    if ops == [] then s else Run(Step(s, ops[0]).0, ops[1..])
  }

  /** Every state of the run has at most 65535 handles per entry. */
  ghost predicate BoundedRun(s: State, ops: seq<Op>)
    requires s.Inv() && LegalRun(s, ops)
    decreases |ops|
  {
    s.Bounded() && (ops != [] ==> BoundedRun(Step(s, ops[0]).0, ops[1..]))
  }

  /** Over every run with bounded handles, no entry is freed while a handle to it is outstanding. */
  lemma {:induction false} RunKeepsLive(s: State, ops: seq<Op>)
    requires s.Inv() && s.Live() && LegalRun(s, ops) && BoundedRun(s, ops)
    ensures Run(s, ops).Live()
    decreases |ops|
  {
    if ops != [] {
      StepKeepsLive(s, ops[0]);
      RunKeepsLive(Step(s, ops[0]).0, ops[1..]);
    }
  }

  /** Any number of gets of one node is legal and counts its handles. */
  lemma {:induction false} GetsCount(s: State, id: NodeId, n: nat)
    requires s.Inv() && id in s.index
    ensures var ops := seq(n, _ => Get(id));
            && LegalRun(s, ops) && Run(s, ops).index == s.index
            && Run(s, ops).handles[s.index[id]] == s.handles[s.index[id]] + n
    decreases n
  {
    if n > 0 {
      var ops := seq(n, _ => Get(id));
      assert ops[1..] == seq(n - 1, _ => Get(id));
      GetsCount(Step(s, Get(id)).0, id, n - 1);
    }
  }

  /** The counter has 16 bits: after 65536 gets of a node nobody held, a remove frees it under all these handles. */
  lemma OverflowFreesUnderHandles(s: State, id: NodeId)
    requires s.Inv() && id in s.index && s.handles[s.index[id]] == 0
    ensures var ops := seq(0x1_0000, _ => Get(id));
            && LegalRun(s, ops)
            && var s' := Step(Run(s, ops), Remove(id)).0;
            s.index[id] !in s'.entries && s'.handles[s.index[id]] == 0x1_0000
  {
    hide State.EntryInv, GetS;
    GetsCount(s, id, 0x1_0000);
    var late := Run(s, seq(0x1_0000, _ => Get(id)));
    FreesUnderHandleIff(late, Remove(id), s.index[id]);
  }

  /** An address that has left the index and its owner never comes back. */
  ghost predicate Gone(s: State, a: Addr) {
    a < s.next && a !in s.loose && !s.Indexed(a)
  }

  lemma GoneStep(s: State, op: Op, a: Addr)
    requires s.Inv() && Legal(s, op) && Gone(s, a)
    ensures Gone(Effect(s, op).0, a)
    ensures a !in s.entries ==> a !in Effect(s, op).0.entries
  {
    hide State.EntryInv;
    if op.Get? || op.Release? || op.Remove? || op.Copy? || op.New? {
      GoneRead(s, op, a);
    } else {
      assert op.a in s.entries && (op.a in s.loose || s.Indexed(op.a));
    }
  }

  lemma GoneRead(s: State, op: Op, a: Addr)
    requires s.Inv() && Legal(s, op) && Gone(s, a)
    requires op.Get? || op.Release? || op.Remove? || op.Copy? || op.New?
    ensures Gone(Effect(s, op).0, a)
    ensures a !in s.entries ==> a !in Effect(s, op).0.entries
  {
    hide State.EntryInv;
  }

  /** An entry that has left the index never comes back. */
  lemma {:induction false} GoneForever(s: State, ops: seq<Op>, a: Addr)
    requires s.Inv() && LegalRun(s, ops) && Gone(s, a)
    ensures Gone(Run(s, ops), a)
    ensures a !in s.entries ==> a !in Run(s, ops).entries
    decreases |ops|
  {
    if ops != [] {
      GoneStep(s, ops[0], a);
      GoneForever(Step(s, ops[0]).0, ops[1..], a);
    }
  }

  /// No lost updates

  /** A replace succeeds exactly if the entry now stored for its id is the one the copy was made from. */
  lemma ReplaceIffCurrent(s: State, a: Addr)
    requires s.Inv() && a in s.loose
    ensures var e := s.entries[a];
            ReplaceS(s, a).1.status == Good <==> e.node.id in s.index && s.index[e.node.id] == e.orig
  {
  }

  /** The entry that a successful replace or remove takes out of the index. */
  function Taken(s: State, op: Op): Addr
    requires s.Inv() && Legal(s, op) && Step(s, op).1.status == Good && (op.Replace? || op.Remove?)
  {
    if op.Replace? then s.entries[op.a].orig else s.index[op.id]
  }

  /** The entry that a replace or remove takes out has left the index. */
  lemma TakenIsGone(s: State, op: Op)
    requires s.Inv() && Legal(s, op) && Step(s, op).1.status == Good && (op.Replace? || op.Remove?)
    ensures Gone(Step(s, op).0, Taken(s, op))
  {
    assert s.EntryInv(Taken(s, op));
    if op.Replace? { assert s.EntryInv(op.a); }
  }

  /** Once an entry was replaced or removed, no copy of it can ever replace anything: of all the copies
      of one version at most one replace succeeds. */
  lemma StaleCopyFails(s: State, op: Op, ops: seq<Op>, copy: Addr)
    requires s.Inv() && Legal(s, op) && Step(s, op).1.status == Good && (op.Replace? || op.Remove?)
    requires LegalRun(Step(s, op).0, ops)
    requires copy in Run(Step(s, op).0, ops).loose && Run(Step(s, op).0, ops).entries[copy].orig == Taken(s, op)
    ensures ReplaceS(Run(Step(s, op).0, ops), copy).1.status != Good
  {
    TakenIsGone(s, op);
    GoneForever(Step(s, op).0, ops, Taken(s, op));
    var late := Run(Step(s, op).0, ops);
    ReplaceIffCurrent(late, copy);
    var id := late.entries[copy].node.id;
    if id in late.index { assert late.entries[late.index[id]].node.id == id; }
  }
}
