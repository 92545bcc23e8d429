/** How each operation keeps items, chunks, the hash table, the LRU and references consistent. */
module SlabsHeap {
  import opened SlabsTypes
  import opened SlabsSteps
  import opened SlabsInvariant
  import opened LruSpec

  // ----- changes that no item notices -----

  /** Chunks in use are the same in both states. */
  ghost predicate SameInUse(s: State, t: State) {
    && s.table == t.table && s.lru == t.lru
    && (forall a :: a in s.cells && InUse(s.cells[a]) ==> a in t.cells && t.cells[a] == s.cells[a])
    && (forall a :: a in t.cells && InUse(t.cells[a]) ==> a in s.cells && t.cells[a] == s.cells[a])
  }

  lemma SameItem(s: State, t: State, a: Addr)
    requires SameInUse(s, t)
    ensures IsItem(s, a) <==> IsItem(t, a)
    ensures IsItem(s, a) ==> t.cells[a] == s.cells[a]
  {}

  lemma SameHeap(s: State, t: State, loose: set<Addr>)
    requires Heap(s, loose) && SameInUse(s, t) && RescueOk(t)
    ensures Heap(t, loose)
  {
    hide RescueOk;
    forall a ensures IsItem(s, a) <==> IsItem(t, a) {
      SameItem(s, t, a);
    }
    SameItemsOk(s, t);
    SameChain(s, t, loose);
  }

  lemma SameItemsOk(s: State, t: State)
    requires ItemsOk(s) && SameInUse(s, t)
    ensures ItemsOk(t)
  {
    assert forall a :: IsItem(s, a) <==> IsItem(t, a);
    assert forall a :: IsItem(s, a) ==> t.cells[a] == s.cells[a];
    hide SameInUse;
    assert t.table == s.table && t.lru == s.lru;
  }

  lemma SameChain(s: State, t: State, loose: set<Addr>)
    requires ChainOk(s, loose) && SameInUse(s, t)
    ensures ChainOk(t, loose)
  {
    hide Distinct;
    assert forall a :: IsItem(s, a) <==> IsItem(t, a);
    assert forall a :: IsItem(s, a) ==> t.cells[a] == s.cells[a];
  }

  // ----- a chunk is handed out -----

  /** A free or cleared chunk becomes an item without chunks. */
  lemma NewItem(s: State, t: State, a: Addr, it: Cell, loose: set<Addr>)
    requires Heap(s, loose) && a in s.cells && !InUse(s.cells[a])
    requires it.Item? && !it.linked && it.refs >= 1 && it.parts == []
    requires t.cells == s.cells[a := it] && t.table == s.table && t.lru == s.lru && t.mover == s.mover
    requires t.owner == s.owner
    ensures Heap(t, loose)
  {
    hide ItemsOk, ChainOk;
    NewItemsOk(s, t, a, it);
    NewChain(s, t, a, it, loose);
    assert RescueOk(t) by { NewRescue(s, t, a, it, loose); }
  }

  lemma NewRescue(s: State, t: State, a: Addr, it: Cell, loose: set<Addr>)
    requires RescueOk(s) && a in s.cells && !InUse(s.cells[a])
    requires t.cells == s.cells[a := it] && t.mover == s.mover && t.owner == s.owner
    ensures RescueOk(t)
  {}

  lemma NewItemsOk(s: State, t: State, a: Addr, it: Cell)
    requires ItemsOk(s) && a in s.cells && !InUse(s.cells[a]) && it.Item? && !it.linked
    requires t.cells == s.cells[a := it] && t.table == s.table && t.lru == s.lru
    ensures ItemsOk(t)
  {
    assert forall x :: x != a ==> (IsItem(s, x) <==> IsItem(t, x));
  }

  lemma NoneDistinct<T>()
    ensures Distinct<T>([])
  {}

  lemma NewChain(s: State, t: State, a: Addr, it: Cell, loose: set<Addr>)
    requires ChainOk(s, loose) && a in s.cells && !InUse(s.cells[a]) && it.Item? && it.parts == [] && !it.linked
    requires t.cells == s.cells[a := it]
    ensures ChainOk(t, loose)
  {
    hide Distinct;
    NoneDistinct<Addr>();
    assert forall x :: x != a ==> (IsItem(s, x) <==> IsItem(t, x));
  }

  // ----- a chunk is given back -----

  lemma PushItemsOk(s: State, t: State, a: Addr)
    requires ItemsOk(s) && IsItem(s, a) && !s.cells[a].linked
    requires t.cells == s.cells[a := Free] && t.table == s.table && t.lru == s.lru
    ensures ItemsOk(t)
  {
    assert forall x :: x != a ==> (IsItem(s, x) <==> IsItem(t, x));
  }

  lemma PushChain(s: State, t: State, a: Addr, loose: set<Addr>)
    requires ChainOk(s, loose) && IsItem(s, a) && t.cells == s.cells[a := Free]
    ensures ChainOk(t, loose + ToSet(s.cells[a].parts))
  {
    assert PartsOk(t, loose + ToSet(s.cells[a].parts)) && ChainsOk(t) by { PushParts(s, t, a, loose); }
    hide PartsOk, ChainsOk;
    assert forall x :: x != a ==> (IsItem(s, x) <==> IsItem(t, x));
  }

  lemma PushParts(s: State, t: State, a: Addr, loose: set<Addr>)
    requires PartsOk(s, loose) && ChainsOk(s) && IsItem(s, a) && t.cells == s.cells[a := Free]
    ensures PartsOk(t, loose + ToSet(s.cells[a].parts)) && ChainsOk(t)
  {
    hide Distinct;
    assert forall x :: IsItem(t, x) ==> x != a && IsItem(s, x) && t.cells[x] == s.cells[x];
  }

  /** An unlinked item goes back to the allocator; its chunks have lost their item. */
  lemma PushItem(s: State, t: State, a: Addr, loose: set<Addr>)
    requires Heap(s, loose + {a}) && IsItem(s, a) && !s.cells[a].linked && !Reserved(s, a)
    requires t.cells == s.cells[a := Free] && t.table == s.table && t.lru == s.lru && t.mover == s.mover
    requires t.owner == s.owner
    requires a !in loose
    ensures Heap(t, loose + ToSet(s.cells[a].parts))
  {
    hide ItemsOk, ChainOk;
    PushItemsOk(s, t, a);
    LooseItem(s, a, loose);
    PushChain(s, t, a, loose);
  }

  /** Only chunks can be loose in a chain. */
  lemma LooseItem(s: State, a: Addr, loose: set<Addr>)
    requires ChainOk(s, loose + {a}) && IsItem(s, a)
    ensures ChainOk(s, loose)
  {
    hide Distinct;
  }

  lemma PushPart(s: State, t: State, p: Addr, loose: set<Addr>)
    requires Heap(s, loose) && p in loose && p in s.cells && s.cells[p].Part?
    requires t.cells == s.cells[p := Free] && t.table == s.table && t.lru == s.lru && t.mover == s.mover
    requires t.owner == s.owner
    ensures Heap(t, loose - {p})
  {
    hide ItemsOk;
    PushPartItems(s, t, p);
    PushPartChain(s, t, p, loose);
    assert RefsOk(t, loose - {p});
  }

  lemma PushPartItems(s: State, t: State, p: Addr)
    requires ItemsOk(s) && p in s.cells && s.cells[p].Part? && t.cells == s.cells[p := Free]
    requires t.table == s.table && t.lru == s.lru
    ensures ItemsOk(t)
  {
    assert forall x :: IsItem(s, x) <==> IsItem(t, x);
  }

  lemma PushPartChain(s: State, t: State, p: Addr, loose: set<Addr>)
    requires ChainOk(s, loose) && p in loose && p in s.cells && s.cells[p].Part? && t.cells == s.cells[p := Free]
    ensures ChainOk(t, loose - {p})
  {
    hide Distinct;
    assert forall x :: IsItem(s, x) <==> IsItem(t, x);
  }

  // ----- an item changes, its chunks do not -----

  lemma ReviseChain(s: State, t: State, a: Addr, it: Cell, loose: set<Addr>)
    requires ChainOk(s, loose) && IsItem(s, a) && it.Item? && it.parts == s.cells[a].parts && WholeOk(it)
    requires t.cells == s.cells[a := it]
    ensures ChainOk(t, loose)
  {
    hide Distinct;
    assert forall x :: IsItem(s, x) <==> IsItem(t, x);
  }

  /** References or contents change, the links do not. */
  lemma ReviseItemsOk(s: State, t: State, a: Addr, it: Cell)
    requires ItemsOk(s) && IsItem(s, a) && it.Item? && it.linked == s.cells[a].linked
    requires it.linked ==> it.data.key == s.cells[a].data.key
    requires t.cells == s.cells[a := it] && t.table == s.table && t.lru == s.lru
    ensures ItemsOk(t)
  {
    assert forall x :: IsItem(s, x) <==> IsItem(t, x);
  }

  lemma Revise(s: State, t: State, a: Addr, it: Cell, loose: set<Addr>)
    requires Heap(s, loose) && IsItem(s, a) && it.Item? && it.linked == s.cells[a].linked
    requires it.linked ==> it.data.key == s.cells[a].data.key
    requires it.parts == s.cells[a].parts && WholeOk(it)
    requires t.cells == s.cells[a := it] && t.table == s.table && t.lru == s.lru
    requires t.mover == s.mover && t.owner == s.owner && !Reserved(s, a)
    ensures ItemsOk(t) && ChainOk(t, loose) && RescueOk(t)
    ensures it.refs >= 1 ==> Heap(t, loose)
    ensures Heap(t, loose + {a})
  {
    hide ItemsOk, ChainOk;
    ReviseItemsOk(s, t, a, it);
    ReviseChain(s, t, a, it, loose);
    MoreLoose(t, a, loose);
  }

  lemma MoreLoose(s: State, a: Addr, loose: set<Addr>)
    requires ChainOk(s, loose) && IsItem(s, a)
    ensures ChainOk(s, loose + {a})
  {
    hide Distinct;
  }

  lemma LinkItemsOk(s: State, a: Addr)
    requires ItemsOk(s) && IsItem(s, a) && !s.cells[a].linked && s.cells[a].data.key !in s.table
    ensures ItemsOk(Link(s, a))
  {
    var t := Link(s, a);
    assert forall x :: IsItem(s, x) <==> IsItem(t, x);
  }

  lemma LinkHeap(s: State, a: Addr, loose: set<Addr>)
    requires Heap(s, loose) && IsItem(s, a) && !s.cells[a].linked && s.cells[a].data.key !in s.table && !Reserved(s, a)
    requires s.cells[a].chunked ==> s.cells[a].parts != []
    ensures Heap(Link(s, a), loose)
  {
    hide ItemsOk, ChainOk;
    var t := Link(s, a);
    LinkItemsOk(s, a);
    ReviseChainOf(s, a, loose);
    ReviseChain(s, t, a, t.cells[a], loose);
  }

  lemma ReviseChainOf(s: State, a: Addr, loose: set<Addr>)
    requires ChainOk(s, loose) && IsItem(s, a)
    ensures WholeOk(s.cells[a])
  {}

  lemma DetachItemsOk(s: State, a: Addr)
    requires ItemsOk(s) && IsItem(s, a) && s.cells[a].linked && s.cells[a].refs > 0
    ensures ItemsOk(Detach(s, a))
  {
    var t := Detach(s, a);
    assert forall x :: IsItem(s, x) <==> IsItem(t, x);
  }

  lemma DetachHeap(s: State, a: Addr, loose: set<Addr>)
    requires Heap(s, loose) && IsItem(s, a) && s.cells[a].linked && s.cells[a].refs > 0 && !Reserved(s, a)
    ensures Heap(Detach(s, a), loose + {a})
    ensures s.cells[a].refs > 1 ==> Heap(Detach(s, a), loose)
  {
    hide ItemsOk, ChainOk;
    var t := Detach(s, a);
    DetachItemsOk(s, a);
    ReviseChainOf(s, a, loose);
    ReviseChain(s, t, a, t.cells[a], loose);
    MoreLoose(t, a, loose);
  }

  lemma WriteHeap(s: State, t: State, p: Addr, bytes: string, loose: set<Addr>)
    requires Heap(s, loose) && p in s.cells && s.cells[p].Part?
    requires t.cells == s.cells[p := s.cells[p].(bytes := bytes)] && t.table == s.table && t.lru == s.lru
    requires t.mover == s.mover && t.owner == s.owner
    ensures Heap(t, loose)
  {
    hide ItemsOk, ChainOk;
    WriteItems(s, t, p, bytes);
    WriteChain(s, t, p, bytes, loose);
    assert forall x :: IsItem(s, x) <==> IsItem(t, x);
  }

  lemma WriteChain(s: State, t: State, p: Addr, bytes: string, loose: set<Addr>)
    requires ChainOk(s, loose) && p in s.cells && s.cells[p].Part?
    requires t.cells == s.cells[p := s.cells[p].(bytes := bytes)]
    ensures ChainOk(t, loose)
  {
    hide Distinct;
    assert forall x :: IsItem(s, x) <==> IsItem(t, x);
    assert forall x :: IsItem(s, x) ==> t.cells[x] == s.cells[x];
  }

  lemma WriteItems(s: State, t: State, p: Addr, bytes: string)
    requires ItemsOk(s) && p in s.cells && s.cells[p].Part?
    requires t.cells == s.cells[p := s.cells[p].(bytes := bytes)] && t.table == s.table && t.lru == s.lru
    ensures ItemsOk(t)
  {
    assert forall x :: IsItem(s, x) <==> IsItem(t, x);
  }

  // ----- a chunk is chained to an item -----

  ghost predicate Attached(s: State, t: State, head: Addr, a: Addr, bytes: string) {
    && IsItem(s, head) && IsItem(s, a) && a != head && s.cells[head].chunked && s.cells[a].parts == []
    && t.cells == s.cells[a := Part(head, bytes, s.cells[a].req)]
                         [head := s.cells[head].(parts := s.cells[head].parts + [a])]
    && t.table == s.table && t.lru == s.lru && t.mover == s.mover && t.owner == s.owner
  }

  lemma AttachItems(s: State, t: State, head: Addr, a: Addr, bytes: string)
    requires ItemsOk(s) && Attached(s, t, head, a, bytes) && !s.cells[a].linked && !s.cells[head].linked
    ensures ItemsOk(t)
  {
    assert forall x :: x != a ==> (IsItem(s, x) <==> IsItem(t, x));
  }

  lemma AttachChains(s: State, t: State, head: Addr, a: Addr, bytes: string)
    requires PartsOk(s, {}) && ChainsOk(s) && Attached(s, t, head, a, bytes)
    ensures ChainsOk(t)
  {
    var parts := s.cells[head].parts;
    assert Distinct(parts) && a !in parts;
    assert Distinct(parts + [a]);
    hide Distinct;
    assert forall x :: IsItem(t, x) ==> IsItem(s, x) && (x == head || t.cells[x] == s.cells[x]);
  }

  lemma AttachParts(s: State, t: State, head: Addr, a: Addr, bytes: string)
    requires PartsOk(s, {}) && Attached(s, t, head, a, bytes)
    ensures PartsOk(t, {})
  {
    var parts := s.cells[head].parts;
    assert forall p :: p in parts + [a] <==> p in parts || p == a;
    assert forall x :: IsItem(t, x) ==> IsItem(s, x) && (x == head || t.cells[x] == s.cells[x]);
  }

  lemma AttachHeads(s: State, t: State, head: Addr, a: Addr, bytes: string)
    requires HeadsOk(s, {}) && Attached(s, t, head, a, bytes)
    ensures HeadsOk(t, {})
  {
    var parts := s.cells[head].parts;
    assert forall p :: p in parts + [a] <==> p in parts || p == a;
    assert forall p :: p in s.cells && s.cells[p].Part? ==> p != a && p != head && s.cells[p].head != a;
    assert forall x :: x != a ==> (IsItem(s, x) <==> IsItem(t, x));
  }

  lemma AttachHeap(s: State, t: State, head: Addr, a: Addr, bytes: string)
    requires Heap(s, {}) && Attached(s, t, head, a, bytes) && !s.cells[a].linked && !s.cells[head].linked
    requires !Reserved(s, a) && !Reserved(s, head)
    ensures Heap(t, {})
  {
    hide ItemsOk, PartsOk, ChainsOk, HeadsOk;
    AttachItems(s, t, head, a, bytes);
    assert ChainOk(t, {}) by {
      AttachChains(s, t, head, a, bytes);
      AttachParts(s, t, head, a, bytes);
      AttachHeads(s, t, head, a, bytes);
    }
  }

  // ----- an item moves -----

  lemma {:induction false} RepointCells(cells: map<Addr, Cell>, parts: seq<Addr>, head: Addr, a: Addr)
    ensures a in Repoint(cells, parts, head) <==> a in cells
    ensures a in cells ==>
      Repoint(cells, parts, head)[a] == (if a in parts && cells[a].Part? then cells[a].(head := head) else cells[a])
    decreases |parts|
  {
    if parts != [] {
      RepointCells(cells, parts[1..], head, a);
      RepointCells(cells, parts[1..], head, parts[0]);
      assert parts == [parts[0]] + parts[1..];
    }
  }

  /** The memory after an item has moved, chunk by chunk. */
  ghost predicate ItemMoved(s: State, t: State, it: Addr, to: Addr) {
    && IsItem(s, it) && it in t.cells && t.cells[it] == Cleared
    && to in t.cells && t.cells[to] == s.cells[it].(refs := 1)
    && (forall a :: a in t.cells <==> a in s.cells)
    && (forall a :: a in s.cells && a != it && a != to ==>
          t.cells[a] == (if a in s.cells[it].parts && s.cells[a].Part? then s.cells[a].(head := to) else s.cells[a]))
    && t.table == s.table[s.cells[it].data.key := to] && t.lru == s.lru - {it} + {to}
  }

  lemma MoveItemMoves(s: State, it: Addr, to: Addr)
    requires IsItem(s, it) && to in s.cells && it != to && to !in s.cells[it].parts && it !in s.cells[it].parts
    ensures ItemMoved(s, MoveItem(s, it, to), it, to)
  {
    var item := s.cells[it];
    var cells := s.cells[to := item.(refs := 1)];
    forall a
      ensures a in Repoint(cells, item.parts, to) <==> a in cells
      ensures a in cells ==>
        Repoint(cells, item.parts, to)[a] == (if a in item.parts && cells[a].Part? then cells[a].(head := to)
          else cells[a])
    {
      RepointCells(cells, item.parts, to, a);
    }
    hide Repoint;
  }

  /** What the mover knows about the item it has locked and the memory it has got. */
  ghost predicate CanMove(s: State, it: Addr, to: Addr) {
    && IsItem(s, it) && s.cells[it].linked
    && IsItem(s, to) && !s.cells[to].linked && s.cells[to].parts == [] && it != to
  }

  lemma MovedItems(s: State, t: State, it: Addr, to: Addr)
    requires ItemsOk(s) && CanMove(s, it, to) && ItemMoved(s, t, it, to)
    ensures ItemsOk(t)
  {
    assert forall x :: x != it && x != to ==> (IsItem(s, x) <==> IsItem(t, x));
    assert forall x :: x != it && x != to && IsItem(s, x) ==> t.cells[x] == s.cells[x];
  }

  lemma MovedParts(s: State, t: State, it: Addr, to: Addr)
    requires ChainOk(s, {}) && CanMove(s, it, to) && ItemMoved(s, t, it, to)
    ensures PartsOk(t, {}) && ChainsOk(t)
  {
    hide Distinct, HeadsOk;
    PartsElsewhere(s, it);
    PartsElsewhere(s, to);
    assert forall x :: IsItem(t, x) && x != to ==> IsItem(s, x) && x != it && t.cells[x] == s.cells[x];
  }

  lemma MovedHeads(s: State, t: State, it: Addr, to: Addr)
    requires HeadsOk(s, {}) && CanMove(s, it, to) && ItemMoved(s, t, it, to)
    ensures HeadsOk(t, {})
  {
    assert forall p :: p in s.cells && s.cells[p].Part? ==> s.cells[p].head != to && p != it && p != to;
    assert forall p :: p in s.cells && s.cells[p].Part? && s.cells[p].head == it ==> p in s.cells[it].parts;
    assert forall x :: x != it && x != to && IsItem(s, x) ==> IsItem(t, x) && t.cells[x] == s.cells[x];
  }

  lemma MovedRefs(s: State, t: State, it: Addr, to: Addr)
    requires RefsOk(s, {}) && ItemMoved(s, t, it, to)
    ensures RefsOk(t, {})
  {
    assert forall x :: IsItem(t, x) && x != to ==> IsItem(s, x) && t.cells[x] == s.cells[x];
  }

  lemma MoveItemMover(s: State, it: Addr, to: Addr)
    requires IsItem(s, it)
    ensures MoveItem(s, it, to).mover == s.mover
  {}

  lemma MovedHeap(s: State, it: Addr, to: Addr)
    requires Heap(s, {}) && CanMove(s, it, to) && !(s.mover.Moving? && s.mover.rescue.Rescue?)
    ensures ItemMoved(s, MoveItem(s, it, to), it, to) && Heap(MoveItem(s, it, to), {})
  {
    hide ItemsOk, PartsOk, ChainsOk, HeadsOk, MoveItem;
    PartsElsewhere(s, it);
    PartsElsewhere(s, to);
    var t := MoveItem(s, it, to);
    MoveItemMoves(s, it, to);
    MovedItems(s, t, it, to);
    MovedParts(s, t, it, to);
    MovedHeads(s, t, it, to);
    MovedRefs(s, t, it, to);
    MoveItemMover(s, it, to);
  }

  lemma PartsElsewhere(s: State, a: Addr)
    requires ChainOk(s, {}) && IsItem(s, a)
    ensures forall x :: IsItem(s, x) ==> a !in s.cells[x].parts
  {}

  // ----- a chunk of an item moves -----

  lemma ReplacedFacts(xs: seq<Addr>, x: Addr, y: Addr)
    requires Distinct(xs) && y !in xs
    ensures Distinct(Replaced(xs, x, y))
    ensures forall z :: z in Replaced(xs, x, y) <==> (z in xs && z != x) || (z == y && x in xs)
  {
    var ys := Replaced(xs, x, y);
    assert forall i :: 0 <= i < |xs| ==> ys[i] == if xs[i] == x then y else xs[i];
    forall z | z in xs && z != x
      ensures z in ys
    {
      var i :| 0 <= i < |xs| && xs[i] == z;
      assert ys[i] == z;
    }
    if x in xs {
      var i :| 0 <= i < |xs| && xs[i] == x;
      assert ys[i] == y;
    }
  }

  lemma PartItems(s: State, it: Addr, part: Addr, to: Addr)
    requires ItemsOk(s) && CanMove(s, it, to) && part in s.cells && s.cells[part].Part?
    ensures ItemsOk(MovePart(s, it, part, to))
  {
    var t := MovePart(s, it, part, to);
    assert forall x :: x != to ==> (IsItem(s, x) <==> IsItem(t, x));
  }

  lemma PartParts(s: State, it: Addr, part: Addr, to: Addr)
    requires PartsOk(s, {}) && ChainsOk(s) && CanMove(s, it, to) && part in s.cells[it].parts
    ensures part in s.cells && s.cells[part].Part?
    ensures PartsOk(MovePart(s, it, part, to), {}) && ChainsOk(MovePart(s, it, part, to))
  {
    hide PartsOk, ChainsOk, Distinct, MovePart;
    PartFacts(s, it, part, to);
    PartPointers(s, it, part, to);
    PartChains(s, it, part, to);
  }

  lemma PartPointers(s: State, it: Addr, part: Addr, to: Addr)
    requires PartsOk(s, {}) && CanMove(s, it, to) && part in s.cells[it].parts && part in s.cells && s.cells[part].Part?
    requires s.cells[part].head == it && to !in s.cells[it].parts && Distinct(s.cells[it].parts)
    ensures PartsOk(MovePart(s, it, part, to), {})
  {
    hide Distinct, Replaced;
    ReplacedFacts(s.cells[it].parts, part, to);
    var t := MovePart(s, it, part, to);
    assert forall x :: IsItem(t, x) ==> IsItem(s, x) && x != to && (x == it || t.cells[x] == s.cells[x]);
  }

  lemma PartChains(s: State, it: Addr, part: Addr, to: Addr)
    requires ChainsOk(s) && CanMove(s, it, to) && part in s.cells[it].parts && part in s.cells && s.cells[part].Part?
    requires to !in s.cells[it].parts && Distinct(s.cells[it].parts)
    ensures ChainsOk(MovePart(s, it, part, to))
  {
    hide Distinct, Replaced;
    ReplacedFacts(s.cells[it].parts, part, to);
    var t := MovePart(s, it, part, to);
    assert forall x :: IsItem(t, x) ==> IsItem(s, x) && x != to && (x == it || t.cells[x] == s.cells[x]);
  }

  lemma PartFacts(s: State, it: Addr, part: Addr, to: Addr)
    requires PartsOk(s, {}) && ChainsOk(s) && CanMove(s, it, to) && part in s.cells[it].parts
    ensures part in s.cells && s.cells[part].Part? && s.cells[part].head == it
    ensures to !in s.cells[it].parts && Distinct(s.cells[it].parts)
  {
    hide Distinct;
  }

  lemma PartHeads(s: State, it: Addr, part: Addr, to: Addr)
    requires PartsOk(s, {}) && ChainsOk(s) && HeadsOk(s, {}) && CanMove(s, it, to) && part in s.cells[it].parts
    ensures part in s.cells && s.cells[part].Part?
    ensures HeadsOk(MovePart(s, it, part, to), {})
  {
    hide Distinct, Replaced, PartsOk, ChainsOk;
    PartFacts(s, it, part, to);
    ReplacedFacts(s.cells[it].parts, part, to);
    assert forall p :: p in s.cells && s.cells[p].Part? ==> s.cells[p].head != to && p != to && p != it;
    var t := MovePart(s, it, part, to);
    assert forall x :: x != to ==> (IsItem(s, x) <==> IsItem(t, x));
    assert forall p :: p in t.cells && t.cells[p].Part? && p != to ==>
      p in s.cells && s.cells[p].Part? && t.cells[p] == s.cells[p] && p != part;
  }

  lemma PartHeap(s: State, it: Addr, part: Addr, to: Addr)
    requires Heap(s, {}) && CanMove(s, it, to) && part in s.cells[it].parts
    requires !(s.mover.Moving? && s.mover.rescue.Rescue?)
    ensures part in s.cells && s.cells[part].Part?
    ensures Heap(MovePart(s, it, part, to), {})
  {
    hide ItemsOk, PartsOk, ChainsOk, HeadsOk;
    PartParts(s, it, part, to);
    PartHeads(s, it, part, to);
    PartItems(s, it, part, to);
    var t := MovePart(s, it, part, to);
    assert forall x :: IsItem(t, x) && x != it ==> IsItem(s, x) && t.cells[x] == s.cells[x];
  }
}
