/** Every step of workers and mover keeps the invariant, in whatever order they come. */
module SlabsProofs {
  import opened SlabsTypes
  import opened SlabsSteps
  import opened SlabsInvariant
  import opened SlabsBase
  import opened SlabsPages
  import opened SlabsHeap
  import opened LruSpec

  // ----- chunks -----

  lemma HeadOfFree(cf: Config, s: State, c: nat)
    requires Base(cf, s) && c < |s.free| && s.free[c] != []
    ensures var a := s.free[c][0]; a in s.cells && s.cells[a].Free? && Known(s, a) && s.owner[a.page] == c
    ensures Without(s.free[c], s.free[c][0]) == s.free[c][1..]
  {
    assert s.free[c][0] in s.free[c] && Distinct(s.free[c]);
    WithoutAt(s.free[c], 0);
    assert s.free[c][..0] + s.free[c][1..] == s.free[c][1..];
    hide Distinct;
  }

  lemma PopIsPut(cf: Config, s: State, c: nat, size: nat)
    requires Base(cf, s) && c < |s.free| && s.free[c] != []
    ensures Known(s, s.free[c][0])
    ensures Pop(s, c, size) == Put(s, s.free[c][0], Item(RAW, false, false, 1, [], size))
  {
    hide Base, Without;
    HeadOfFree(cf, s, c);
  }

  lemma PopKeeps(cf: Config, s: State, c: nat, size: nat)
    requires Base(cf, s) && Heap(s, {}) && c < |s.free| && s.free[c] != []
    ensures Base(cf, Pop(s, c, size)) && Heap(Pop(s, c, size), {})
  {
    hide PagesOk, CellsOk, FreeOk, MoverOk, CountsOk, MemoryOk, ItemsOk, RefsOk, ChainOk, RescueOk, Put;
    var a, it := s.free[c][0], Item(RAW, false, false, 1, [], size);
    HeadOfFree(cf, s, c);
    PopIsPut(cf, s, c, size);
    PutBase(cf, s, a, it);
    NewItem(s, Pop(s, c, size), a, it, {});
  }

  lemma PushBase(cf: Config, s: State, a: Addr)
    requires Base(cf, s) && Known(s, a) && InUse(s.cells[a])
    ensures Base(cf, Push(s, a))
  {
    hide Base;
    assert Push(s, a) == Put(s, a, Free);
    PutBase(cf, s, a, Free);
  }

  lemma KnownCell(cf: Config, s: State, a: Addr)
    requires Base(cf, s) && a in s.cells
    ensures Known(s, a)
  {}

  lemma {:induction false} PushAllKeeps(cf: Config, s: State, parts: seq<Addr>, loose: set<Addr>)
    requires Base(cf, s) && Heap(s, loose) && Distinct(parts)
    requires forall p :: p in parts ==> p in loose && p in s.cells && s.cells[p].Part? && Known(s, p)
    ensures Base(cf, PushAll(s, parts)) && Heap(PushAll(s, parts), loose - ToSet(parts))
    decreases |parts|
  {
    hide Base, Heap;
    if parts == [] {
      assert loose - ToSet(parts) == loose;
    } else {
      var p, rest := parts[0], parts[1..];
      var t := Push(s, p);
      assert p in parts && forall q :: q in rest ==> q in parts;
      PushBase(cf, s, p);
      PushPart(s, t, p, loose);
      DistinctTail(parts);
      assert p !in rest;
      hide Distinct;
      PushAllKeeps(cf, t, rest, loose - {p});
      assert parts == [p] + rest;
      assert loose - {p} - ToSet(rest) == loose - ToSet(parts);
    }
  }

  lemma ItemParts(cf: Config, s: State, a: Addr, loose: set<Addr>)
    requires Base(cf, s) && Heap(s, loose) && IsItem(s, a)
    ensures Distinct(s.cells[a].parts) && CanFree(s, a)
    ensures forall p :: p in s.cells[a].parts ==> p != a && p in s.cells && s.cells[p].Part? && Known(s, p)
  {
    hide Distinct, FreeOk, MoverOk, CountsOk, MemoryOk, HeadsOk, PagesOk, ItemsOk, RefsOk, RescueOk;
  }

  /** item_free of an unlinked item and all its chunks. */
  lemma FreeItemKeeps(cf: Config, s: State, a: Addr)
    requires Base(cf, s) && Heap(s, {a}) && IsItem(s, a) && !s.cells[a].linked && !Reserved(s, a)
    ensures CanFree(s, a) && Base(cf, FreeItem(s, a)) && Heap(FreeItem(s, a), {})
  {
    hide Base, Heap, Distinct;
    ItemParts(cf, s, a, {a});
    assert {} + {a} == {a};
    var parts, t := s.cells[a].parts, Push(s, a);
    PushBase(cf, s, a);
    PushItem(s, t, a, {});
    assert {} + ToSet(parts) == ToSet(parts);
    assert forall p :: p in parts ==> p in t.cells && t.cells[p].Part? && Known(t, p);
    PushAllKeeps(cf, t, parts, ToSet(parts));
    assert ToSet(parts) - ToSet(parts) == {};
  }

  lemma ClearIsPut(cf: Config, s: State, a: Addr)
    requires Base(cf, s) && a in s.cells && s.cells[a].Free?
    ensures Known(s, a) && Clear(s, a) == Put(s, a, Cleared)
  {
    hide Base, Without;
    KnownCell(cf, s, a);
    var k := s.owner[a.page];
    assert s.requested[k := s.requested[k]] == s.requested;
  }

  /** A free chunk of the victim page is cleared. */
  lemma ClearKeeps(cf: Config, s: State, a: Addr)
    requires Base(cf, s) && Heap(s, {}) && a in s.cells && s.cells[a].Free? && s.mover.Moving? && a.page == s.mover.page
    ensures Known(s, a) && Base(cf, Clear(s, a)) && Heap(Clear(s, a), {}) && SameInUse(s, Clear(s, a))
  {
    hide PagesOk, CellsOk, FreeOk, MoverOk, CountsOk, MemoryOk, Put, Without;
    ClearIsPut(cf, s, a);
    PutBase(cf, s, a, Cleared);
    var t := Clear(s, a);
    assert SameInUse(s, t);
    RescueSame(s, t);
    hide Heap;
    SameHeap(s, t, {});
  }

  lemma RescueSame(s: State, t: State)
    requires RescueOk(s) && SameInUse(s, t) && t.mover == s.mover
    requires s.mover.Moving? && s.mover.rescue.Rescue? && s.mover.rescue.to.Some? ==>
      var n := s.mover.rescue.to.value; n.page in s.owner ==> n.page in t.owner && t.owner[n.page] == s.owner[n.page]
    ensures RescueOk(t)
  {}

  /** slab_rebalance_alloc: what it returns is outside the page, and what it met inside is cleared. */
  lemma {:induction false} AllocOutsideKeeps(cf: Config, s: State, size: nat, n: nat)
    requires Base(cf, s) && Heap(s, {}) && s.mover.Moving?
    ensures var m := s.mover; m.src < |s.free| == |s.requested|
    ensures var m := s.mover; var (t, to) := AllocOutside(s, m.src, m.page, size, n);
      && Base(cf, t) && Heap(t, {}) && t.mover == m && t.table == s.table && t.lru == s.lru
      && (forall a :: a in s.cells && InUse(s.cells[a]) ==> a in t.cells && t.cells[a] == s.cells[a])
      && (to.Some? ==>
            var a := to.value;
            && a in s.cells && !InUse(s.cells[a]) && a in t.cells && t.cells[a] == Item(RAW, false, false, 1, [], size)
            && a.page != m.page && a.page in t.owner && t.owner[a.page] == m.src)
    decreases n
  {
    hide PagesOk, CellsOk, FreeOk, CountsOk, MemoryOk, Heap, Without;
    var m := s.mover;
    if n > 0 && s.free[m.src] != [] {
      var a := s.free[m.src][0];
      HeadOfFree(cf, s, m.src);
      if a.page == m.page {
        ClearKeeps(cf, s, a);
        assert SameInUse(s, Clear(s, a));
        AllocOutsideKeeps(cf, Clear(s, a), size, n - 1);
      } else {
        PopKeeps(cf, s, m.src, size);
      }
    }
  }

  // ----- items -----

  lemma ItemFacts(s: State, a: Addr)
    requires Heap(s, {}) && IsItem(s, a)
    ensures s.cells[a].refs >= 1 && WholeOk(s.cells[a])
  {
    hide ItemsOk, PartsOk, HeadsOk, RescueOk, Distinct;
  }

  lemma FillKeeps(cf: Config, s: State, a: Action)
    requires Inv(cf, s) && Enabled(cf, s, a) && (a.Fill? || a.Write? || a.Attach?)
    ensures Inv(cf, Apply(cf, s, a))
  {
    hide Base, Heap;
    var t := Apply(cf, s, a);
    match a
    case Fill(x, data, chunked) =>
      var it := s.cells[x].(data := data, chunked := chunked);
      ItemFacts(s, x);
      PutSame(cf, s, x, it);
      Revise(s, t, x, it, {});
    case Write(x, bytes) =>
      PutSame(cf, s, x, s.cells[x].(bytes := bytes));
      WriteHeap(s, t, x, bytes, {});
    case Attach(head, x, bytes) =>
      PutSame(cf, s, x, Part(head, bytes, s.cells[x].req));
      PutSame(cf, SetCell(s, x, Part(head, bytes, s.cells[x].req)), head,
        s.cells[head].(parts := s.cells[head].parts + [x]));
      AttachHeap(s, t, head, x, bytes);
  }

  /** A chunk in use is rewritten without changing its size. */
  lemma PutSame(cf: Config, s: State, a: Addr, c: Cell)
    requires Base(cf, s) && a in s.cells && InUse(s.cells[a]) && InUse(c) && Req(c) == Req(s.cells[a])
    ensures Base(cf, SetCell(s, a, c))
  {
    hide Base;
    KnownCell(cf, s, a);
    var k := s.owner[a.page];
    assert s.requested[k := s.requested[k]] == s.requested;
    assert SetCell(s, a, c) == Put(s, a, c);
    PutBase(cf, s, a, c);
  }

  /** Lists and counts do not depend on the hash table and the LRU. */
  lemma Relink(cf: Config, s: State, table: map<Key, Addr>, lru: set<Addr>)
    requires Base(cf, s)
    ensures Base(cf, s.(table := table, lru := lru))
  {
    var t := s.(table := table, lru := lru);
    RelinkLists(cf, s, table, lru);
    RelinkMover(cf, s, table, lru);
  }

  lemma RelinkLists(cf: Config, s: State, table: map<Key, Addr>, lru: set<Addr>)
    requires Base(cf, s)
    ensures var t := s.(table := table, lru := lru); PagesOk(t) && FreeOk(t) && MemoryOk(cf, t)
  {
    hide CellsOk, MoverOk, CountsOk, Distinct, Total, NonEmpty;
  }

  lemma RelinkMover(cf: Config, s: State, table: map<Key, Addr>, lru: set<Addr>)
    requires Base(cf, s)
    ensures var t := s.(table := table, lru := lru); Shape(cf, t) && CellsOk(cf, t) && MoverOk(cf, t) && CountsOk(cf, t)
  {
    hide PagesOk, FreeOk, MemoryOk, Tally;
    var t := s.(table := table, lru := lru);
    assert forall p, i :: IsCleared(s, p, i) <==> IsCleared(t, p, i);
  }

  lemma LinkKeeps(cf: Config, s: State, a: Addr)
    requires Inv(cf, s) && Uploading(s, a) && s.cells[a].data.key !in s.table
    requires (s.cells[a].chunked ==> s.cells[a].parts != [])
    ensures Inv(cf, Link(s, a))
  {
    hide Base, Heap;
    var it := s.cells[a].(linked := true, refs := s.cells[a].refs + 1);
    PutSame(cf, s, a, it);
    Relink(cf, SetCell(s, a, it), s.table[it.data.key := a], s.lru + {a});
    LinkHeap(s, a, {});
  }

  lemma DetachBase(cf: Config, s: State, a: Addr)
    requires Base(cf, s) && IsItem(s, a) && s.cells[a].refs > 0
    ensures Base(cf, Detach(s, a))
  {
    hide Base;
    var it := s.cells[a].(linked := false, refs := s.cells[a].refs - 1);
    PutSame(cf, s, a, it);
    Relink(cf, SetCell(s, a, it), s.table - {it.data.key}, s.lru - {a});
  }

  /** Unlinking drops one reference; the last one frees the item. */
  lemma UnlinkKeeps(cf: Config, s: State, a: Addr)
    requires Inv(cf, s) && IsItem(s, a) && s.cells[a].linked && s.cells[a].refs > 0 && !Reserved(s, a)
    ensures Inv(cf, FreeIfLast(Detach(s, a), a))
  {
    hide Base, Heap, FreeItem;
    var t := Detach(s, a);
    DetachBase(cf, s, a);
    DetachHeap(s, a, {});
    assert {} + {a} == {a};
    if t.cells[a].refs == 0 {
      FreeItemKeeps(cf, t, a);
    }
  }

  lemma HoldKeeps(cf: Config, s: State, a: Addr)
    requires Inv(cf, s) && IsItem(s, a) && !Reserved(s, a)
    ensures Inv(cf, Hold(s, a))
  {
    hide Base, Heap;
    var it := s.cells[a].(refs := s.cells[a].refs + 1);
    ItemFacts(s, a);
    PutSame(cf, s, a, it);
    Revise(s, Hold(s, a), a, it, {});
  }

  lemma UnholdKeeps(cf: Config, s: State, a: Addr)
    requires Inv(cf, s) && CanFree(s, a) && s.cells[a].refs > (if s.cells[a].linked then 1 else 0) && !Reserved(s, a)
    ensures Inv(cf, Unhold(s, a))
  {
    hide Base, Heap, FreeItem;
    var it := s.cells[a].(refs := s.cells[a].refs - 1);
    ItemFacts(s, a);
    var t := SetCell(s, a, it);
    PutSame(cf, s, a, it);
    Revise(s, t, a, it, {});
    assert {} + {a} == {a};
    if it.refs == 0 {
      FreeItemKeeps(cf, t, a);
    }
  }

  // ----- the mover -----

  /** A new cursor and a new rescue, as far as lists and counts are concerned. */
  lemma MoverBase(cf: Config, s: State, m: Mover)
    requires Base(cf, s) && Shape(cf, s.(mover := m)) && MoverOk(cf, s.(mover := m))
    ensures Base(cf, s.(mover := m))
  {
    MoverBaseLists(cf, s, m);
    hide PagesOk, CellsOk, FreeOk, MoverOk, CountsOk, MemoryOk;
  }

  lemma MoverBaseLists(cf: Config, s: State, m: Mover)
    requires Base(cf, s)
    ensures var t := s.(mover := m);
      Shape(cf, t) && PagesOk(t) && CellsOk(cf, t) && FreeOk(t) && CountsOk(cf, t) && MemoryOk(cf, t)
  {
    hide PagesOk, FreeOk, MoverOk, Distinct, Tally, Total, NonEmpty;
    MoverPages(cf, s, m);
  }

  lemma MoverPages(cf: Config, s: State, m: Mover)
    requires PagesOk(s) && FreeOk(s)
    ensures var t := s.(mover := m); PagesOk(t) && FreeOk(t)
  {
    hide Distinct;
    assert PagesOk(s.(mover := m));
  }

  /** The cursor moves on past a chunk that is cleared, or that was busy and is counted. */
  lemma AdvanceKeeps(cf: Config, s: State, wasBusy: bool)
    requires Inv(cf, s) && s.mover.Moving? && !s.mover.done && s.mover.rescue.NoRescue?
    requires wasBusy || IsCleared(s, s.mover.page, s.mover.pos)
    ensures s.mover.src < |cf.perslab| && Inv(cf, Advance(cf, s, wasBusy))
  {
    hide PagesOk, CellsOk, FreeOk, CountsOk, MemoryOk, Heap;
    AdvanceMover(cf, s, wasBusy);
    hide MoverOk;
    var t := Advance(cf, s, wasBusy);
    MoverBase(cf, s, t.mover);
    assert SameInUse(s, t) && RescueOk(t);
    SameHeap(s, t, {});
  }

  lemma AdvanceMover(cf: Config, s: State, wasBusy: bool)
    requires Shape(cf, s) && MoverOk(cf, s) && s.mover.Moving? && !s.mover.done && s.mover.rescue.NoRescue?
    requires wasBusy || IsCleared(s, s.mover.page, s.mover.pos)
    ensures Shape(cf, Advance(cf, s, wasBusy)) && MoverOk(cf, Advance(cf, s, wasBusy))
  {
    var t := Advance(cf, s, wasBusy);
    assert forall p, i :: IsCleared(s, p, i) <==> IsCleared(t, p, i);
  }

  lemma StartKeeps(cf: Config, s: State, src: nat, dst: nat)
    requires Inv(cf, s) && s.mover.Idle?
    ensures Inv(cf, Start(s, src, dst))
  {
    hide PagesOk, CellsOk, FreeOk, CountsOk, MemoryOk, Heap;
    var t := Start(s, src, dst);
    if t != s {
      assert MoverOk(cf, t);
      hide MoverOk;
      MoverBase(cf, s, t.mover);
      assert SameInUse(s, t) && RescueOk(t);
      SameHeap(s, t, {});
    }
  }

  /** Where the cursor points in a reachable state. */
  lemma CursorFacts(cf: Config, s: State)
    requires Inv(cf, s) && s.mover.Moving? && !s.mover.done
    ensures var at := Addr(s.mover.page, s.mover.pos);
      && Known(s, at) && s.owner[s.mover.page] == s.mover.src
      && (InUse(s.cells[at]) ==> IsItem(s, Target(s, at)))
      && (s.cells[at].Part? ==> at in s.cells[Target(s, at)].parts)
  {
    var at := Addr(s.mover.page, s.mover.pos);
    assert s.mover.page in s.pages[s.mover.src];
    assert at in s.cells;
    hide FreeOk, CountsOk, MemoryOk, ItemsOk, RescueOk, Distinct;
  }

  lemma ExamineReady(cf: Config, s: State)
    requires Inv(cf, s) && s.mover.Moving? && !s.mover.done && s.mover.rescue.NoRescue?
    ensures MoverReady(cf, s)
  {
    CursorFacts(cf, s);
    hide PagesOk, CellsOk, FreeOk, CountsOk, MemoryOk, Heap;
  }

  lemma ExamineKeeps(cf: Config, s: State, locked: bool, expired: bool)
    requires Inv(cf, s) && MoverReady(cf, s)
    ensures Inv(cf, Examine(cf, s, locked, expired))
  {
    hide Inv, AllocOutside, Advance, Clear, Hold;
    var m := s.mover;
    var at := Addr(m.page, m.pos);
    match s.cells[at]
    case Cleared => AdvanceKeeps(cf, s, false);
    case Free => ClearAtCursor(cf, s);
    case _ =>
      var it := Target(s, at);
      if !s.cells[it].linked || locked || s.cells[it].refs != 1 {
        AdvanceKeeps(cf, s, true);
      } else {
        PickKeeps(cf, s, expired);
      }
  }

  lemma ClearAtCursor(cf: Config, s: State)
    requires Inv(cf, s) && MoverReady(cf, s) && s.cells[Addr(s.mover.page, s.mover.pos)].Free?
    ensures Inv(cf, Advance(cf, Clear(s, Addr(s.mover.page, s.mover.pos)), false))
  {
    hide Base, Heap, Advance;
    var at := Addr(s.mover.page, s.mover.pos);
    ClearKeeps(cf, s, at);
    assert IsCleared(Clear(s, at), s.mover.page, s.mover.pos);
    AdvanceKeeps(cf, Clear(s, at), false);
  }

  /** The item at the cursor is held, and memory to move to is looked for. */
  function PickMemory(cf: Config, s: State, expired: bool): (State, Option<Addr>)
    requires MoverReady(cf, s) && InUse(s.cells[Addr(s.mover.page, s.mover.pos)])
  {
    var m, at := s.mover, Addr(s.mover.page, s.mover.pos);
    var t := Hold(s, Target(s, at));
    if expired then (t, None) else AllocOutside(t, m.src, m.page, RescueSize(cf, s, at), cf.perslab[m.src])
  }

  function Pick(cf: Config, s: State, expired: bool): State
    requires MoverReady(cf, s) && InUse(s.cells[Addr(s.mover.page, s.mover.pos)])
  {
    var m, at := s.mover, Addr(s.mover.page, s.mover.pos);
    var it, (u, to) := Target(s, at), PickMemory(cf, s, expired);
    u.(mover := m.(rescue := Rescue(it, if it == at then None else Some(at), to)))
  }

  lemma PickMemoryKeeps(cf: Config, s: State, expired: bool)
    requires Inv(cf, s) && MoverReady(cf, s)
    requires var at := Addr(s.mover.page, s.mover.pos); InUse(s.cells[at]) && s.cells[Target(s, at)].linked
    ensures var (u, to) := PickMemory(cf, s, expired); var it := Target(s, Addr(s.mover.page, s.mover.pos));
      && Base(cf, u) && Heap(u, {}) && u.mover == s.mover
      && it in u.cells && u.cells[it] == s.cells[it].(refs := s.cells[it].refs + 1)
      && (to.Some? ==>
            && to.value in u.cells && u.cells[to.value].Item?
            && !u.cells[to.value].linked && u.cells[to.value].refs == 1
            && u.cells[to.value].parts == [] && !u.cells[to.value].chunked && to.value.page != s.mover.page
            && to.value.page in u.owner && u.owner[to.value.page] == s.mover.src)
  {
    hide Base, Heap, AllocOutside, RescueSize;
    var it := Target(s, Addr(s.mover.page, s.mover.pos));
    HoldKeeps(cf, s, it);
    if !expired {
      AllocOutsideKeeps(cf, Hold(s, it), RescueSize(cf, s, Addr(s.mover.page, s.mover.pos)), cf.perslab[s.mover.src]);
    }
  }

  lemma PickKeeps(cf: Config, s: State, expired: bool)
    requires Inv(cf, s) && MoverReady(cf, s)
    requires var at := Addr(s.mover.page, s.mover.pos);
      InUse(s.cells[at]) && s.cells[Target(s, at)].linked && s.cells[Target(s, at)].refs == 1
    ensures Inv(cf, Pick(cf, s, expired))
  {
    hide Base, Heap, PickMemory, SameInUse, RescueOk;
    CursorFacts(cf, s);
    PickMemoryKeeps(cf, s, expired);
    var u, v := PickMemory(cf, s, expired).0, Pick(cf, s, expired);
    PickRescue(v);
    RescueBase(cf, u, v.mover.rescue);
    MoverInUse(u, v.mover);
    SameHeap(u, v, {});
  }

  lemma MoverInUse(s: State, m: Mover)
    ensures SameInUse(s, s.(mover := m))
  {}

  lemma PickRescue(s: State)
    requires s.mover.Moving? && s.mover.rescue.Rescue?
    requires var m, r := s.mover, s.mover.rescue; var at := Addr(m.page, m.pos);
      && IsItem(s, r.it) && s.cells[r.it].linked && s.cells[r.it].refs == 2
      && r.part == (if r.it == at then None else Some(at)) && (r.it != at ==> at in s.cells[r.it].parts)
      && (r.to.Some? ==>
            && IsItem(s, r.to.value) && !s.cells[r.to.value].linked && s.cells[r.to.value].refs == 1
            && s.cells[r.to.value].parts == [] && !s.cells[r.to.value].chunked && r.to.value.page != m.page
            && r.to.value.page in s.owner && s.owner[r.to.value.page] == m.src)
    ensures RescueOk(s)
  {}

  lemma RescueBase(cf: Config, s: State, r: Rescue)
    requires Base(cf, s) && s.mover.Moving? && !s.mover.done
    ensures Base(cf, s.(mover := s.mover.(rescue := r)))
  {
    var t := s.(mover := s.mover.(rescue := r));
    RescueMover(cf, s, r);
    hide PagesOk, CellsOk, FreeOk, CountsOk, MemoryOk, MoverOk;
    MoverBase(cf, s, t.mover);
  }

  lemma RescueMover(cf: Config, s: State, r: Rescue)
    requires Shape(cf, s) && MoverOk(cf, s) && s.mover.Moving? && !s.mover.done
    ensures var t := s.(mover := s.mover.(rescue := r)); Shape(cf, t) && MoverOk(cf, t)
  {
    var t := s.(mover := s.mover.(rescue := r));
    assert forall p, i :: IsCleared(s, p, i) <==> IsCleared(t, p, i);
  }
}
